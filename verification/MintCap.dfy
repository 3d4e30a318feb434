/**
 The rolling-hour mint cap of a delegation. Token exchanges run concurrently: each
 reads the clock, begins a transaction (whose start time stamps the row), waits
 for the delegation's advisory lock, counts the rows of the last hour, and either
 gives up or commits its row. Retention deletes rows whose token has been dead for
 the grace period. The state keeps, beside the live table, every row ever
 recorded.
 */
module MintCap {
  import opened Wrappers
  import P = Policy
  import C = Chains

  type Instant = int
  type Jti = string

  const HOUR: int := 3_600_000_000_000

  datatype Row = Row(delegation: string, issuedAt: Instant, expiresAt: Instant)
  type Table = map<Jti, Row>

  /** The rows the cap query counts, for a transaction begun at `begin`. */
  function Recent(rows: Table, delegation: string, begin: Instant): set<Jti> {
    set j | j in rows && rows[j].delegation == delegation && rows[j].issuedAt > begin - HOUR
  }

  function Purge(rows: Table, cutoff: Instant): Table {
    map j | j in rows && rows[j].expiresAt >= cutoff :: rows[j]
  }

  predicate AtCap(rows: Table, delegation: string, cap: int, begin: Instant) {
    cap > 0 && |Recent(rows, delegation, begin)| >= cap
  }

  /** The exchanged_tokens table, as the exchange and the retention job change it. */
  class ExchangedTokens {
    var rows: Table

    constructor ()
      ensures rows == map[]
    {
      rows := map[];
    }

    /** The record transaction, once it holds the lock. */
    method Record(jti: Jti, delegation: string, cap: int, begin: Instant, expiresAt: Instant)
      returns (rateLimited: bool)
      requires jti !in rows
      modifies this
      ensures rateLimited == AtCap(old(rows), delegation, cap, begin)
      ensures rows == if rateLimited then old(rows) else old(rows)[jti := Row(delegation, begin, expiresAt)]
    {
      if cap > 0 {
        var minted := |Recent(rows, delegation, begin)|;
        if minted >= cap {
          return true;
        }
      }
      rows := rows[jti := Row(delegation, begin, expiresAt)];
      return false;
    }

    method Prune(now: Instant, grace: int) returns (deleted: nat)
      modifies this
      ensures rows == Purge(old(rows), now - grace) && deleted == |old(rows)| - |rows|
    {
      var kept := Purge(rows, now - grace);
      assert kept.Keys <= rows.Keys;
      SubsetSize(kept.Keys, rows.Keys);
      deleted := |rows.Keys| - |kept.Keys|;
      rows := kept;
    }
  }

  lemma {:induction false} SubsetSize<T>(a: set<T>, b: set<T>)
    requires a <= b
    ensures |a| <= |b|
  {
    assert b == a + (b - a);
  }

  // ---- concurrent exchanges ------------------------------------------------

  /**
   A deployment: each delegation's cap and its own expiry, which never changes once
   given; the configured lifespan of a token; the longest delay between reading the
   clock and beginning the transaction, the longest from there to the count, and the
   retention grace.
   */
  datatype Limits = Limits(
    cap: string -> int, ends: string -> Option<Instant>, ttl: int, lag: nat, wait: nat, grace: int)

  /** What resolving a delegation without an expiry takes in its place: a year from now. */
  const YEAR: int := 365 * 24 * HOUR

  /** The expiry of a token of the delegation, minted on reading the clock. */
  function Expiry(l: Limits, d: string, clock: Instant): Instant {
    match l.ends(d)
    case None => clock + P.Min(l.ttl, YEAR)
    case Some(e) => P.Min(clock + l.ttl, e)
  }

  /** The token, whose claim is cut to whole seconds, passes its own verification. */
  predicate Mintable(l: Limits, d: string, clock: Instant) {
    0 <= clock < C.NumericDate(Expiry(l, d, clock))
  }

  datatype Phase = Minted | Begun(begin: Instant) | Locked(begin: Instant) | Admitted(begin: Instant)
  datatype Exchange = Exchange(delegation: string, clock: Instant, expiresAt: Instant, phase: Phase)

  datatype State = State(
    now: Instant, rows: Table, history: Table, running: map<Jti, Exchange>, locks: map<string, Jti>,
    clocks: map<Jti, Instant>)

  const INITIAL := State(0, map[], map[], map[], map[], map[])

  datatype Event =
    | Advance(dt: nat)
    | Mint(jti: Jti, delegation: string)
    | Begin(jti: Jti)
    | Lock(jti: Jti)
    | Count(jti: Jti)
    | Commit(jti: Jti)
    | Rollback(jti: Jti)
    | Prune

  /** Ends an exchange, releasing its lock if it holds one. */
  function Finish(s: State, jti: Jti): State
    requires jti in s.running
  {
    var d := s.running[jti].delegation;
    s.(running := s.running - {jti},
       locks := if d in s.locks && s.locks[d] == jti then s.locks - {d} else s.locks)
  }

  function Enter(s: State, jti: Jti, phase: Phase): State
    requires jti in s.running
  {
    s.(running := s.running[jti := s.running[jti].(phase := phase)])
  }

  predicate Enabled(l: Limits, s: State, e: Event) {
    match e
    case Advance(_) => true
    case Prune => true
    case Mint(jti, d) => jti !in s.clocks && Mintable(l, d, s.now)
    case Begin(jti) => jti in s.running && s.running[jti].phase.Minted? && s.now <= s.running[jti].clock + l.lag
    case Lock(jti) =>
      jti in s.running && s.running[jti].phase.Begun? && s.running[jti].delegation !in s.locks
    case Count(jti) =>
      jti in s.running && s.running[jti].phase.Locked? && s.now <= s.running[jti].phase.begin + l.wait
    case Commit(jti) =>
      && jti in s.running
      && (s.running[jti].phase.Admitted? || (s.running[jti].phase.Begun? && l.cap(s.running[jti].delegation) <= 0))
    case Rollback(jti) => jti in s.running
  }

  function Next(l: Limits, s: State, e: Event): State
    requires Enabled(l, s, e)
  {
    match e
    case Advance(dt) => s.(now := s.now + dt)
    case Prune => s.(rows := Purge(s.rows, s.now - l.grace))
    case Mint(jti, d) =>
      s.(running := s.running[jti := Exchange(d, s.now, Expiry(l, d, s.now), Minted)],
         clocks := s.clocks[jti := s.now])
    case Begin(jti) => Enter(s, jti, Begun(s.now))
    case Lock(jti) =>
      Enter(s, jti, Locked(s.running[jti].phase.begin)).(locks := s.locks[s.running[jti].delegation := jti])
    case Count(jti) =>
      var x := s.running[jti];
      if AtCap(s.rows, x.delegation, l.cap(x.delegation), x.phase.begin) then Finish(s, jti)
      else Enter(s, jti, Admitted(x.phase.begin))
    case Commit(jti) =>
      var x := s.running[jti];
      var row := Row(x.delegation, x.phase.begin, x.expiresAt);
      Finish(s, jti).(rows := s.rows[jti := row], history := s.history[jti := row])
    case Rollback(jti) => Finish(s, jti)
  }

  /** The state a list of events leads to, if each is enabled in its turn. */
  function Run(l: Limits, events: seq<Event>): Option<State> {
    if events == [] then Some(INITIAL)
    else
      var n := |events| - 1;
      var s := Run(l, events[..n]);
      if s.Some? && Enabled(l, s.value, events[n]) then Some(Next(l, s.value, events[n])) else None
  }

  /** Every token ever recorded for the delegation with an issue time in the hour after x. */
  function Span(history: Table, delegation: string, x: Instant): set<Jti> {
    set j | j in history && history[j].delegation == delegation && x < history[j].issuedAt <= x + HOUR
  }

  predicate LocksHold(s: State) {
    forall j <- s.running :: s.running[j].phase.Locked? || s.running[j].phase.Admitted? ==>
      s.running[j].delegation in s.locks && s.locks[s.running[j].delegation] == j
  }

  /** The row comes of a clock reading at which its delegation could mint, at most the lag before it was issued. */
  predicate RowFits(l: Limits, row: Row, clock: Instant) {
    && Mintable(l, row.delegation, clock) && row.expiresAt == Expiry(l, row.delegation, clock)
    && clock <= row.issuedAt <= clock + l.lag
  }

  predicate RowsKept(l: Limits, s: State) {
    && (forall j <- s.rows :: j in s.history && s.history[j] == s.rows[j])
    && (forall j <- s.history :: j !in s.rows ==> s.history[j].expiresAt < s.now - l.grace)
    && (forall j <- s.history :: j in s.clocks && RowFits(l, s.history[j], s.clocks[j]))
  }

  predicate ExchangeFits(l: Limits, x: Exchange) {
    && Mintable(l, x.delegation, x.clock) && x.expiresAt == Expiry(l, x.delegation, x.clock)
    && (!x.phase.Minted? ==> x.clock <= x.phase.begin <= x.clock + l.lag)
  }

  predicate ExchangesKept(l: Limits, s: State) {
    0 <= s.now && forall j <- s.running ::
      && j !in s.history && j in s.clocks && s.running[j].clock == s.clocks[j] <= s.now
      && ExchangeFits(l, s.running[j])
  }

  predicate Bookkeeping(l: Limits, s: State) {
    RowsKept(l, s) && ExchangesKept(l, s)
  }

  /** An admitted exchange still has room, counting even the rows that have been pruned. */
  predicate RoomLeft(l: Limits, s: State) {
    forall j <- s.running :: s.running[j].phase.Admitted? && l.cap(s.running[j].delegation) > 0 ==>
      |Recent(s.history, s.running[j].delegation, s.running[j].phase.begin)| < l.cap(s.running[j].delegation)
  }

  ghost predicate WithinCap(l: Limits, s: State) {
    forall d, x :: l.cap(d) > 0 ==> |Span(s.history, d, x)| <= l.cap(d)
  }

  ghost predicate Invariant(l: Limits, s: State) {
    Bookkeeping(l, s) && LocksHold(s) && RoomLeft(l, s) && WithinCap(l, s)
  }

  /**
   Two clock readings at which a delegation can mint, the second late enough for the
   first's token to be dead for the grace by the latest count of the second, and early
   enough for both to be issued within an hour.
   */
  predicate CanHide(l: Limits, d: string, first: Instant, second: Instant) {
    && Mintable(l, d, first) && Mintable(l, d, second)
    && first <= second <= first + HOUR - 1 + l.lag
    && Expiry(l, d, first) + l.grace + 1 <= P.Min(second, first + HOUR - 1) + l.lag + l.wait
  }

  ghost predicate Overtaken(l: Limits, d: string) {
    exists first, second :: CanHide(l, d, first, second)
  }

  ghost predicate Safe(l: Limits) {
    forall d :: l.cap(d) > 0 ==> !Overtaken(l, d)
  }

  /** A dead row that an exchange's count should still see. */
  lemma DeadButRecent(l: Limits, row: Row, clock: Instant, x: Exchange, now: Instant)
    requires RowFits(l, row, clock) && ExchangeFits(l, x) && !x.phase.Minted? && x.delegation == row.delegation
    requires row.expiresAt < now - l.grace && now <= x.phase.begin + l.wait
    requires row.issuedAt > x.phase.begin - HOUR
    ensures Overtaken(l, row.delegation)
  {
    if x.clock < clock {
      assert Expiry(l, x.delegation, x.clock) <= Expiry(l, x.delegation, clock);
      assert CanHide(l, x.delegation, x.clock, x.clock);
    } else {
      assert CanHide(l, x.delegation, clock, x.clock);
    }
  }

  /** At the count, no row the query should see has been pruned. */
  lemma NothingRecentIsPruned(l: Limits, s: State, jti: Jti)
    requires Bookkeeping(l, s) && Enabled(l, s, Count(jti)) && !Overtaken(l, s.running[jti].delegation)
    ensures var x := s.running[jti];
            Recent(s.rows, x.delegation, x.phase.begin) == Recent(s.history, x.delegation, x.phase.begin)
  {
    var x := s.running[jti];
    forall j | j in s.history && j !in s.rows && s.history[j].delegation == x.delegation
      ensures s.history[j].issuedAt <= x.phase.begin - HOUR
    {
      if s.history[j].issuedAt > x.phase.begin - HOUR {
        DeadButRecent(l, s.history[j], s.clocks[j], x, s.now);
      }
    }
  }

  lemma SpanGrows(history: Table, jti: Jti, row: Row, d: string, x: Instant)
    requires jti !in history
    ensures Span(history[jti := row], d, x)
            == Span(history, d, x) + if row.delegation == d && x < row.issuedAt <= x + HOUR then {jti} else {}
  {
  }

  /** A row that lands in an hour was counted, with all others of that hour, when it was admitted. */
  lemma CommitKeepsCap(l: Limits, s: State, jti: Jti, d: string, x: Instant)
    requires Invariant(l, s) && Enabled(l, s, Commit(jti)) && l.cap(d) > 0
    ensures |Span(Next(l, s, Commit(jti)).history, d, x)| <= l.cap(d)
  {
    var exchange := s.running[jti];
    var row := Row(exchange.delegation, exchange.phase.begin, exchange.expiresAt);
    SpanGrows(s.history, jti, row, d, x);
    if row.delegation == d && x < row.issuedAt <= x + HOUR {
      SubsetSize(Span(s.history, d, x), Recent(s.history, d, row.issuedAt));
    }
  }

  lemma StepKeepsRows(l: Limits, s: State, e: Event)
    requires Bookkeeping(l, s) && Enabled(l, s, e)
    ensures RowsKept(l, Next(l, s, e))
  {
  }

  lemma StepKeepsExchanges(l: Limits, s: State, e: Event)
    requires Bookkeeping(l, s) && Enabled(l, s, e)
    ensures ExchangesKept(l, Next(l, s, e))
  {
  }

  lemma StepKeepsBookkeeping(l: Limits, s: State, e: Event)
    requires Bookkeeping(l, s) && Enabled(l, s, e)
    ensures Bookkeeping(l, Next(l, s, e))
  {
    StepKeepsRows(l, s, e);
    StepKeepsExchanges(l, s, e);
  }

  lemma StepKeepsLocks(l: Limits, s: State, e: Event)
    requires LocksHold(s) && Enabled(l, s, e)
    ensures LocksHold(Next(l, s, e))
  {
  }

  /** A commit adds a row only to a delegation whose lock it holds, so no other admitted exchange loses room. */
  lemma StepKeepsRoom(l: Limits, s: State, e: Event)
    requires Safe(l) && Bookkeeping(l, s) && LocksHold(s) && RoomLeft(l, s) && Enabled(l, s, e)
    ensures RoomLeft(l, Next(l, s, e))
  {
    var t := Next(l, s, e);
    if e.Count? && l.cap(s.running[e.jti].delegation) > 0 {
      NothingRecentIsPruned(l, s, e.jti);
    } else if e.Commit? {
      forall j | j in t.running && t.running[j].phase.Admitted? && l.cap(t.running[j].delegation) > 0
        ensures Recent(t.history, t.running[j].delegation, t.running[j].phase.begin)
             == Recent(s.history, t.running[j].delegation, t.running[j].phase.begin)
      {
      }
    }
  }

  lemma StepKeepsInvariant(l: Limits, s: State, e: Event)
    requires Safe(l) && Invariant(l, s) && Enabled(l, s, e)
    ensures Invariant(l, Next(l, s, e))
  {
    StepKeepsBookkeeping(l, s, e);
    StepKeepsLocks(l, s, e);
    StepKeepsRoom(l, s, e);
    var t := Next(l, s, e);
    forall d, x | l.cap(d) > 0 ensures |Span(t.history, d, x)| <= l.cap(d) {
      if e.Commit? {
        CommitKeepsCap(l, s, e.jti, d, x);
      }
    }
  }

  /**
   In every run, however commits interleave, each hour of issue times holds at most
   the capped number of tokens, including those since pruned.
   */
  lemma {:induction false} CapHolds(l: Limits, events: seq<Event>)
    requires Safe(l) && Run(l, events).Some?
    ensures Invariant(l, Run(l, events).value)
  {
    if events == [] {
      forall d, x ensures Span(INITIAL.history, d, x) == {} {
      }
    } else {
      var n := |events| - 1;
      CapHolds(l, events[..n]);
      StepKeepsInvariant(l, Run(l, events[..n]).value, events[n]);
    }
  }

  // ---- the grace is exact --------------------------------------------------

  lemma Extend(l: Limits, events: seq<Event>, s: State, e: Event)
    requires Run(l, events) == Some(s) && Enabled(l, s, e)
    ensures Run(l, events + [e]) == Some(Next(l, s, e))
  {
    assert (events + [e])[..|events|] == events;
  }

  lemma Play(l: Limits, events: seq<Event>, s: State, e: Event) returns (events': seq<Event>, s': State)
    requires Run(l, events) == Some(s) && Enabled(l, s, e)
    ensures s' == Next(l, s, e) && Run(l, events') == Some(s')
  {
    Extend(l, events, s, e);
    events', s' := events + [e], Next(l, s, e);
  }

  /** Every recorded token of the run so far is of this one row. */
  predicate Uniform(s: State, row: Row, count: nat) {
    && s.rows == s.history && |s.rows| == count && forall j <- s.rows :: s.rows[j] == row
  }

  /** The exchanges still at their clock reading, besides those named apart. */
  predicate Waiting(s: State, x: Exchange, apart: set<Jti>, count: nat) {
    && s.locks == map[] && apart <= s.running.Keys && |s.running| == |apart| + count
    && (forall j <- s.running :: j !in apart ==> s.running[j] == x && j !in s.history)
    && (forall j <- apart :: j !in s.history)
    && s.running.Keys <= s.clocks.Keys
  }

  predicate ShortNames(s: State, longest: nat) {
    forall j <- s.clocks :: |j| <= longest
  }

  function Name(n: nat): Jti {
    seq(n, _ => 'j')
  }

  /** Many exchanges read the clock at one instant. */
  lemma {:induction false} MintMany(l: Limits, d: string, clock: Instant, n: nat) returns (events: seq<Event>, s: State)
    requires Mintable(l, d, clock)
    ensures Run(l, events) == Some(s) && s.now == clock && s.history == map[] && Uniform(s, Row(d, 0, 0), 0)
    ensures Waiting(s, Exchange(d, clock, Expiry(l, d, clock), Minted), {}, n) && ShortNames(s, n)
  {
    if n == 0 {
      events, s := Play(l, [], INITIAL, Advance(clock));
    } else {
      events, s := MintMany(l, d, clock, n - 1);
      assert Name(n) !in s.clocks;
      var before := s.running;
      events, s := Play(l, events, s, Mint(Name(n), d));
      assert s.running.Keys == before.Keys + {Name(n)};
    }
  }

  function Recorded(s: State, jti: Jti, row: Row): State {
    s.(rows := s.rows[jti := row], history := s.history[jti := row], running := s.running - {jti})
  }

  /** An exchange whose clock reading was at most the lag ago begins, takes the lock, is counted and commits. */
  lemma Complete(l: Limits, events: seq<Event>, s: State, jti: Jti)
    returns (events': seq<Event>, s': State)
    requires Run(l, events) == Some(s) && jti in s.running && s.locks == map[]
    requires s.running[jti].phase.Minted? && s.now <= s.running[jti].clock + l.lag
    requires var d := s.running[jti].delegation; |Recent(s.rows, d, s.now)| < l.cap(d)
    ensures Run(l, events') == Some(s')
    ensures s' == Recorded(s, jti, Row(s.running[jti].delegation, s.now, s.running[jti].expiresAt))
  {
    var x := s.running[jti];
    var d := x.delegation;
    var s1 := s.(running := s.running[jti := x.(phase := Begun(s.now))]);
    var s2 := s1.(running := s.running[jti := x.(phase := Locked(s.now))], locks := map[d := jti]);
    var s3 := s2.(running := s.running[jti := x.(phase := Admitted(s.now))]);
    events', s' := Play(l, events, s, Begin(jti));
    assert s' == s1;
    events', s' := Play(l, events', s1, Lock(jti));
    assert s' == s2 by {
      assert s1.running[jti := x.(phase := Locked(s.now))] == s2.running;
    }
    events', s' := Play(l, events', s2, Count(jti));
    assert s' == s3 by {
      assert s2.running[jti := x.(phase := Admitted(s.now))] == s3.running;
    }
    events', s' := Play(l, events', s3, Commit(jti));
    assert s'.running == s.running - {jti} && s'.locks == map[];
  }

  /** Those that wait complete one by one, in one instant, while their number is within the cap. */
  lemma {:induction false} CompleteMany(
      l: Limits, events: seq<Event>, s: State, x: Exchange, apart: set<Jti>, waiting: nat, done: nat)
    returns (events': seq<Event>, s': State)
    requires Run(l, events) == Some(s) && Waiting(s, x, apart, waiting)
    requires x.phase.Minted? && s.now <= x.clock + l.lag
    requires Uniform(s, Row(x.delegation, s.now, x.expiresAt), done) && done + waiting <= l.cap(x.delegation)
    ensures Run(l, events') == Some(s') && s'.now == s.now && s'.clocks == s.clocks
    ensures s.history.Keys <= s.clocks.Keys ==> s'.history.Keys <= s'.clocks.Keys
    ensures Waiting(s', x, apart, 0) && Uniform(s', Row(x.delegation, s.now, x.expiresAt), done + waiting)
    ensures forall j <- apart :: s'.running[j] == s.running[j]
    decreases waiting
  {
    if waiting == 0 {
      events', s' := events, s;
    } else {
      var j := Another(s.running.Keys, apart);
      SubsetSize(Recent(s.rows, x.delegation, s.now), s.rows.Keys);
      events', s' := Complete(l, events, s, j);
      assert s'.running.Keys == s.running.Keys - {j};
      events', s' := CompleteMany(l, events', s', x, apart, waiting - 1, done + 1);
    }
  }

  lemma Another<T>(all: set<T>, apart: set<T>) returns (j: T)
    requires apart <= all && |all| > |apart|
    ensures j in all && j !in apart
  {
    var rest := all - apart;
    assert all == apart + rest;
    j :| j in rest;
  }

  /** The cap's worth of tokens issued at once; one more exchange, alone, has read its clock. */
  predicate HourFull(s: State, d: string, row: Row, n: nat, name: Jti, last: Exchange) {
    && Uniform(s, row, n) && name !in s.history
    && s.running == map[name := last] && s.locks == map[]
  }

  /** Many exchanges read the clock at one instant, and one more at another. */
  lemma ReadClocks(l: Limits, d: string, first: Instant, second: Instant, n: nat)
    returns (events: seq<Event>, s: State)
    requires Mintable(l, d, first) && Mintable(l, d, second) && first <= second
    ensures Run(l, events) == Some(s) && s.now == second && s.history == map[] && s.rows == map[]
    ensures Waiting(s, Exchange(d, first, Expiry(l, d, first), Minted), {Name(n + 1)}, n)
    ensures s.running[Name(n + 1)] == Exchange(d, second, Expiry(l, d, second), Minted)
  {
    var name := Name(n + 1);
    var x := Exchange(d, first, Expiry(l, d, first), Minted);
    events, s := MintMany(l, d, first, n);
    assert name !in s.clocks;
    var read := s.(now := second);
    events, s := Play(l, events, s, Advance(second - first));
    assert s == read;
    events, s := Play(l, events, read, Mint(name, d));
    SetApart(read, s, x, n, name);
  }

  lemma SetApart(s: State, t: State, x: Exchange, n: nat, name: Jti)
    requires Waiting(s, x, {}, n) && name !in s.clocks && s.history == map[]
    requires t.running.Keys == s.running.Keys + {name} && t.clocks.Keys == s.clocks.Keys + {name}
    requires forall j <- s.running :: t.running[j] == s.running[j]
    requires t.history == map[] && t.locks == map[]
    ensures Waiting(t, x, {name}, n)
  {
  }

  /** The last exchange reads its clock before the others complete. */
  lemma FillAround(l: Limits, d: string, first: Instant, second: Instant, n: nat)
    returns (events: seq<Event>, s: State)
    requires Mintable(l, d, first) && Mintable(l, d, second) && first <= second <= first + l.lag && n <= l.cap(d)
    ensures Run(l, events) == Some(s) && s.now == first + l.lag
    ensures HourFull(
              s, d, Row(d, first + l.lag, Expiry(l, d, first)), n, Name(n + 1),
              Exchange(d, second, Expiry(l, d, second), Minted))
  {
    var name := Name(n + 1);
    events, s := ReadClocks(l, d, first, second, n);
    var read := s;
    events, s := Play(l, events, s, Advance(first + l.lag - second));
    assert s == read.(now := first + l.lag);
    events, s := CompleteMany(l, events, s, Exchange(d, first, Expiry(l, d, first), Minted), {name}, n, 0);
    OnlyOne(s.running.Keys, name);
  }

  lemma FillAlone(l: Limits, d: string, first: Instant, n: nat) returns (events: seq<Event>, s: State)
    requires Mintable(l, d, first) && n <= l.cap(d)
    ensures Run(l, events) == Some(s) && s.now == first + l.lag && s.running == map[] && s.locks == map[]
    ensures Uniform(s, Row(d, first + l.lag, Expiry(l, d, first)), n) && ShortNames(s, n)
    ensures s.history.Keys <= s.clocks.Keys
  {
    events, s := MintMany(l, d, first, n);
    var read := s;
    events, s := Play(l, events, s, Advance(l.lag));
    assert s == read.(now := first + l.lag);
    events, s := CompleteMany(l, events, s, Exchange(d, first, Expiry(l, d, first), Minted), {}, n, 0);
    assert |s.running.Keys| == 0;
  }

  /** Or after. */
  lemma FillBefore(l: Limits, d: string, first: Instant, second: Instant, n: nat)
    returns (events: seq<Event>, s: State)
    requires Mintable(l, d, first) && Mintable(l, d, second) && first + l.lag < second && n <= l.cap(d)
    ensures Run(l, events) == Some(s) && s.now == second
    ensures HourFull(
              s, d, Row(d, first + l.lag, Expiry(l, d, first)), n, Name(n + 1),
              Exchange(d, second, Expiry(l, d, second), Minted))
  {
    events, s := FillAlone(l, d, first, n);
    assert Name(n + 1) !in s.clocks;
    events, s := Play(l, events, s, Advance(second - first - l.lag));
    events, s := Play(l, events, s, Mint(Name(n + 1), d));
  }

  lemma OnlyOne<T>(s: set<T>, x: T)
    requires x in s && |s| == 1
    ensures s == {x}
  {
    assert |s - {x}| == 0;
  }

  /** It begins, takes the lock and waits its longest. */
  lemma WaitLongest(l: Limits, events: seq<Event>, s: State, name: Jti, last: Exchange, begin: Instant)
    returns (events': seq<Event>, s': State)
    requires Run(l, events) == Some(s) && s.running == map[name := last] && s.locks == map[]
    requires last.phase.Minted? && begin <= last.clock + l.lag && s.now <= begin
    ensures Run(l, events') == Some(s')
    ensures s' == s.(now := begin + l.wait, running := map[name := last.(phase := Locked(begin))],
                     locks := map[last.delegation := name])
  {
    var s1 := s.(now := begin);
    var s2 := s1.(running := map[name := last.(phase := Begun(begin))]);
    var s3 := s1.(running := map[name := last.(phase := Locked(begin))], locks := map[last.delegation := name]);
    events', s' := Play(l, events, s, Advance(begin - s.now));
    assert s' == s1;
    events', s' := Play(l, events', s1, Begin(name));
    assert s' == s2;
    events', s' := Play(l, events', s2, Lock(name));
    assert s' == s3;
    events', s' := Play(l, events', s3, Advance(l.wait));
  }

  /** Retention takes all the others, and it is counted alone. */
  lemma PruneThenCommit(l: Limits, events: seq<Event>, s: State, name: Jti, last: Exchange, begin: Instant)
    returns (events': seq<Event>, s': State)
    requires Run(l, events) == Some(s) && s.running == map[name := last] && last.phase == Locked(begin)
    requires s.now == begin + l.wait && 0 < l.cap(last.delegation) && Purge(s.rows, s.now - l.grace) == map[]
    ensures Run(l, events') == Some(s')
    ensures s'.history == s.history[name := Row(last.delegation, begin, last.expiresAt)]
  {
    var s1 := s.(rows := map[]);
    var s2 := s1.(running := map[name := last.(phase := Admitted(begin))]);
    events', s' := Play(l, events, s, Prune);
    assert s' == s1;
    assert Recent(s1.rows, last.delegation, begin) == {};
    events', s' := Play(l, events', s1, Count(name));
    assert s' == s2;
    events', s' := Play(l, events', s2, Commit(name));
  }

  lemma HideAndCommit(
      l: Limits, events: seq<Event>, s: State, d: string, row: Row, n: nat, name: Jti, last: Exchange, begin: Instant)
    returns (events': seq<Event>, s': State)
    requires Run(l, events) == Some(s) && HourFull(s, d, row, n, name, last) && last.delegation == d
    requires last.phase.Minted? && last.clock <= begin <= last.clock + l.lag && s.now <= begin
    requires 0 < l.cap(d) && row.expiresAt + l.grace + 1 <= begin + l.wait
    ensures Run(l, events') == Some(s') && s'.history == s.history[name := Row(d, begin, last.expiresAt)]
  {
    assert Purge(s.rows, begin + l.wait - l.grace) == map[];
    events', s' := WaitLongest(l, events, s, name, last, begin);
    events', s' := PruneThenCommit(l, events', s', name, last.(phase := Locked(begin)), begin);
  }

  /** All of those, and it, were issued within an hour. */
  lemma SpanOverflows(s: State, d: string, row: Row, n: nat, name: Jti, last: Row)
    requires Uniform(s, row, n) && name !in s.history && row.delegation == last.delegation == d
    requires row.issuedAt <= last.issuedAt < row.issuedAt + HOUR
    ensures |Span(s.history[name := last], d, row.issuedAt - 1)| == n + 1
  {
    assert Span(s.history[name := last], d, row.issuedAt - 1) == s.history.Keys + {name};
  }

  lemma ExceedsCap(l: Limits, s: State, d: string, x: Instant)
    requires |Span(s.history, d, x)| > l.cap(d) > 0
    ensures !WithinCap(l, s)
  {
  }

  /** Wherever tokens can be hidden, some run records one token more than the cap within an hour. */
  lemma OvertakenExceedsCap(l: Limits, d: string, first: Instant, second: Instant)
    returns (events: seq<Event>, s: State)
    requires l.cap(d) > 0 && CanHide(l, d, first, second)
    ensures Run(l, events) == Some(s) && !WithinCap(l, s)
  {
    var n := l.cap(d);
    var row := Row(d, first + l.lag, Expiry(l, d, first));
    var last := Exchange(d, second, Expiry(l, d, second), Minted);
    var begin := P.Min(second, first + HOUR - 1) + l.lag;
    if second <= first + l.lag {
      events, s := FillAround(l, d, first, second, n);
    } else {
      events, s := FillBefore(l, d, first, second, n);
    }
    var full := s;
    events, s := HideAndCommit(l, events, s, d, row, n, Name(n + 1), last, begin);
    SpanOverflows(full, d, row, n, Name(n + 1), Row(d, begin, last.expiresAt));
    ExceedsCap(l, s, d, row.issuedAt - 1);
  }

  /** The caps of a deployment hold in every run exactly if no capped delegation can be overtaken. */
  lemma CapHoldsIff(l: Limits)
    ensures (forall events :: Run(l, events).Some? ==> WithinCap(l, Run(l, events).value)) <==> Safe(l)
  {
    if Safe(l) {
      forall events | Run(l, events).Some? ensures WithinCap(l, Run(l, events).value) {
        CapHolds(l, events);
      }
    } else {
      var d :| l.cap(d) > 0 && Overtaken(l, d);
      var first, second :| CanHide(l, d, first, second);
      var events, s := OvertakenExceedsCap(l, d, first, second);
    }
  }

  /**
   The grace a delegation needs. Tokens read at one clock live the lifespan, or to the
   delegation's own end if that is sooner; the count of an hour later must still find
   them, and so must the last count that the delegation's end allows.
   */
  predicate GraceCovers(l: Limits, d: string) {
    match l.ends(d)
    case None => l.grace + P.Min(l.ttl, YEAR) + 1 >= HOUR + l.lag + l.wait
    case Some(e) =>
      var last := C.NumericDate(e);
      last > 0 ==>
        && l.grace + P.Min(l.ttl, e) + 1 >= P.Min(last, HOUR) + l.lag + l.wait
        && l.grace + (e - last) + 1 >= l.lag + l.wait
  }

  /** For a lifespan of a second or more, that is all. */
  lemma GraceIsExact(l: Limits, d: string)
    requires l.ttl >= C.SECOND
    ensures GraceCovers(l, d) <==> !Overtaken(l, d)
  {
    match l.ends(d)
    case None =>
      if !GraceCovers(l, d) {
        assert CanHide(l, d, 0, HOUR - 1);
      }
    case Some(e) =>
      var last := C.NumericDate(e);
      if last > 0 && !GraceCovers(l, d) {
        if l.grace + (e - last) + 1 < l.lag + l.wait {
          assert CanHide(l, d, last - 1, last - 1);
        } else {
          assert CanHide(l, d, 0, P.Min(last, HOUR) - 1);
        }
      }
  }

  /** Without a positive lifespan nothing is ever minted. */
  lemma NoLifespanNoTokens(l: Limits, d: string)
    requires l.ttl <= 0
    ensures !Overtaken(l, d)
  {
  }
}
