/**
 Signing-key rotation over a shared table. Many processes hold caches of the table;
 they rotate, prune, reload and bootstrap in any interleaving. A transaction reads
 its start time when it begins and takes effect when it commits, so reloads by other
 processes can fall in between.
 */
module Keystore {
  import opened Wrappers

  type Instant = int
  /** Key ids, used only through equality and their order. */
  type Kid = int

  datatype KeyRow = KeyRow(createdAt: Instant, active: bool, expiresAt: Option<Instant>)
  type Table = map<Kid, KeyRow>

  predicate Before(keys: Table, j: Kid, k: Kid) {
    && j in keys && k in keys
    && (keys[j].createdAt < keys[k].createdAt || (keys[j].createdAt == keys[k].createdAt && j < k))
  }

  function ActiveKeys(keys: Table): set<Kid> {
    set k | k in keys && keys[k].active
  }

  /** The first row of the reload query, ordered by creation time and id, newest first. */
  predicate IsNewest(keys: Table, newest: Option<Kid>) {
    match newest
    case None => ActiveKeys(keys) == {}
    case Some(n) => n in ActiveKeys(keys) && forall k <- ActiveKeys(keys) :: k == n || Before(keys, k, n)
  }

  function Insert(keys: Table, kid: Kid, createdAt: Instant): (r: Table)
    ensures r.Keys == keys.Keys + {kid}
  {
    keys[kid := KeyRow(createdAt, true, None)]
  }

  /** Schedules a key's retirement, unless it already has one. */
  function Retire(keys: Table, kid: Kid, at: Instant): Table {
    if kid in keys && keys[kid].expiresAt.None? then keys[kid := keys[kid].(expiresAt := Some(at))] else keys
  }

  function RotateRows(keys: Table, kid: Kid, begin: Instant, prev: Option<Kid>, overlap: int): (r: Table)
    ensures r.Keys == keys.Keys + {kid}
  {
    var inserted := Insert(keys, kid, begin);
    if prev.Some? && overlap > 0 then Retire(inserted, prev.value, begin + overlap) else inserted
  }

  predicate Due(row: KeyRow, now: Instant) {
    row.active && row.expiresAt.Some? && row.expiresAt.value < now
  }

  function PruneRows(keys: Table, now: Instant, keep: Option<Kid>): (r: Table)
    ensures r.Keys == keys.Keys
  {
    map k | k in keys :: if Due(keys[k], now) && keep != Some(k) then keys[k].(active := false) else keys[k]
  }

  function DueKeys(keys: Table, now: Instant, keep: Option<Kid>): set<Kid> {
    set k | k in keys && Due(keys[k], now) && keep != Some(k)
  }

  lemma PruneSplitsActive(keys: Table, now: Instant, keep: Option<Kid>)
    ensures |ActiveKeys(keys)| == |ActiveKeys(PruneRows(keys, now, keep))| + |DueKeys(keys, now, keep)|
  {
    var kept := PruneRows(keys, now, keep);
    forall k ensures k in ActiveKeys(keys) <==> k in ActiveKeys(kept) || k in DueKeys(keys, now, keep) {
      if k in keys {
        assert k in kept;
      }
    }
    assert ActiveKeys(keys) == ActiveKeys(kept) + DueKeys(keys, now, keep);
  }

  /** The signing_keys table. */
  class SigningKeys {
    var keys: Table

    constructor ()
      ensures keys == map[]
    {
      keys := map[];
    }

    method Rotate(kid: Kid, begin: Instant, prev: Option<Kid>, overlap: int)
      requires kid !in keys
      modifies this
      ensures keys == RotateRows(old(keys), kid, begin, prev, overlap)
      ensures keys.Keys == old(keys).Keys + {kid}
      ensures prev != Some(kid) ==> keys[kid] == KeyRow(begin, true, None)
      ensures forall k <- old(keys) :: keys[k] ==
                if prev == Some(k) && overlap > 0 && old(keys)[k].expiresAt.None?
                then old(keys)[k].(expiresAt := Some(begin + overlap)) else old(keys)[k]
    {
      keys := Insert(keys, kid, begin);
      if prev.Some? && overlap > 0 {
        if prev.value in keys && keys[prev.value].expiresAt.None? {
          keys := keys[prev.value := keys[prev.value].(expiresAt := Some(begin + overlap))];
        }
      }
    }

    method Prune(now: Instant, keep: Option<Kid>) returns (pruned: nat)
      modifies this
      ensures keys == PruneRows(old(keys), now, keep)
      ensures keys.Keys == old(keys).Keys
      ensures forall k <- keys :: keys[k] ==
                if keep != Some(k) && old(keys)[k].expiresAt.Some? && old(keys)[k].expiresAt.value < now
                then old(keys)[k].(active := false) else old(keys)[k]
      ensures pruned == |ActiveKeys(old(keys))| - |ActiveKeys(keys)|
    {
      var due := DueKeys(keys, now, keep);
      PruneSplitsActive(keys, now, keep);
      keys := keys + map k | k in due :: keys[k].(active := false);
      pruned := |due|;
      assert keys == PruneRows(old(keys), now, keep);
    }
  }

  datatype Cache = Cache(byKid: set<Kid>, active: Option<Kid>, reloadedAt: Instant)

  /** One process's in-memory caches. */
  class Keystore {
    var byKid: set<Kid>
    var active: Option<Kid>

    constructor ()
      ensures byKid == {} && active.None?
    {
      byKid, active := {}, None;
    }

    /** `rows` are the active keys, newest first; the first becomes the signing key. */
    method Reload(rows: seq<Kid>, ghost keys: Table)
      requires forall k :: k in rows <==> k in ActiveKeys(keys)
      requires forall i, j | 0 <= i < j < |rows| :: Before(keys, rows[j], rows[i])
      modifies this
      ensures byKid == ActiveKeys(keys) && IsNewest(keys, active)
    {
      var loaded: set<Kid> := {};
      var newest: Option<Kid> := None;
      for i := 0 to |rows|
        invariant loaded == set k | k in rows[..i]
        invariant newest == if i == 0 then None else Some(rows[0])
      {
        loaded := loaded + {rows[i]};
        if newest.None? {
          newest := Some(rows[i]);
        }
      }
      assert rows[..|rows|] == rows;
      assert loaded == ActiveKeys(keys);
      byKid, active := loaded, newest;
    }
  }

  // ---- the protocol --------------------------------------------------------

  /** Each process's overlap, and the longest time from a transaction's start to its commit. */
  datatype Config = Config(overlap: string -> int, longest: nat)

  datatype Transaction =
    | Rotating(process: string, begin: Instant, prev: Option<Kid>)
    | Booting(process: string, begin: Instant, foundNone: Option<bool>)

  datatype Token = Token(kid: Kid, signedAt: Instant, expiresAt: Instant, reloadedAt: Instant)

  datatype State = State(
    now: Instant, keys: Table, caches: map<string, Cache>, open: map<int, Transaction>,
    lock: Option<int>, bootstrapped: nat, tokens: set<Token>)

  const INITIAL := State(0, map[], map[], map[], None, 0, {})

  datatype Event =
    | Advance(dt: nat)
    | Reload(process: string, newest: Option<Kid>)
    | BeginRotate(tx: int, process: string)
    | CommitRotate(tx: int, kid: Kid)
    | BeginBootstrap(tx: int, process: string)
    | LockBootstrap(tx: int)
    | CommitBootstrap(tx: int, kid: Kid)
    | Abort(tx: int)
    | Prune(process: string)
    | Sign(process: string, life: nat)

  /** The clock has moved past every committed key's creation when a rotation begins. */
  predicate Enabled(c: Config, s: State, e: Event) {
    match e
    case Advance(_) => true
    case Reload(_, newest) => IsNewest(s.keys, newest)
    case BeginRotate(tx, p) =>
      tx !in s.open && p in s.caches && forall k <- s.keys :: s.keys[k].createdAt < s.now
    case CommitRotate(tx, kid) =>
      tx in s.open && s.open[tx].Rotating? && kid !in s.keys && s.now <= s.open[tx].begin + c.longest
    case BeginBootstrap(tx, p) => tx !in s.open && p in s.caches && s.caches[p].active.None?
    case LockBootstrap(tx) => tx in s.open && s.open[tx].Booting? && s.lock.None?
    case CommitBootstrap(tx, kid) =>
      tx in s.open && s.open[tx].Booting? && s.lock == Some(tx) && s.open[tx].foundNone.Some? && kid !in s.keys
    case Abort(tx) => tx in s.open
    case Prune(p) => p in s.caches
    case Sign(p, _) => p in s.caches && s.caches[p].active.Some?
  }

  function Close(s: State, tx: int): State {
    s.(open := s.open - {tx}, lock := if s.lock == Some(tx) then None else s.lock)
  }

  function Next(c: Config, s: State, e: Event): State
    requires Enabled(c, s, e)
  {
    match e
    case Advance(dt) => s.(now := s.now + dt)
    case Reload(p, newest) => s.(caches := s.caches[p := Cache(ActiveKeys(s.keys), newest, s.now)])
    case BeginRotate(tx, p) => s.(open := s.open[tx := Rotating(p, s.now, s.caches[p].active)])
    case CommitRotate(tx, kid) =>
      var r := s.open[tx];
      Close(s, tx).(keys := RotateRows(s.keys, kid, r.begin, r.prev, c.overlap(r.process)))
    case BeginBootstrap(tx, p) => s.(open := s.open[tx := Booting(p, s.now, None)])
    case LockBootstrap(tx) =>
      s.(open := s.open[tx := s.open[tx].(foundNone := Some(ActiveKeys(s.keys) == {}))], lock := Some(tx))
    case CommitBootstrap(tx, kid) =>
      if s.open[tx].foundNone.value then
        Close(s, tx).(keys := Insert(s.keys, kid, s.open[tx].begin), bootstrapped := s.bootstrapped + 1)
      else Close(s, tx)
    case Abort(tx) => Close(s, tx)
    case Prune(p) => s.(keys := PruneRows(s.keys, s.now, s.caches[p].active))
    case Sign(p, life) =>
      s.(tokens := s.tokens + {Token(s.caches[p].active.value, s.now, s.now + life, s.caches[p].reloadedAt)})
  }

  function Run(c: Config, events: seq<Event>): Option<State> {
    if events == [] then Some(INITIAL)
    else
      var n := |events| - 1;
      var s := Run(c, events[..n]);
      if s.Some? && Enabled(c, s.value, events[n]) then Some(Next(c, s.value, events[n])) else None
  }

  /** Every scheduled overlap is at least this long. */
  ghost predicate OverlapAtLeast(c: Config, least: int) {
    forall p :: c.overlap(p) > 0 ==> least <= c.overlap(p)
  }

  // ---- invariants ----------------------------------------------------------

  predicate HasNewer(keys: Table, k: Kid)
    requires k in keys
  {
    exists j <- keys :: Before(keys, k, j)
  }

  predicate KeysSound(keys: Table, now: Instant) {
    && (forall k <- keys :: keys[k].expiresAt.Some? ==> HasNewer(keys, k))
    && (forall k <- keys :: !keys[k].active ==> keys[k].expiresAt.Some? && keys[k].expiresAt.value < now)
  }

  /** A key seen as newest at `since` is not retired before then plus the span. */
  predicate LastsFrom(keys: Table, k: Kid, since: Instant, span: int) {
    k in keys && (keys[k].expiresAt.Some? ==> since + span <= keys[k].expiresAt.value)
  }

  predicate CachesSound(s: State, span: int) {
    && (forall p <- s.caches :: s.caches[p].reloadedAt <= s.now)
    && (forall p <- s.caches :: s.caches[p].active.Some? ==>
          LastsFrom(s.keys, s.caches[p].active.value, s.caches[p].reloadedAt, span))
    && (forall t <- s.tokens :: t.reloadedAt <= t.signedAt <= s.now && LastsFrom(s.keys, t.kid, t.reloadedAt, span))
  }

  predicate TransactionsSound(s: State) {
    && (forall tx <- s.open :: s.open[tx].begin <= s.now)
    && (forall tx <- s.open :: s.open[tx].Rotating? && s.open[tx].prev.Some? ==>
          s.open[tx].prev.value in s.keys && s.keys[s.open[tx].prev.value].createdAt < s.open[tx].begin)
  }

  predicate BootstrapSound(s: State) {
    && s.bootstrapped <= 1
    && (s.bootstrapped == 1 ==> s.keys.Keys != {})
    && (s.lock.Some? ==> s.lock.value in s.open)
    && (forall tx <- s.open :: s.open[tx].Booting? && s.open[tx].foundNone == Some(true) && s.lock == Some(tx) ==>
          s.bootstrapped == 0)
    && (forall tx <- s.open :: s.open[tx].Booting? && s.open[tx].foundNone == Some(false) ==> s.keys.Keys != {})
  }

  /** A process's own cache holds its signing key, and so does every cache loaded since, for the span. */
  predicate SignersKnown(s: State, span: int) {
    && (forall p <- s.caches :: s.caches[p].active.Some? ==> s.caches[p].active.value in s.caches[p].byKid)
    && (forall q <- s.caches, p <- s.caches ::
          s.caches[q].active.Some?
          && s.caches[q].reloadedAt < s.caches[p].reloadedAt <= s.caches[q].reloadedAt + span ==>
            s.caches[q].active.value in s.caches[p].byKid)
  }

  /** A token that fits the span verifies wherever the table was reloaded since its signer's reload. */
  predicate TokensVerify(s: State, span: int) {
    forall t <- s.tokens, p <- s.caches ::
      t.expiresAt <= t.reloadedAt + span && t.reloadedAt < s.caches[p].reloadedAt && s.now <= t.expiresAt ==>
        t.kid in s.caches[p].byKid
  }

  predicate Invariant(s: State, span: int) {
    && KeysSound(s.keys, s.now) && CachesSound(s, span) && TransactionsSound(s) && BootstrapSound(s)
    && SignersKnown(s, span) && TokensVerify(s, span)
  }

  lemma {:induction false} NewestExists(keys: Table, ids: set<Kid>, some: Kid) returns (m: Kid)
    requires some in ids && forall k <- ids :: k in keys
    ensures m in ids && forall k <- ids :: k == m || Before(keys, k, m)
  {
    m := some;
    if other :| other in ids - {some} {
      var rest := NewestExists(keys, ids - {some}, other);
      if Before(keys, some, rest) {
        m := rest;
      }
      assert forall k <- ids :: k == some || k in ids - {some};
    } else {
      assert forall k <- ids :: k == some || k in ids - {some};
    }
  }

  /** The newest key is active and unretired, so the newest active key is the newest of all. */
  lemma NewestIsUnretired(keys: Table, now: Instant, newest: Option<Kid>)
    requires KeysSound(keys, now) && IsNewest(keys, newest)
    ensures newest.None? <==> keys.Keys == {}
    ensures newest.Some? ==> keys[newest.value].expiresAt.None?
    ensures newest.Some? ==> forall k <- keys :: k == newest.value || Before(keys, k, newest.value)
  {
    if some :| some in keys {
      var m := NewestExists(keys, keys.Keys, some);
      assert keys[m].active;
      assert m in ActiveKeys(keys);
    } else {
      assert forall k :: k !in keys.Keys;
      assert keys.Keys == {};
    }
  }

  lemma StepKeepsKeys(c: Config, s: State, e: Event)
    requires KeysSound(s.keys, s.now) && TransactionsSound(s) && Enabled(c, s, e)
    ensures KeysSound(Next(c, s, e).keys, Next(c, s, e).now)
  {
    var t := Next(c, s, e);
    forall k | k in t.keys && t.keys[k].expiresAt.Some? ensures HasNewer(t.keys, k) {
      if k in s.keys && s.keys[k].expiresAt.Some? {
        var j :| j in s.keys && Before(s.keys, k, j);
        assert Before(t.keys, k, j);
      } else {
        assert e.CommitRotate? && Before(t.keys, k, e.kid);
      }
    }
  }

  lemma StepKeepsCaches(c: Config, s: State, e: Event, least: int)
    requires OverlapAtLeast(c, least) && Enabled(c, s, e)
    requires KeysSound(s.keys, s.now) && TransactionsSound(s) && CachesSound(s, least - c.longest)
    ensures CachesSound(Next(c, s, e), least - c.longest)
  {
    if e.Reload? {
      NewestIsUnretired(s.keys, s.now, e.newest);
    }
  }

  lemma StepKeepsTransactions(c: Config, s: State, e: Event, span: int)
    requires CachesSound(s, span) && TransactionsSound(s) && Enabled(c, s, e)
    ensures TransactionsSound(Next(c, s, e))
  {
  }

  lemma StepKeepsBootstrap(c: Config, s: State, e: Event)
    requires KeysSound(s.keys, s.now) && BootstrapSound(s) && Enabled(c, s, e)
    ensures BootstrapSound(Next(c, s, e))
  {
    if e.LockBootstrap? && ActiveKeys(s.keys) == {} {
      NewestIsUnretired(s.keys, s.now, None);
    }
  }

  lemma StepKeepsSigners(c: Config, s: State, e: Event, span: int)
    requires KeysSound(s.keys, s.now) && CachesSound(s, span) && SignersKnown(s, span) && Enabled(c, s, e)
    ensures SignersKnown(Next(c, s, e), span)
  {
  }

  lemma StepKeepsTokens(c: Config, s: State, e: Event, span: int)
    requires KeysSound(s.keys, s.now) && CachesSound(s, span) && SignersKnown(s, span) && TokensVerify(s, span)
    requires Enabled(c, s, e)
    ensures TokensVerify(Next(c, s, e), span)
  {
  }

  lemma {:induction false} RunKeepsInvariant(c: Config, events: seq<Event>, least: int)
    requires OverlapAtLeast(c, least) && Run(c, events).Some?
    ensures Invariant(Run(c, events).value, least - c.longest)
  {
    if events != [] {
      var n := |events| - 1;
      var span := least - c.longest;
      RunKeepsInvariant(c, events[..n], least);
      var s := Run(c, events[..n]).value;
      StepKeepsKeys(c, s, events[n]);
      StepKeepsCaches(c, s, events[n], least);
      StepKeepsTransactions(c, s, events[n], span);
      StepKeepsBootstrap(c, s, events[n]);
      StepKeepsSigners(c, s, events[n], span);
      StepKeepsTokens(c, s, events[n], span);
    }
  }

  // ---- the results ---------------------------------------------------------

  /** However cold starts race, bootstrap creates at most one key, and a newest key, once there, is never retired. */
  lemma OneFirstKey(c: Config, events: seq<Event>, newest: Option<Kid>)
    requires Run(c, events).Some? && IsNewest(Run(c, events).value.keys, newest)
    ensures Run(c, events).value.bootstrapped <= 1
    ensures Run(c, events).value.keys.Keys != {} ==>
              newest.Some? && Run(c, events).value.keys[newest.value].expiresAt.None?
  {
    RunKeepsInvariant(c, events, 0);
    NewestIsUnretired(Run(c, events).value.keys, Run(c, events).value.now, newest);
  }

  /** Pruning never deactivates the key that its own process signs with. */
  lemma PruneSparesSigner(c: Config, s: State, p: string)
    requires Enabled(c, s, Prune(p)) && s.caches[p].active.Some? && s.caches[p].active.value in s.keys
    ensures var k := s.caches[p].active.value;
            k in Next(c, s, Prune(p)).keys && Next(c, s, Prune(p)).keys[k] == s.keys[k]
  {
  }

  /** A bootstrap that commits leaves the table with a key, whether it created one or found one. */
  lemma BootstrapLeavesAKey(c: Config, events: seq<Event>, tx: int, kid: Kid)
    requires Run(c, events).Some? && Enabled(c, Run(c, events).value, CommitBootstrap(tx, kid))
    ensures Next(c, Run(c, events).value, CommitBootstrap(tx, kid)).keys.Keys != {}
  {
    RunKeepsInvariant(c, events, 0);
    assert kid in Insert(Run(c, events).value.keys, kid, 0);
  }

  /** A process's signing key stays active for the least overlap, less the longest transaction, past its last reload. */
  lemma SigningKeyLasts(c: Config, events: seq<Event>, least: int, p: string)
    requires OverlapAtLeast(c, least) && Run(c, events).Some?
    ensures var s := Run(c, events).value;
            p in s.caches && s.caches[p].active.Some? && s.now <= s.caches[p].reloadedAt + least - c.longest ==>
              s.caches[p].active.value in ActiveKeys(s.keys)
  {
    RunKeepsInvariant(c, events, least);
  }

  /**
   A token whose life, plus the time since its signer's reload, plus the longest
   transaction, fits in the least overlap stays verifiable until it expires: its key
   is active, and is in the cache of every process that reloaded after its signer had.
   */
  lemma TokensStayVerifiable(c: Config, events: seq<Event>, least: int, t: Token)
    requires OverlapAtLeast(c, least) && Run(c, events).Some? && t in Run(c, events).value.tokens
    requires t.expiresAt - t.signedAt + (t.signedAt - t.reloadedAt) + c.longest <= least
    requires Run(c, events).value.now <= t.expiresAt
    ensures t.kid in ActiveKeys(Run(c, events).value.keys)
    ensures forall p <- Run(c, events).value.caches ::
              t.reloadedAt < Run(c, events).value.caches[p].reloadedAt ==> t.kid in Run(c, events).value.caches[p].byKid
  {
    RunKeepsInvariant(c, events, least);
  }

  /** And the signer's own cache verifies each token as it is signed, whatever the overlap and however old the cache. */
  lemma SignerVerifies(c: Config, events: seq<Event>, p: string, life: nat)
    requires Run(c, events).Some? && Enabled(c, Run(c, events).value, Sign(p, life))
    ensures var s := Next(c, Run(c, events).value, Sign(p, life));
            exists t <- s.tokens :: t.signedAt == s.now && t.expiresAt == s.now + life && t.kid in s.caches[p].byKid
  {
    RunKeepsInvariant(c, events, 0);
    var s := Run(c, events).value;
    var t := Token(s.caches[p].active.value, s.now, s.now + life, s.caches[p].reloadedAt);
    assert t in Next(c, s, Sign(p, life)).tokens;
  }

  // ---- the bound is exact --------------------------------------------------

  /** In every run, a signing key is active for the span after its process's last reload. */
  ghost predicate SigningKeysLast(c: Config, span: nat) {
    forall events, p | Run(c, events).Some? && p in Run(c, events).value.caches ::
      var s := Run(c, events).value;
      s.caches[p].active.Some? && s.now <= s.caches[p].reloadedAt + span ==>
        s.caches[p].active.value in ActiveKeys(s.keys)
  }

  lemma Play(c: Config, events: seq<Event>, s: State, e: Event) returns (events': seq<Event>, s': State)
    requires Run(c, events) == Some(s) && Enabled(c, s, e)
    ensures s' == Next(c, s, e) && Run(c, events') == Some(s')
  {
    events', s' := events + [e], Next(c, s, e);
    assert events'[..|events|] == events;
  }

  /** One bootstrapped key, cached by its process. */
  lemma FirstKey(c: Config, p: string) returns (events: seq<Event>, s: State)
    ensures Run(c, events) == Some(s) && s.now == 0 && s.open == map[]
    ensures s.keys == map[1 := KeyRow(0, true, None)] && s.caches == map[p := Cache({1}, Some(1), 0)]
  {
    events, s := Play(c, [], INITIAL, Reload(p, None));
    events, s := Play(c, events, s, BeginBootstrap(0, p));
    events, s := Play(c, events, s, LockBootstrap(0));
    events, s := Play(c, events, s, CommitBootstrap(0, 1));
    assert ActiveKeys(s.keys) == {1};
    events, s := Play(c, events, s, Reload(p, Some(1)));
  }

  /** Another process reloads at the very end of a rotation's transaction, as late as it may last. */
  lemma LateReload(c: Config, p: string, q: string) returns (events: seq<Event>, s: State)
    requires c.overlap(p) > 0 && p != q
    ensures Run(c, events) == Some(s) && s.now == 1 + c.longest && {p, q} == s.caches.Keys
    ensures s.caches[q].active == Some(1) && s.caches[q].reloadedAt == s.now
    ensures s.keys == map[1 := KeyRow(0, true, Some(1 + c.overlap(p))), 2 := KeyRow(1, true, None)]
  {
    events, s := FirstKey(c, p);
    events, s := Play(c, events, s, Advance(1));
    events, s := Play(c, events, s, BeginRotate(1, p));
    events, s := Play(c, events, s, Advance(c.longest));
    assert ActiveKeys(s.keys) == {1};
    events, s := Play(c, events, s, Reload(q, Some(1)));
    events, s := Play(c, events, s, CommitRotate(1, 2));
  }

  /** The first process, knowing the new key, prunes the old one as soon as it may. */
  lemma PrunedUnderSigner(c: Config, p: string, span: nat)
    requires c.overlap(p) > 0 && span > c.overlap(p) - c.longest
    ensures !SigningKeysLast(c, span)
  {
    var q := p + "q";
    assert |q| == |p| + 1;
    var events, s := LateReload(c, p, q);
    assert ActiveKeys(s.keys) == {1, 2};
    events, s := Play(c, events, s, Reload(p, Some(2)));
    var wait := if c.overlap(p) + 1 > c.longest then c.overlap(p) + 1 - c.longest else 0;
    events, s := Play(c, events, s, Advance(wait));
    events, s := Play(c, events, s, Prune(p));
    assert !s.keys[1].active;
    assert s.caches[q].active == Some(1) && s.now <= s.caches[q].reloadedAt + span;
    assert q in Run(c, events).value.caches;
  }

  /**
   Signing keys last a span in every run exactly if no process schedules retirements
   with an overlap shorter than the span and the longest transaction together.
   */
  lemma SigningKeysLastIff(c: Config, span: nat)
    ensures SigningKeysLast(c, span) <==> forall p :: c.overlap(p) > 0 ==> span <= c.overlap(p) - c.longest
  {
    if forall p :: c.overlap(p) > 0 ==> span <= c.overlap(p) - c.longest {
      forall events, p | Run(c, events).Some? && p in Run(c, events).value.caches
        ensures var s := Run(c, events).value;
                s.caches[p].active.Some? && s.now <= s.caches[p].reloadedAt + span ==>
                  s.caches[p].active.value in ActiveKeys(s.keys)
      {
        SigningKeyLasts(c, events, span + c.longest, p);
      }
    } else {
      var p :| c.overlap(p) > 0 && span > c.overlap(p) - c.longest;
      PrunedUnderSigner(c, p, span);
    }
  }

  // ---- keys that are never retired -----------------------------------------

  /** Every key but the newest has a retirement time. */
  predicate OneUnretired(keys: Table) {
    forall k <- keys :: keys[k].expiresAt.None? ==> forall j <- keys :: j == k || Before(keys, j, k)
  }

  /** A commit that adds a key to a table with keys retires the newest of them. */
  predicate Supersedes(c: Config, s: State, e: Event) {
    match e
    case CommitRotate(tx, _) =>
      tx in s.open && s.open[tx].Rotating? && s.keys.Keys != {} ==>
        s.open[tx].prev.Some? && c.overlap(s.open[tx].process) > 0 && IsNewest(s.keys, s.open[tx].prev)
    case CommitBootstrap(tx, _) =>
      tx in s.open && s.open[tx].Booting? && s.open[tx].foundNone == Some(true) ==> s.keys.Keys == {}
    case _ => true
  }

  /** Adding a key beside an unretired newest one leaves two, unless that one is retired and the new key follows it. */
  lemma RotateStrands(keys: Table, newest: Kid, kid: Kid, begin: Instant, prev: Option<Kid>, overlap: int)
    requires newest in keys && keys[newest].expiresAt.None? && kid !in keys
    requires forall k <- keys :: k == newest || Before(keys, k, newest)
    requires OneUnretired(keys) && (prev.Some? ==> prev.value in keys && keys[prev.value].createdAt < begin)
    ensures OneUnretired(RotateRows(keys, kid, begin, prev, overlap)) <==> prev == Some(newest) && overlap > 0
  {
    var t := RotateRows(keys, kid, begin, prev, overlap);
    assert newest in t && kid in t && t[kid].expiresAt.None?;
    assert forall k <- keys :: k in t && t[k].createdAt == keys[k].createdAt;
    if prev == Some(newest) && overlap > 0 {
      forall k | k in t && k != kid ensures t[k].expiresAt.Some? && Before(t, k, kid) {
        assert k == newest || keys[k].expiresAt.Some?;
      }
    } else {
      assert t[newest].expiresAt.None?;
      assert !(Before(t, newest, kid) && Before(t, kid, newest));
    }
  }

  lemma CommitStrands(c: Config, s: State, e: Event)
    requires KeysSound(s.keys, s.now) && TransactionsSound(s) && OneUnretired(s.keys) && Enabled(c, s, e)
    requires e.CommitRotate? || (e.CommitBootstrap? && s.open[e.tx].foundNone == Some(true))
    ensures OneUnretired(Next(c, s, e).keys) <==> Supersedes(c, s, e)
  {
    if some :| some in s.keys {
      var newest := NewestExists(s.keys, s.keys.Keys, some);
      assert IsNewest(s.keys, Some(newest)) by {
        assert s.keys[newest].active;
        assert newest in ActiveKeys(s.keys);
      }
      NewestIsUnretired(s.keys, s.now, Some(newest));
      if e.CommitRotate? {
        var r := s.open[e.tx];
        RotateStrands(s.keys, newest, e.kid, r.begin, r.prev, c.overlap(r.process));
        assert forall k :: IsNewest(s.keys, Some(k)) ==> k == newest;
      } else {
        RotateStrands(s.keys, newest, e.kid, s.open[e.tx].begin, None, 0);
      }
    } else {
      assert forall k :: k !in s.keys.Keys;
      assert s.keys.Keys == {};
    }
  }

  /**
   While every key but the newest is due for retirement, a step leaves it so exactly
   when it supersedes the newest key or adds none.
   */
  lemma OneUnretiredIff(c: Config, s: State, e: Event)
    requires KeysSound(s.keys, s.now) && TransactionsSound(s) && OneUnretired(s.keys) && Enabled(c, s, e)
    ensures OneUnretired(Next(c, s, e).keys) <==> Supersedes(c, s, e)
  {
    if e.CommitRotate? || (e.CommitBootstrap? && s.open[e.tx].foundNone == Some(true)) {
      CommitStrands(c, s, e);
    }
  }

  /** Unretired, no longer the newest, and unknown to every cache and every rotation under way. */
  predicate Stranded(s: State, k: Kid) {
    && k in s.keys && s.keys[k].active && s.keys[k].expiresAt.None? && HasNewer(s.keys, k)
    && (forall p <- s.caches :: s.caches[p].active != Some(k))
    && (forall tx <- s.open :: s.open[tx].Rotating? ==> s.open[tx].prev != Some(k))
  }

  /** No step of any process ever retires such a key. */
  lemma StrandedStays(c: Config, s: State, e: Event, k: Kid)
    requires KeysSound(s.keys, s.now) && Stranded(s, k) && Enabled(c, s, e)
    ensures Stranded(Next(c, s, e), k)
  {
    var t := Next(c, s, e);
    var j :| j in s.keys && Before(s.keys, k, j);
    assert Before(t.keys, k, j);
    if e.Reload? {
      NewestIsUnretired(s.keys, s.now, e.newest);
    }
  }

  /** So a run whose commits all supersede the newest key never has two keys unretired. */
  lemma {:induction false} SupersedingRuns(c: Config, events: seq<Event>)
    requires Run(c, events).Some?
    requires forall n | 0 <= n < |events| && Run(c, events[..n]).Some? ::
               Supersedes(c, Run(c, events[..n]).value, events[n])
    ensures OneUnretired(Run(c, events).value.keys)
  {
    if events != [] {
      var n := |events| - 1;
      forall m | 0 <= m < n && Run(c, events[..n][..m]).Some?
        ensures Supersedes(c, Run(c, events[..n][..m]).value, events[..n][m])
      {
        assert events[..n][..m] == events[..m];
      }
      SupersedingRuns(c, events[..n]);
      RunKeepsInvariant(c, events[..n], 0);
      OneUnretiredIff(c, Run(c, events[..n]).value, events[n]);
    }
  }

  /** And a key once stranded stays so, active and unretired, in every continuation of the run. */
  lemma {:induction false} StrandedForever(c: Config, events: seq<Event>, k: nat, kid: Kid)
    requires k <= |events| && Run(c, events).Some?
    requires Run(c, events[..k]).Some? && Stranded(Run(c, events[..k]).value, kid)
    ensures Stranded(Run(c, events).value, kid)
  {
    if k == |events| {
      assert events[..k] == events;
    } else {
      var n := |events| - 1;
      assert events[..n][..k] == events[..k];
      StrandedForever(c, events[..n], k, kid);
      RunKeepsInvariant(c, events[..n], 0);
      StrandedStays(c, Run(c, events[..n]).value, events[n], kid);
    }
  }

  /** Two processes, each with the first key cached, begin to rotate. */
  lemma BothRotating(c: Config, p: string, q: string) returns (events: seq<Event>, s: State)
    requires p != q
    ensures Run(c, events) == Some(s) && s.now == 1 && s.keys == map[1 := KeyRow(0, true, None)]
    ensures s.caches == map[p := Cache({1}, Some(1), 0), q := Cache({1}, Some(1), 0)]
    ensures s.open == map[1 := Rotating(p, 1, Some(1)), 2 := Rotating(q, 1, Some(1))]
  {
    events, s := FirstKey(c, p);
    assert ActiveKeys(s.keys) == {1};
    events, s := Play(c, events, s, Reload(q, Some(1)));
    events, s := Play(c, events, s, Advance(1));
    events, s := Play(c, events, s, BeginRotate(1, p));
    events, s := Play(c, events, s, BeginRotate(2, q));
  }

  lemma BothCommitted(c: Config, p: string, q: string) returns (events: seq<Event>, s: State)
    requires c.overlap(p) > 0 && c.overlap(q) > 0 && p != q
    ensures Run(c, events) == Some(s) && s.open == map[] && s.caches.Keys == {p, q}
    ensures s.keys == map[
                        1 := KeyRow(0, true, Some(1 + c.overlap(p))), 2 := KeyRow(1, true, None),
                        3 := KeyRow(1, true, None)]
  {
    events, s := BothRotating(c, p, q);
    events, s := Play(c, events, s, CommitRotate(1, 2));
    assert s.open == map[2 := Rotating(q, 1, Some(1))];
    events, s := Play(c, events, s, CommitRotate(2, 3));
  }

  /** Both commit, and both reload: the first of the two new keys is stranded. */
  lemma RacingRotationsStrand(c: Config, p: string, q: string) returns (events: seq<Event>, s: State)
    requires c.overlap(p) > 0 && c.overlap(q) > 0 && p != q
    ensures Run(c, events) == Some(s) && Stranded(s, 2)
    ensures s.caches.Keys == {p, q} && s.caches[p].active == s.caches[q].active == Some(3)
  {
    events, s := BothCommitted(c, p, q);
    assert ActiveKeys(s.keys) == {1, 2, 3};
    events, s := Play(c, events, s, Reload(p, Some(3)));
    events, s := Play(c, events, s, Reload(q, Some(3)));
    assert Before(s.keys, 2, 3);
  }
}
