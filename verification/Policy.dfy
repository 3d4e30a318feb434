/**
 Delegation constraints, the policy decision over them, and Tighten, which
 combines a parent's constraints with those requested for a child.

 Two decision points check a token. The issuer compares list entries exactly; the
 resource-server SDK compares resources after canonicalization. Both are modelled
 by one decision function over a `Pdp`. Times are nanoseconds. Time zones are
 abstract: a clock maps an instant to a weekday and a minute of the day, and an
 unknown zone name loads no clock.
 */
module Policy {
  import opened Sequences
  import opened Wrappers

  type Instant = int

  datatype LocalTime = LocalTime(weekday: nat, minute: nat)
  type Clock = Instant -> LocalTime

  /** What a decision reads from its surroundings: the zone database and the time of day. */
  datatype Context = Context(utc: Clock, load: string -> Option<Clock>, now: Instant)

  /** A nil weekday list is None; nil and empty lists both mean any day. */
  datatype TimeWindow = TimeWindow(weekdays: Option<seq<int>>, startMin: int, endMin: int, tz: string)

  datatype Constraints = Constraints(
    maxAmount: Option<real>,
    categories: seq<string>,
    tools: seq<string>,
    resources: seq<string>,
    window: Option<TimeWindow>,
    rate: Option<int>)

  const UNRESTRICTED := Constraints(None, [], [], [], None, None)

  datatype Action = Action(
    scope: string, amount: real, category: string, tool: string, resource: string, at: Option<Instant>)

  datatype Pdp = Issuer | Sdk(canonicalize: string -> string) {
    function Canonical(s: string): string {
      match this
      case Issuer => s
      case Sdk(canonicalize) => canonicalize(s)
    }
  }

  /** The list entry that stands for "nothing": it matches no real value. */
  const DENY_ALL: string := "\U{0000}legant:deny-all"

  // ---- deciding ------------------------------------------------------------

  predicate Listed(pdp: Pdp, allowed: seq<string>, value: string) {
    exists x <- allowed :: pdp.Canonical(x) == pdp.Canonical(value)
  }

  predicate PermitList(pdp: Pdp, allowed: seq<string>, value: string) {
    allowed == [] || (DENY_ALL !in allowed && (value == "" || Listed(pdp, allowed, value)))
  }

  predicate PermitAmount(max: Option<real>, amount: real) {
    max.Some? ==> amount <= max.value
  }

  function ClockOf(ctx: Context, tz: string): Option<Clock> {
    if tz == "" then Some(ctx.utc) else ctx.load(tz)
  }

  predicate OnDay(weekdays: Option<seq<int>>, day: int) {
    weekdays.GetOr([]) == [] || day in weekdays.GetOr([])
  }

  predicate Allows(ctx: Context, w: TimeWindow, at: Instant) {
    match ClockOf(ctx, w.tz)
    case None => false
    case Some(clock) =>
      var t := clock(at);
      OnDay(w.weekdays, t.weekday) && w.startMin <= t.minute <= w.endMin
  }

  predicate PermitTime(ctx: Context, w: Option<TimeWindow>, at: Option<Instant>) {
    w.Some? ==> Allows(ctx, w.value, at.GetOr(ctx.now))
  }

  /** Rate is not decided here: a cap needs shared state (see MintCap). */
  predicate Permit(pdp: Pdp, ctx: Context, c: Constraints, a: Action) {
    && PermitAmount(c.maxAmount, a.amount)
    && PermitList(Issuer, c.categories, a.category)
    && PermitList(Issuer, c.tools, a.tool)
    && PermitList(pdp, c.resources, a.resource)
    && PermitTime(ctx, c.window, a.at)
  }

  /** The local time at which a decision is made, if the zone is known. */
  function LocalAt(ctx: Context, tz: string, at: Option<Instant>): Option<LocalTime> {
    var instant := if at.Some? then at.value else ctx.now;
    if tz == "" then Some(ctx.utc(instant))
    else if ctx.load(tz).Some? then Some(ctx.load(tz).value(instant))
    else None
  }

  /**
   What a decision permits: an amount up to the maximum; for each restricted list an
   entry of it or no value, and nothing if it holds the sentinel; and the local time's
   day and minute within the window, in a known zone.
   */
  lemma PermitIff(pdp: Pdp, ctx: Context, c: Constraints, a: Action)
    ensures Permit(pdp, ctx, c, a) <==>
              && (c.maxAmount.Some? ==> a.amount <= c.maxAmount.value)
              && (c.categories != [] ==>
                    DENY_ALL !in c.categories && (a.category == "" || a.category in c.categories))
              && (c.tools != [] ==> DENY_ALL !in c.tools && (a.tool == "" || a.tool in c.tools))
              && (c.resources != [] ==>
                    && DENY_ALL !in c.resources
                    && (|| a.resource == "" || a.resource in c.resources
                        || (pdp.Sdk?
                            && exists r <- c.resources :: pdp.canonicalize(r) == pdp.canonicalize(a.resource))))
              && (c.window.Some? ==>
                    var t := LocalAt(ctx, c.window.value.tz, a.at);
                    && t.Some? && c.window.value.startMin <= t.value.minute <= c.window.value.endMin
                    && (c.window.value.weekdays.None? || c.window.value.weekdays.value == []
                        || t.value.weekday in c.window.value.weekdays.value))
  {
  }

  // ---- tightening ----------------------------------------------------------

  function RealIn(b: seq<string>): string -> bool { x => x != DENY_ALL && x in b }
  function DayIn(b: seq<int>): int -> bool { x => x >= 0 && x in b }

  /** The entries of a, in a's order, that are real and also in b. */
  function Common(a: seq<string>, b: seq<string>): seq<string> {
    Filter(a, RealIn(b))
  }

  function IntersectAllow(a: seq<string>, b: seq<string>): seq<string> {
    if a == [] then b
    else if b == [] then a
    else if Common(a, b) == [] then [DENY_ALL]
    else Common(a, b)
  }

  method ComputeIntersectAllow(a: seq<string>, b: seq<string>) returns (out: seq<string>)
    ensures out == IntersectAllow(a, b)
  {
    if a == [] { return b; }
    if b == [] { return a; }
    out := [];
    for i := 0 to |a|
      invariant out == Common(a[..i], b)
    {
      assert a[..i + 1][..i] == a[..i];
      if a[i] != DENY_ALL && a[i] in b {
        out := out + [a[i]];
      }
    }
    assert a[..|a|] == a;
    if out == [] {
      out := [DENY_ALL];
    }
  }

  function CommonDays(a: seq<int>, b: seq<int>): seq<int> {
    Filter(a, DayIn(b))
  }

  /** As for allow-lists; -1 is the day that never comes. */
  function IntersectDays(a: Option<seq<int>>, b: Option<seq<int>>): Option<seq<int>> {
    if a.GetOr([]) == [] then b
    else if b.GetOr([]) == [] then a
    else if CommonDays(a.value, b.value) == [] then Some([-1])
    else Some(CommonDays(a.value, b.value))
  }

  function Min(x: int, y: int): int { if x <= y then x else y }
  function Max(x: int, y: int): int { if x <= y then y else x }

  function MeetWindow(p: TimeWindow, c: TimeWindow): TimeWindow {
    TimeWindow(IntersectDays(p.weekdays, c.weekdays), Max(p.startMin, c.startMin), Min(p.endMin, c.endMin), p.tz)
  }

  function TightenWindow(p: Option<TimeWindow>, c: Option<TimeWindow>): Option<TimeWindow> {
    if p.None? then c
    else if c.None? then p
    else if p.value.tz != c.value.tz then p
    else Some(MeetWindow(p.value, c.value))
  }

  function TightenRate(p: Option<int>, c: Option<int>): Option<int> {
    if p.None? then c else if c.None? then p else Some(Min(p.value, c.value))
  }

  function TightenAmount(p: Option<real>, c: Option<real>): Option<real> {
    if p.None? then c else if c.None? then p else if c.value < p.value then c else p
  }

  function Tighten(parent: Constraints, child: Constraints): Constraints {
    Constraints(
      TightenAmount(parent.maxAmount, child.maxAmount),
      IntersectAllow(parent.categories, child.categories),
      IntersectAllow(parent.tools, child.tools),
      IntersectAllow(parent.resources, child.resources),
      TightenWindow(parent.window, child.window),
      TightenRate(parent.rate, child.rate))
  }

  // ---- when tightening narrows ---------------------------------------------

  predicate Shared(a: seq<string>, b: seq<string>) {
    exists x <- a :: x != DENY_ALL && x in b
  }

  /** The first list denies everything, yet the intersection would keep a real entry of it. */
  predicate Revives(a: seq<string>, b: seq<string>) {
    DENY_ALL in a && Shared(a, b)
  }

  /** A deny-all list carries nothing but the sentinel. */
  predicate SentinelAlone(l: seq<string>) {
    DENY_ALL in l ==> forall x <- l :: x == DENY_ALL
  }

  predicate WellFormed(c: Constraints) {
    SentinelAlone(c.categories) && SentinelAlone(c.tools) && SentinelAlone(c.resources)
  }

  /** No list of `c` that denies everything is revived by its counterpart in `d`. */
  predicate RevivesNothing(c: Constraints, d: Constraints) {
    && !Revives(c.categories, d.categories)
    && !Revives(c.tools, d.tools)
    && !Revives(c.resources, d.resources)
  }

  /** At either decision point, an intersection exceeds its first list exactly when it revives it. */
  lemma IntersectNarrows(pdp: Pdp, a: seq<string>, b: seq<string>)
    ensures (forall v :: PermitList(pdp, IntersectAllow(a, b), v) ==> PermitList(pdp, a, v)) <==> !Revives(a, b)
  {
    var r := IntersectAllow(a, b);
    if Revives(a, b) {
      assert a != [] && b != [];
      var x :| x in a && x != DENY_ALL && x in b;
      assert x in Common(a, b);
      assert PermitList(pdp, r, "") && !PermitList(pdp, a, "");
    } else {
      forall v | PermitList(pdp, r, v) ensures PermitList(pdp, a, v) {
        if a != [] && b != [] {
          assert r == Common(a, b);
          assert r[0] in r && r[0] in a && r[0] != DENY_ALL && r[0] in b;
        }
      }
    }
  }

  /** And the same of its second list. */
  lemma IntersectNarrowsChild(pdp: Pdp, a: seq<string>, b: seq<string>)
    ensures (forall v :: PermitList(pdp, IntersectAllow(a, b), v) ==> PermitList(pdp, b, v)) <==> !Revives(b, a)
  {
    var r := IntersectAllow(a, b);
    if Revives(b, a) {
      assert a != [] && b != [];
      var x :| x in b && x != DENY_ALL && x in a;
      assert x in Common(a, b);
      assert PermitList(pdp, r, "") && !PermitList(pdp, b, "");
    } else {
      forall v | PermitList(pdp, r, v) ensures PermitList(pdp, b, v) {
        if a != [] && b != [] {
          assert r == Common(a, b);
          assert r[0] in r && r[0] in a && r[0] != DENY_ALL && r[0] in b;
        }
      }
    }
  }

  lemma DaysMeet(a: Option<seq<int>>, b: Option<seq<int>>, day: nat)
    ensures OnDay(IntersectDays(a, b), day) <==> OnDay(a, day) && OnDay(b, day)
  {
  }

  predicate ZonesAgree(p: Option<TimeWindow>, c: Option<TimeWindow>) {
    p.Some? && c.Some? ==> p.value.tz == c.value.tz
  }

  /**
   The tightened window admits an instant exactly when the parent's does and, if the
   zones agree, the child's does too. Across zones the child's window is dropped.
   */
  lemma WindowExact(ctx: Context, p: Option<TimeWindow>, c: Option<TimeWindow>, at: Option<Instant>)
    ensures PermitTime(ctx, TightenWindow(p, c), at)
       <==> PermitTime(ctx, p, at) && (ZonesAgree(p, c) ==> PermitTime(ctx, c, at))
  {
    if p.Some? && c.Some? && p.value.tz == c.value.tz {
      var clock := ClockOf(ctx, p.value.tz);
      if clock.Some? {
        DaysMeet(p.value.weekdays, c.value.weekdays, clock.value(at.GetOr(ctx.now)).weekday);
      }
    }
  }

  /** Tightening never admits what the parent refuses, unless it revives a list of the parent's. */
  lemma TightenNarrows(pdp: Pdp, ctx: Context, p: Constraints, c: Constraints, a: Action)
    requires RevivesNothing(p, c)
    requires Permit(pdp, ctx, Tighten(p, c), a)
    ensures Permit(pdp, ctx, p, a)
  {
    IntersectNarrows(Issuer, p.categories, c.categories);
    IntersectNarrows(Issuer, p.tools, c.tools);
    IntersectNarrows(pdp, p.resources, c.resources);
    WindowExact(ctx, p.window, c.window, a.at);
  }

  /** So it stays within the parent exactly when it revives no list, or permits nothing anyway. */
  lemma TightenNarrowsIff(pdp: Pdp, ctx: Context, p: Constraints, c: Constraints)
    ensures (forall a :: Permit(pdp, ctx, Tighten(p, c), a) ==> Permit(pdp, ctx, p, a))
       <==> RevivesNothing(p, c) || forall a :: !Permit(pdp, ctx, Tighten(p, c), a)
  {
    if RevivesNothing(p, c) {
      forall a | Permit(pdp, ctx, Tighten(p, c), a) ensures Permit(pdp, ctx, p, a) {
        TightenNarrows(pdp, ctx, p, c, a);
      }
    } else {
      forall a ensures !Permit(pdp, ctx, p, a) {
        assert Revives(p.categories, c.categories) ==> !PermitList(Issuer, p.categories, a.category);
        assert Revives(p.tools, c.tools) ==> !PermitList(Issuer, p.tools, a.tool);
        assert Revives(p.resources, c.resources) ==> !PermitList(pdp, p.resources, a.resource);
      }
    }
  }

  /** Nor what the child was offered, when moreover the two windows are in one zone. */
  lemma TightenNarrowsChild(pdp: Pdp, ctx: Context, p: Constraints, c: Constraints, a: Action)
    requires RevivesNothing(c, p) && ZonesAgree(p.window, c.window)
    requires Permit(pdp, ctx, Tighten(p, c), a)
    ensures Permit(pdp, ctx, c, a)
  {
    IntersectNarrowsChild(Issuer, p.categories, c.categories);
    IntersectNarrowsChild(Issuer, p.tools, c.tools);
    IntersectNarrowsChild(pdp, p.resources, c.resources);
    WindowExact(ctx, p.window, c.window, a.at);
  }

  // ---- when tightening is the meet -----------------------------------------

  /** Both lists restrict the dimension, they have nothing in common, and the action names no value. */
  predicate LeavesUnnamed(a: seq<string>, b: seq<string>, v: string) {
    v == "" && a != [] && b != [] && !Shared(a, b)
  }

  /** Some real entry of both lists has the canonical form. */
  predicate SharedSpelling(pdp: Pdp, a: seq<string>, b: seq<string>, form: string) {
    exists z <- a :: z != DENY_ALL && z in b && pdp.Canonical(z) == form
  }

  /** Real entries of the two lists with one canonical form have a spelling of it in common. */
  predicate SpeltAlike(pdp: Pdp, a: seq<string>, b: seq<string>) {
    forall x <- a, y <- b | x != DENY_ALL && y != DENY_ALL && pdp.Canonical(x) == pdp.Canonical(y) ::
      SharedSpelling(pdp, a, b, pdp.Canonical(x))
  }

  /** The intersection permits the value exactly when both lists do. */
  predicate MeetsAt(pdp: Pdp, a: seq<string>, b: seq<string>, v: string) {
    PermitList(pdp, IntersectAllow(a, b), v) <==>
      PermitList(pdp, a, v) && PermitList(pdp, b, v) && !LeavesUnnamed(a, b, v)
  }

  lemma CommonListed(pdp: Pdp, a: seq<string>, b: seq<string>, v: string)
    requires DENY_ALL !in a && DENY_ALL !in b && SpeltAlike(pdp, a, b)
    ensures Listed(pdp, Common(a, b), v) <==> Listed(pdp, a, v) && Listed(pdp, b, v)
  {
    if Listed(pdp, a, v) && Listed(pdp, b, v) {
      var x :| x in a && pdp.Canonical(x) == pdp.Canonical(v);
      var y :| y in b && pdp.Canonical(y) == pdp.Canonical(v);
      assert SharedSpelling(pdp, a, b, pdp.Canonical(v));
      var z :| z in a && z != DENY_ALL && z in b && pdp.Canonical(z) == pdp.Canonical(v);
      assert z in Common(a, b);
    }
  }

  lemma IntersectMeet(pdp: Pdp, a: seq<string>, b: seq<string>, v: string)
    requires SentinelAlone(a) && SentinelAlone(b) && SpeltAlike(pdp, a, b)
    ensures MeetsAt(pdp, a, b, v)
  {
    FilterEmpty(a, RealIn(b));
    if DENY_ALL !in a && DENY_ALL !in b {
      CommonListed(pdp, a, b, v);
      assert Listed(pdp, Common(a, b), v) ==> Common(a, b) != [];
    }
  }

  /** At either decision point, intersection is the meet for every value exactly when the lists are spelt alike. */
  lemma IntersectMeetIff(pdp: Pdp, a: seq<string>, b: seq<string>)
    requires SentinelAlone(a) && SentinelAlone(b)
    ensures (forall v :: MeetsAt(pdp, a, b, v)) <==> SpeltAlike(pdp, a, b)
  {
    if SpeltAlike(pdp, a, b) {
      forall v ensures MeetsAt(pdp, a, b, v) {
        IntersectMeet(pdp, a, b, v);
      }
    } else {
      var x, y :|
        && x in a && y in b && x != DENY_ALL && y != DENY_ALL && pdp.Canonical(x) == pdp.Canonical(y)
        && !SharedSpelling(pdp, a, b, pdp.Canonical(x));
      var v := if x == "" then y else x;
      assert v != "" && Listed(pdp, a, v) && Listed(pdp, b, v);
      FilterEmpty(a, RealIn(b));
      assert forall z <- Common(a, b) :: z != DENY_ALL && z in a && z in b;
      assert !PermitList(pdp, IntersectAllow(a, b), v);
      assert !MeetsAt(pdp, a, b, v);
    }
  }

  /** Lists of canonical entries are spelt alike, and at the issuer all lists are. */
  lemma CanonicalIsSpeltAlike(pdp: Pdp, a: seq<string>, b: seq<string>)
    requires forall x <- a + b :: pdp.Canonical(x) == x
    ensures SpeltAlike(pdp, a, b)
  {
    assert forall x :: x in a + b <==> x in a || x in b;
  }

  /** Two spellings of one resource: each list permits it at the SDK, and their intersection denies everything. */
  lemma TwoSpellingsExample(pdp: Pdp)
    requires pdp.Canonical("https://api") == pdp.Canonical("HTTPS://api")
    ensures PermitList(pdp, ["https://api"], "https://api") && PermitList(pdp, ["HTTPS://api"], "https://api")
    ensures forall v :: !PermitList(pdp, IntersectAllow(["https://api"], ["HTTPS://api"]), v)
  {
    assert "https://api" in ["https://api"] && "HTTPS://api" in ["HTTPS://api"];
    assert "https://api"[0] != "HTTPS://api"[0];
    FilterEmpty(["https://api"], RealIn(["HTTPS://api"]));
    assert DENY_ALL in IntersectAllow(["https://api"], ["HTTPS://api"]);
  }

  predicate NamesDisjoint(p: Constraints, c: Constraints, a: Action) {
    && !LeavesUnnamed(p.categories, c.categories, a.category)
    && !LeavesUnnamed(p.tools, c.tools, a.tool)
    && !LeavesUnnamed(p.resources, c.resources, a.resource)
  }

  /**
   Tighten is the meet of the two constraint sets for every action, at either decision
   point, except that a dimension on which the two are disjoint denies even the actions
   that name no value.
   */
  lemma TightenIsMeet(pdp: Pdp, ctx: Context, p: Constraints, c: Constraints, a: Action)
    requires WellFormed(p) && WellFormed(c) && ZonesAgree(p.window, c.window)
    requires SpeltAlike(pdp, p.resources, c.resources)
    ensures Permit(pdp, ctx, Tighten(p, c), a)
       <==> Permit(pdp, ctx, p, a) && Permit(pdp, ctx, c, a) && NamesDisjoint(p, c, a)
  {
    IntersectMeet(Issuer, p.categories, c.categories, a.category);
    IntersectMeet(Issuer, p.tools, c.tools, a.tool);
    IntersectMeet(pdp, p.resources, c.resources, a.resource);
    WindowExact(ctx, p.window, c.window, a.at);
  }

  predicate DisjointLists(a: seq<string>, b: seq<string>) {
    a != [] && b != [] && !Shared(a, b)
  }

  /** No day and minute lies in both windows. */
  predicate DisjointWindows(p: TimeWindow, c: TimeWindow) {
    || Min(p.endMin, c.endMin) < Max(p.startMin, c.startMin)
    || (p.weekdays.GetOr([]) != [] && c.weekdays.GetOr([]) != []
        && forall d <- p.weekdays.value :: d >= 0 ==> d !in c.weekdays.value)
  }

  /** Disjoint restrictions deny everything, at both decision points; they never read as "no restriction". */
  lemma DisjointPermitsNothing(pdp: Pdp, ctx: Context, p: Constraints, c: Constraints, a: Action)
    requires
      || DisjointLists(p.categories, c.categories)
      || DisjointLists(p.tools, c.tools)
      || DisjointLists(p.resources, c.resources)
      || (p.window.Some? && c.window.Some? && p.window.value.tz == c.window.value.tz
          && DisjointWindows(p.window.value, c.window.value))
    ensures !Permit(pdp, ctx, Tighten(p, c), a)
  {
    DisjointCommon(p.categories, c.categories);
    DisjointCommon(p.tools, c.tools);
    DisjointCommon(p.resources, c.resources);
    WindowExact(ctx, p.window, c.window, a.at);
  }

  lemma DisjointCommon(a: seq<string>, b: seq<string>)
    ensures DisjointLists(a, b) ==> DENY_ALL in IntersectAllow(a, b)
  {
    FilterEmpty(a, RealIn(b));
  }

  lemma WellFormedRevivesNothing(p: Constraints, c: Constraints)
    requires WellFormed(p) && WellFormed(c)
    ensures RevivesNothing(p, c)
  {
  }

  lemma TightenWellFormed(p: Constraints, c: Constraints)
    requires WellFormed(p) && WellFormed(c)
    ensures WellFormed(Tighten(p, c)) && RevivesNothing(p, c) && RevivesNothing(c, p)
  {
  }

  // ---- associativity -------------------------------------------------------

  lemma IntersectAssociative(a: seq<string>, b: seq<string>, c: seq<string>)
    ensures IntersectAllow(IntersectAllow(a, b), c) == IntersectAllow(a, IntersectAllow(b, c))
  {
    if a != [] && b != [] && c != [] {
      FilterFilter(a, RealIn(b), RealIn(c), RealIn(Common(b, c)));
      FilterEmpty(a, RealIn(b));
      FilterEmpty(b, RealIn(c));
      FilterEmpty(Common(a, b), RealIn(c));
      FilterEmpty([DENY_ALL], RealIn(c));
      FilterEmpty(a, RealIn([DENY_ALL]));
    }
  }

  lemma DaysAssociative(a: Option<seq<int>>, b: Option<seq<int>>, c: Option<seq<int>>)
    ensures IntersectDays(IntersectDays(a, b), c) == IntersectDays(a, IntersectDays(b, c))
  {
    if a.GetOr([]) != [] && b.GetOr([]) != [] && c.GetOr([]) != [] {
      FilterFilter(a.value, DayIn(b.value), DayIn(c.value), DayIn(CommonDays(b.value, c.value)));
      FilterEmpty(a.value, DayIn(b.value));
      FilterEmpty(b.value, DayIn(c.value));
      FilterEmpty(CommonDays(a.value, b.value), DayIn(c.value));
      FilterEmpty([-1], DayIn(c.value));
      FilterEmpty(a.value, DayIn([-1]));
    }
  }

  /** The outer windows share a zone that the middle one does not, and the last would narrow the first. */
  predicate ZoneSandwich(a: Option<TimeWindow>, b: Option<TimeWindow>, c: Option<TimeWindow>) {
    && a.Some? && b.Some? && c.Some?
    && a.value.tz == c.value.tz && a.value.tz != b.value.tz
    && MeetWindow(a.value, c.value) != a.value
  }

  /** Tightening along a chain groups either way, except when a window in a foreign zone stands between. */
  lemma TightenAssociative(a: Constraints, b: Constraints, c: Constraints)
    ensures Tighten(Tighten(a, b), c) == Tighten(a, Tighten(b, c)) <==> !ZoneSandwich(a.window, b.window, c.window)
  {
    IntersectAssociative(a.categories, b.categories, c.categories);
    IntersectAssociative(a.tools, b.tools, c.tools);
    IntersectAssociative(a.resources, b.resources, c.resources);
    if a.window.Some? && b.window.Some? && c.window.Some? {
      DaysAssociative(a.window.value.weekdays, b.window.value.weekdays, c.window.value.weekdays);
    }
  }

  // ---- rate caps -----------------------------------------------------------

  /** The cap token exchange enforces: one of zero or less is no cap. */
  function EnforcedCap(rate: Option<int>): Option<int> {
    if rate.Some? && rate.value > 0 then rate else None
  }

  predicate CapWithin(r: Option<int>, p: Option<int>) {
    EnforcedCap(p).Some? ==> EnforcedCap(r).Some? && EnforcedCap(r).value <= EnforcedCap(p).value
  }

  /** The tightened cap is the lesser of those there are: it is within a bound exactly when one of them is. */
  lemma RateMeet(p: Option<int>, c: Option<int>, bound: int)
    ensures TightenRate(p, c).Some? <==> p.Some? || c.Some?
    ensures TightenRate(p, c).Some? && TightenRate(p, c).value <= bound
       <==> (p.Some? && p.value <= bound) || (c.Some? && c.value <= bound)
  {
  }

  /** And an amount is within the tightened maximum exactly when it is within each there is. */
  lemma AmountMeet(p: Option<real>, c: Option<real>, amount: real)
    ensures (TightenAmount(p, c).Some? ==> amount <= TightenAmount(p, c).value)
       <==> (p.Some? ==> amount <= p.value) && (c.Some? ==> amount <= c.value)
  {
  }

  /** A child's cap of zero or less wins the minimum and so lifts an enforced cap; nothing else does. */
  lemma RateNarrows(p: Option<int>, c: Option<int>)
    ensures CapWithin(TightenRate(p, c), p) <==> !(EnforcedCap(p).Some? && c.Some? && c.value <= 0)
  {
  }

  // ---- inputs on which Tighten is not the strictest of the two --------------

  /** A parent that denies every category, tightened, permits one. */
  lemma RevivedListExample(pdp: Pdp)
    ensures IntersectAllow([DENY_ALL, "travel"], ["travel"]) == ["travel"]
    ensures !PermitList(pdp, [DENY_ALL, "travel"], "travel") && PermitList(pdp, ["travel"], "travel")
  {
    var l := [DENY_ALL, "travel"];
    assert l[..1] == [DENY_ALL] && l[..1][..0] == [];
    assert Filter(l[..1], RealIn(["travel"])) == [];
    assert "travel" in ["travel"];
  }

  /** The empty zone name and "UTC" mean one zone, yet the child's hours are dropped. */
  lemma SpeltZoneExample(ctx: Context, at: Instant)
    requires ctx.load("UTC") == Some(ctx.utc) && ctx.utc(at) == LocalTime(1, 0)
    ensures var p := Some(TimeWindow(None, 0, 1439, ""));
            var c := Some(TimeWindow(None, 540, 1020, "UTC"));
            PermitTime(ctx, TightenWindow(p, c), Some(at)) && !PermitTime(ctx, c, Some(at))
  {
  }

  lemma LiftedCapExample()
    ensures EnforcedCap(Some(5)) == Some(5) && EnforcedCap(TightenRate(Some(5), Some(0))) == None
  {
  }
}
