/**
 Grants, delegation chains and the composite tokens issued for them.

 A chain starts with NewRootGrant and grows by Delegate. A token carries the root
 delegator as subject, the delegatees as nested act claims, the attenuated scopes
 as one space-joined string, and the leaf's constraints.
 */
module Chains {
  import opened Sequences
  import opened Wrappers
  import opened Text
  import opened Policy

  const DEFAULT_MAX_DEPTH := 5
  const SECOND := 1_000_000_000

  datatype Grant = Grant(
    delegator: string, delegatee: string, scopes: seq<string>, constraints: Constraints,
    expiresAt: Instant, parent: Option<Grant>)

  /** The arguments of one Delegate call. */
  datatype Request = Request(delegatee: string, scopes: seq<string>, constraints: Constraints, ttl: int, now: Instant)

  function NewRootGrant(
      user: string, agent: string, scopes: seq<string>, c: Constraints, ttl: int, now: Instant): Grant
  {
    Grant(user, agent, scopes, c, now + ttl, None)
  }

  predicate IsSubset(child: seq<string>, parent: seq<string>) {
    forall s <- child :: s in parent
  }

  function MemberOf(l: seq<string>): string -> bool { x => x in l }

  /** The requested scopes the parent also holds, in the order requested. */
  function Attenuate(parent: seq<string>, requested: seq<string>): seq<string> {
    Filter(requested, MemberOf(parent))
  }

  method ComputeAttenuate(parent: seq<string>, requested: seq<string>) returns (out: seq<string>)
    ensures out == Attenuate(parent, requested)
  {
    out := [];
    for i := 0 to |requested|
      invariant out == Attenuate(parent, requested[..i])
    {
      assert requested[..i + 1][..i] == requested[..i];
      if requested[i] in parent {
        out := out + [requested[i]];
      }
    }
    assert requested[..|requested|] == requested;
  }

  // ---- chain walks ---------------------------------------------------------

  /** The grants of the chain, root first. */
  function Links(g: Grant): (r: seq<Grant>)
    ensures r != [] && r[|r| - 1] == g
  {
    (if g.parent.None? then [] else Links(g.parent.value)) + [g]
  }

  function DelegateesOf(links: seq<Grant>): seq<string> {
    seq(|links|, i requires 0 <= i < |links| => links[i].delegatee)
  }

  /** Every delegatee of the chain, root first. */
  function Delegatees(g: Grant): seq<string> {
    DelegateesOf(Links(g))
  }

  lemma DelegateesStep(g: Grant)
    ensures Delegatees(g) == (if g.parent.None? then [] else Delegatees(g.parent.value)) + [g.delegatee]
  {
  }

  method Depth(g: Grant) returns (d: nat)
    ensures d + 1 == |Links(g)|
  {
    d := 0;
    var p := g;
    while p.parent.Some?
      invariant d + |Links(p)| == |Links(g)|
      decreases p
    {
      p := p.parent.value;
      d := d + 1;
    }
  }

  method RootDelegator(g: Grant) returns (name: string)
    ensures name == Links(g)[0].delegator
  {
    var root := g;
    while root.parent.Some?
      invariant Links(root)[0] == Links(g)[0]
      decreases root
    {
      root := root.parent.value;
    }
    name := root.delegator;
  }

  method ReverseInPlace(a: array<string>)
    modifies a
    ensures a[..] == Reverse(old(a[..]))
  {
    var i, j := 0, a.Length - 1;
    while i < j
      invariant 0 <= i <= j + 1 && i + j == a.Length - 1
      invariant forall k | 0 <= k < i || j < k < a.Length :: a[k] == old(a[a.Length - 1 - k])
      invariant forall k | i <= k <= j :: a[k] == old(a[k])
    {
      a[i], a[j] := a[j], a[i];
      i, j := i + 1, j - 1;
    }
    assert a[..] == Reverse(old(a[..]));
  }

  /** Collects the delegatees leaf first, then flips them in place. */
  method ActorChainRootToLeaf(g: Grant) returns (actors: seq<string>)
    ensures actors == Delegatees(g)
  {
    var rev := [g.delegatee];
    var p := g;
    while p.parent.Some?
      invariant |rev| >= 1 && |Links(p)| + |rev| == |Links(g)| + 1
      invariant forall k | 0 <= k < |Links(p)| :: Links(p)[k] == Links(g)[k]
      invariant forall k | 0 <= k < |rev| :: rev[k] == Delegatees(g)[|Links(g)| - 1 - k]
      decreases p
    {
      p := p.parent.value;
      assert p == Links(p)[|Links(p)| - 1];
      rev := rev + [p.delegatee];
    }
    var a := new string[|rev|](i requires 0 <= i < |rev| => rev[i]);
    assert a[..] == rev;
    ReverseInPlace(a);
    actors := a[..];
  }

  // ---- delegating ----------------------------------------------------------

  function Delegate(parent: Grant, r: Request, maxDepth: int): Result<Grant> {
    if !IsSubset(r.scopes, parent.scopes) then Err("scopes exceed delegator's scopes")
    else if |Links(parent)| >= maxDepth then Err("delegation depth would exceed max")
    else if r.delegatee in Delegatees(parent) then Err("cycle detected, principal already in chain")
    else Ok(Grant(
              parent.delegatee, r.delegatee, r.scopes, Tighten(parent.constraints, r.constraints),
              Min(r.now + r.ttl, parent.expiresAt), Some(parent)))
  }

  /** The chain that a root grant and a list of Delegate calls build, if none of them fails. */
  function Build(root: Grant, requests: seq<Request>, maxDepth: int): Result<Grant> {
    if requests == [] then Ok(root)
    else
      var n := |requests| - 1;
      match Build(root, requests[..n], maxDepth)
      case Err(e) => Err(e)
      case Ok(parent) => Delegate(parent, requests[n], maxDepth)
  }

  /**
   Delegating succeeds exactly when the scopes are all the parent's, the chain has room
   and the delegatee is new to it. The child then speaks for the parent's delegatee, as
   asked but tightened, and lives as long as asked or as the parent, whichever is less.
   */
  lemma DelegateIff(parent: Grant, r: Request, maxDepth: int)
    ensures Delegate(parent, r, maxDepth).Ok? <==>
              && (forall s <- r.scopes :: s in parent.scopes)
              && |Links(parent)| + 1 <= maxDepth
              && (forall g <- Links(parent) :: g.delegatee != r.delegatee)
    ensures Delegate(parent, r, maxDepth).Ok? ==>
              var g := Delegate(parent, r, maxDepth).value;
              && g.delegator == parent.delegatee && g.delegatee == r.delegatee && g.scopes == r.scopes
              && g.constraints == Tighten(parent.constraints, r.constraints) && g.parent == Some(parent)
              && g.expiresAt <= r.now + r.ttl && g.expiresAt <= parent.expiresAt
              && (g.expiresAt == r.now + r.ttl || g.expiresAt == parent.expiresAt)
  {
    var links := Links(parent);
    if r.delegatee in Delegatees(parent) {
      var i :| 0 <= i < |links| && Delegatees(parent)[i] == r.delegatee;
      assert links[i] in links && links[i].delegatee == r.delegatee;
    }
    forall g | g in links && g.delegatee == r.delegatee ensures r.delegatee in Delegatees(parent) {
      var i :| 0 <= i < |links| && links[i] == g;
      assert Delegatees(parent)[i] == r.delegatee;
    }
  }

  /** The scopes asked for before the k-th request: the root's, or the last request's. */
  function ScopesBefore(root: Grant, requests: seq<Request>, k: nat): seq<string>
    requires k <= |requests|
  {
    if k == 0 then root.scopes else requests[k - 1].scopes
  }

  /** The delegatees of the chain that the requests ask for, root first. */
  function Names(root: Grant, requests: seq<Request>): seq<string> {
    [root.delegatee] + seq(|requests|, i requires 0 <= i < |requests| => requests[i].delegatee)
  }

  /** The k-th request asks for no more than what is held, finds room, and names an agent not yet in the chain. */
  predicate Allowed(root: Grant, requests: seq<Request>, k: nat, maxDepth: int)
    requires k < |requests|
  {
    && (forall s <- requests[k].scopes :: s in ScopesBefore(root, requests, k))
    && k + 2 <= maxDepth
    && requests[k].delegatee !in Names(root, requests[..k])
  }

  predicate Buildable(root: Grant, requests: seq<Request>, maxDepth: int) {
    forall k: nat | k < |requests| :: Allowed(root, requests, k, maxDepth)
  }

  /** The links of a built chain, read off the requests. */
  predicate BuiltFrom(g: Grant, root: Grant, requests: seq<Request>) {
    && g.scopes == ScopesBefore(root, requests, |requests|)
    && Delegatees(g) == Names(root, requests)
  }

  lemma AllowedInPrefix(root: Grant, requests: seq<Request>, n: nat, k: nat, maxDepth: int)
    requires k < n <= |requests|
    ensures Allowed(root, requests[..n], k, maxDepth) <==> Allowed(root, requests, k, maxDepth)
  {
    assert requests[..n][..k] == requests[..k];
  }

  lemma BuildableStep(root: Grant, requests: seq<Request>, maxDepth: int)
    requires requests != []
    ensures var n := |requests| - 1;
            Buildable(root, requests, maxDepth)
            <==> Buildable(root, requests[..n], maxDepth) && Allowed(root, requests, n, maxDepth)
  {
    var n := |requests| - 1;
    forall k: nat | k < n
      ensures Allowed(root, requests[..n], k, maxDepth) <==> Allowed(root, requests, k, maxDepth)
    {
      AllowedInPrefix(root, requests, n, k, maxDepth);
    }
  }

  lemma OkIfAllowed(root: Grant, requests: seq<Request>, parent: Grant, maxDepth: int)
    requires requests != [] && BuiltFrom(parent, root, requests[..|requests| - 1])
    ensures var n := |requests| - 1;
            Delegate(parent, requests[n], maxDepth).Ok? <==> Allowed(root, requests, n, maxDepth)
  {
    var n := |requests| - 1;
    assert |Links(parent)| == |Delegatees(parent)| == n + 1;
    assert ScopesBefore(root, requests[..n], n) == ScopesBefore(root, requests, n) == parent.scopes;
  }

  lemma DelegateBuilds(root: Grant, requests: seq<Request>, parent: Grant, maxDepth: int)
    requires requests != [] && BuiltFrom(parent, root, requests[..|requests| - 1])
    requires Delegate(parent, requests[|requests| - 1], maxDepth).Ok?
    ensures BuiltFrom(Delegate(parent, requests[|requests| - 1], maxDepth).value, root, requests)
  {
    var n := |requests| - 1;
    DelegateesStep(Delegate(parent, requests[n], maxDepth).value);
    assert Names(root, requests) == Names(root, requests[..n]) + [requests[n].delegatee];
  }

  /** A chain of any length can be built exactly when its requests, taken by themselves, allow it. */
  lemma {:induction false} BuildIff(root: Grant, requests: seq<Request>, maxDepth: int)
    requires root.parent.None?
    ensures Build(root, requests, maxDepth).Ok? <==> Buildable(root, requests, maxDepth)
    ensures Build(root, requests, maxDepth).Ok? ==> BuiltFrom(Build(root, requests, maxDepth).value, root, requests)
  {
    if requests != [] {
      var n := |requests| - 1;
      BuildIff(root, requests[..n], maxDepth);
      BuildableStep(root, requests, maxDepth);
      if Build(root, requests[..n], maxDepth).Ok? {
        var parent := Build(root, requests[..n], maxDepth).value;
        OkIfAllowed(root, requests, parent, maxDepth);
        if Delegate(parent, requests[n], maxDepth).Ok? {
          DelegateBuilds(root, requests, parent, maxDepth);
        }
      }
    }
  }

  /** A built chain's leaf lives to the earliest of the root's expiry and every lifetime asked for. */
  lemma {:induction false} BuiltExpiry(root: Grant, requests: seq<Request>, maxDepth: int)
    requires Build(root, requests, maxDepth).Ok?
    ensures var e := Build(root, requests, maxDepth).value.expiresAt;
            && e <= root.expiresAt && (forall r <- requests :: e <= r.now + r.ttl)
            && (e == root.expiresAt || exists r <- requests :: e == r.now + r.ttl)
  {
    if requests != [] {
      var n := |requests| - 1;
      assert forall r :: r in requests <==> r in requests[..n] || r == requests[n];
      BuiltExpiry(root, requests[..n], maxDepth);
      DelegateIff(Build(root, requests[..n], maxDepth).value, requests[n], maxDepth);
    }
  }

  ghost predicate WellLinked(links: seq<Grant>, maxDepth: int) {
    && |links| <= Max(1, maxDepth)
    && (forall i, j | 0 <= i < j < |links| :: links[i].delegatee != links[j].delegatee)
    && (forall i | 0 < i < |links| :: links[i].delegator == links[i - 1].delegatee)
    && (forall i, j | 0 <= i < j < |links| :: links[j].expiresAt <= links[i].expiresAt)
    && (forall i, j | 0 <= i < j < |links| :: IsSubset(links[j].scopes, links[i].scopes))
  }

  lemma DelegateKeepsWellLinked(parent: Grant, r: Request, maxDepth: int)
    requires WellLinked(Links(parent), maxDepth) && Delegate(parent, r, maxDepth).Ok?
    ensures WellLinked(Links(Delegate(parent, r, maxDepth).value), maxDepth)
  {
    var links := Links(parent);
    forall i | 0 <= i < |links| ensures links[i].delegatee != r.delegatee {
      assert Delegatees(parent)[i] == links[i].delegatee;
    }
    LinkOn(links, Delegate(parent, r, maxDepth).value, maxDepth);
  }

  lemma LinkOn(links: seq<Grant>, g: Grant, maxDepth: int)
    requires links != [] && |links| < maxDepth && WellLinked(links, maxDepth)
    requires forall h <- links :: h.delegatee != g.delegatee
    requires var last := links[|links| - 1];
             g.delegator == last.delegatee && g.expiresAt <= last.expiresAt && IsSubset(g.scopes, last.scopes)
    ensures WellLinked(links + [g], maxDepth)
  {
    var n := |links|;
    assert forall i | 0 <= i < n :: (links + [g])[i] == links[i];
    forall i | 0 <= i < n ensures g.expiresAt <= links[i].expiresAt && IsSubset(g.scopes, links[i].scopes) {
      assert IsSubset(links[n - 1].scopes, links[i].scopes);
    }
  }

  /** Every chain that can be built is short, acyclic, linked, and never outlives or outscopes an ancestor. */
  lemma {:induction false} BuiltChainsAreWellLinked(root: Grant, requests: seq<Request>, maxDepth: int)
    requires root.parent.None? && Build(root, requests, maxDepth).Ok?
    ensures WellLinked(Links(Build(root, requests, maxDepth).value), maxDepth)
    ensures |Links(Build(root, requests, maxDepth).value)| == |requests| + 1
    ensures Links(Build(root, requests, maxDepth).value)[0] == root
  {
    if requests != [] {
      var n := |requests| - 1;
      var parent := Build(root, requests[..n], maxDepth).value;
      BuiltChainsAreWellLinked(root, requests[..n], maxDepth);
      DelegateKeepsWellLinked(parent, requests[n], maxDepth);
      assert Links(Build(root, requests, maxDepth).value) == Links(parent) + [Build(root, requests, maxDepth).value];
    }
  }

  /** No Delegate call of the chain revives a list that its parent denies outright. */
  predicate Clean(root: Grant, requests: seq<Request>, maxDepth: int) {
    forall k | 0 <= k < |requests| ::
      Build(root, requests[..k], maxDepth).Ok? ==>
        RevivesNothing(Build(root, requests[..k], maxDepth).value.constraints, requests[k].constraints)
  }

  /** Whatever the leaf's constraints permit, those of every ancestor permit. */
  lemma {:induction false} LeafPermitsWithinAncestors(
      pdp: Pdp, ctx: Context, root: Grant, requests: seq<Request>, maxDepth: int, a: Action)
    requires root.parent.None? && Build(root, requests, maxDepth).Ok? && Clean(root, requests, maxDepth)
    requires Permit(pdp, ctx, Build(root, requests, maxDepth).value.constraints, a)
    ensures forall h <- Links(Build(root, requests, maxDepth).value) :: Permit(pdp, ctx, h.constraints, a)
  {
    if requests != [] {
      var n := |requests| - 1;
      var parent := Build(root, requests[..n], maxDepth).value;
      TightenNarrows(pdp, ctx, parent.constraints, requests[n].constraints, a);
      forall k | 0 <= k < n ensures requests[..n][..k] == requests[..k] {
      }
      LeafPermitsWithinAncestors(pdp, ctx, root, requests[..n], maxDepth, a);
    }
  }

  lemma {:induction false} BuildIsWellFormed(root: Grant, requests: seq<Request>, maxDepth: int)
    requires WellFormed(root.constraints) && forall r <- requests :: WellFormed(r.constraints)
    requires Build(root, requests, maxDepth).Ok?
    ensures WellFormed(Build(root, requests, maxDepth).value.constraints)
  {
    if requests != [] {
      var n := |requests| - 1;
      assert requests[n] in requests;
      BuildIsWellFormed(root, requests[..n], maxDepth);
      TightenWellFormed(Build(root, requests[..n], maxDepth).value.constraints, requests[n].constraints);
    }
  }

  /** Lists whose sentinel stands alone keep every chain clean. */
  lemma WellFormedIsClean(root: Grant, requests: seq<Request>, maxDepth: int)
    requires WellFormed(root.constraints) && forall r <- requests :: WellFormed(r.constraints)
    ensures Clean(root, requests, maxDepth)
    ensures Build(root, requests, maxDepth).Ok? ==> WellFormed(Build(root, requests, maxDepth).value.constraints)
  {
    forall k | 0 <= k < |requests| && Build(root, requests[..k], maxDepth).Ok?
      ensures RevivesNothing(Build(root, requests[..k], maxDepth).value.constraints, requests[k].constraints)
    {
      BuildIsWellFormed(root, requests[..k], maxDepth);
      assert requests[k] in requests;
      WellFormedRevivesNothing(Build(root, requests[..k], maxDepth).value.constraints, requests[k].constraints);
    }
    if Build(root, requests, maxDepth).Ok? {
      BuildIsWellFormed(root, requests, maxDepth);
    }
  }

  // ---- tokens --------------------------------------------------------------

  /** The act claim: the most recent actor outermost. */
  datatype Act = NoActor | Actor(sub: string, act: Act)

  /** A verified token body; encoding and signing are faithful and unforgeable. */
  datatype Claims = Claims(
    issuer: string, subject: string, audience: seq<string>, expiresAt: Instant, issuedAt: Instant, id: string,
    scope: string, act: Act, constraints: Option<Constraints>)

  /** jwt.NewNumericDate: whole seconds. */
  function NumericDate(t: Instant): (d: Instant)
    ensures d <= t < d + SECOND && d % SECOND == 0
  {
    t - t % SECOND
  }

  function Nest(actors: seq<string>): Act {
    if actors == [] then NoActor else Actor(actors[|actors| - 1], Nest(actors[..|actors| - 1]))
  }

  method BuildAct(actors: seq<string>) returns (act: Act)
    ensures act == Nest(actors)
  {
    act := NoActor;
    for i := 0 to |actors|
      invariant act == Nest(actors[..i])
    {
      assert actors[..i + 1][..i] == actors[..i];
      act := Actor(actors[i], act);
    }
    assert actors[..|actors|] == actors;
  }

  /** The acting principals, most recent first. */
  function ActorChain(act: Act): seq<string> {
    match act
    case NoActor => []
    case Actor(sub, inner) => [sub] + ActorChain(inner)
  }

  function ProvenanceParts(c: Claims): seq<string> {
    [c.subject] + Reverse(ActorChain(c.act))
  }

  method ComputeActorChain(act: Act) returns (chain: seq<string>)
    ensures chain == ActorChain(act)
  {
    chain := [];
    var a := act;
    while a.Actor?
      invariant chain + ActorChain(a) == ActorChain(act)
      decreases a
    {
      assert chain + ([a.sub] + ActorChain(a.act)) == (chain + [a.sub]) + ActorChain(a.act);
      chain := chain + [a.sub];
      a := a.act;
    }
    assert chain + ActorChain(a) == chain;
  }

  method Provenance(c: Claims) returns (path: string)
    ensures path == Join(ProvenanceParts(c), " -> ")
  {
    var chain := ComputeActorChain(c.act);
    var parts := [c.subject];
    var i := |chain|;
    while i > 0
      invariant 0 <= i <= |chain|
      invariant parts == [c.subject] + Reverse(chain)[..|chain| - i]
    {
      i := i - 1;
      parts := parts + [chain[i]];
    }
    assert Reverse(chain)[..|chain|] == Reverse(chain);
    path := Join(parts, " -> ");
  }

  lemma {:induction false} ActorChainOfNest(actors: seq<string>)
    ensures ActorChain(Nest(actors)) == Reverse(actors)
  {
    if actors != [] {
      ActorChainOfNest(actors[..|actors| - 1]);
      assert Reverse(actors) == [actors[|actors| - 1]] + Reverse(actors[..|actors| - 1]);
    }
  }

  function IssueClaims(
      issuer: string, subject: string, act: Act, scopes: seq<string>, audience: string,
      constraints: Option<Constraints>, exp: Instant, now: Instant, jti: string): Claims
  {
    Claims(issuer, subject, [audience], NumericDate(exp), NumericDate(now), jti, Join(scopes, " "), act, constraints)
  }

  function IssueForGrant(
      issuer: string, g: Grant, requested: seq<string>, audience: string, now: Instant, jti: string): Result<Claims>
  {
    var effective := Attenuate(g.scopes, requested);
    if effective == [] then Err("no effective scopes")
    else if g.constraints.resources != [] && audience !in g.constraints.resources then Err("audience not permitted")
    else Ok(IssueClaims(
              issuer, Links(g)[0].delegator, Nest(Delegatees(g)), effective, audience,
              Some(g.constraints), g.expiresAt, now, jti))
  }

  /** As IssueForGrant, but for the grant's whole scope and without binding the audience to its resources. */
  function MintGrant(issuer: string, g: Grant, audience: string, now: Instant, jti: string): Claims {
    IssueClaims(
      issuer, Links(g)[0].delegator, Nest(Delegatees(g)), g.scopes, audience,
      Some(g.constraints), g.expiresAt, now, jti)
  }

  /** Decoding an issued token's act claims gives back the root delegator and the delegatees in order. */
  lemma ProvenanceRoundTrip(
      issuer: string, g: Grant, audience: string, now: Instant, jti: string, requested: seq<string>)
    ensures ProvenanceParts(MintGrant(issuer, g, audience, now, jti)) == [Links(g)[0].delegator] + Delegatees(g)
    ensures var r := IssueForGrant(issuer, g, requested, audience, now, jti);
            r.Ok? ==> ProvenanceParts(r.value) == [Links(g)[0].delegator] + Delegatees(g)
  {
    ActorChainOfNest(Delegatees(g));
    ReverseTwice(Delegatees(g));
  }

  predicate HasScope(scope: string, s: string) {
    s in Fields(scope)
  }

  predicate Authorize(pdp: Pdp, ctx: Context, c: Claims, a: Action) {
    HasScope(c.scope, a.scope) && (c.constraints.Some? ==> Permit(pdp, ctx, c.constraints.value, a))
  }

  /**
   What a token authorizes, at either decision point: an action whose scope stands as a
   word in the token's scope string, within every constraint the token carries.
   */
  lemma AuthorizeIff(pdp: Pdp, ctx: Context, c: Claims, a: Action)
    ensures Authorize(pdp, ctx, c, a) <==>
              StandsIn(c.scope, a.scope) && (c.constraints.Some? ==> Permit(pdp, ctx, c.constraints.value, a))
    ensures Authorize(pdp, ctx, c, a) && c.constraints.Some? && c.constraints.value.maxAmount.Some? ==>
              a.amount <= c.constraints.value.maxAmount.value
  {
    InFields(c.scope, a.scope);
    if c.constraints.Some? {
      PermitIff(pdp, ctx, c.constraints.value, a);
    }
  }

  /** The grant holds a scope string of which s is a word. */
  predicate Holds(scopes: seq<string>, s: string) {
    exists p <- scopes :: s in Fields(p)
  }

  lemma JoinedScopes(scopes: seq<string>, s: string)
    ensures HasScope(Join(scopes, " "), s) <==> Holds(scopes, s)
    ensures (forall p <- scopes :: IsWord(p)) ==> (Holds(scopes, s) <==> s in scopes)
  {
    FieldsOfJoin(scopes);
    InWords(scopes, s);
    if forall p <- scopes :: IsWord(p) {
      WordsOfWords(scopes);
    }
  }

  /** The token speaks for g, with some of its scopes and all of its constraints. */
  predicate IssuedUnder(c: Claims, g: Grant, scopes: seq<string>) {
    && IsSubset(scopes, g.scopes)
    && c.scope == Join(scopes, " ")
    && c.constraints == Some(g.constraints)
    && c.expiresAt <= g.expiresAt
  }

  lemma IssuedTokens(issuer: string, g: Grant, requested: seq<string>, audience: string, now: Instant, jti: string)
    ensures IssuedUnder(MintGrant(issuer, g, audience, now, jti), g, g.scopes)
    ensures var r := IssueForGrant(issuer, g, requested, audience, now, jti);
            r.Ok? ==> IssuedUnder(r.value, g, Attenuate(g.scopes, requested))
  {
  }

  /** A token for the grant: who, for whom, from when to when, under which id, with which actors and constraints. */
  predicate SpeaksFor(
      c: Claims, g: Grant, issuer: string, audience: string, now: Instant, jti: string)
  {
    && c.issuer == issuer && c.audience == [audience] && c.id == jti
    && c.subject == Links(g)[0].delegator && ActorChain(c.act) == Reverse(Delegatees(g))
    && c.constraints == Some(g.constraints)
    && c.expiresAt <= g.expiresAt < c.expiresAt + SECOND && c.expiresAt % SECOND == 0
    && c.issuedAt <= now < c.issuedAt + SECOND && c.issuedAt % SECOND == 0
  }

  /**
   IssueForGrant succeeds exactly when some requested scope is the grant's and the grant
   does not bind its audience elsewhere; the token then holds just those scopes.
   */
  lemma IssuedTokenIff(issuer: string, g: Grant, requested: seq<string>, audience: string, now: Instant, jti: string)
    ensures var r := IssueForGrant(issuer, g, requested, audience, now, jti);
            && (r.Ok? <==>
                  && (exists s <- requested :: s in g.scopes)
                  && (g.constraints.resources == [] || audience in g.constraints.resources))
            && (r.Ok? ==>
                  && SpeaksFor(r.value, g, issuer, audience, now, jti)
                  && forall w :: w in Fields(r.value.scope) <==>
                       exists s <- requested :: s in g.scopes && w in Fields(s))
  {
    var effective := Attenuate(g.scopes, requested);
    ActorChainOfNest(Delegatees(g));
    FilterEmpty(requested, MemberOf(g.scopes));
    forall w ensures w in Fields(Join(effective, " ")) <==> exists s <- requested :: s in g.scopes && w in Fields(s) {
      JoinedScopes(effective, w);
    }
  }

  /** And MintGrant's token always does, with all the grant's scopes. */
  lemma MintedToken(issuer: string, g: Grant, audience: string, now: Instant, jti: string)
    ensures var c := MintGrant(issuer, g, audience, now, jti);
            && SpeaksFor(c, g, issuer, audience, now, jti)
            && forall w :: w in Fields(c.scope) <==> exists s <- g.scopes :: w in Fields(s)
  {
    ActorChainOfNest(Delegatees(g));
    forall w ensures w in Fields(Join(g.scopes, " ")) <==> exists s <- g.scopes :: w in Fields(s) {
      JoinedScopes(g.scopes, w);
    }
  }

  /**
   The central law: whatever a token issued for the leaf of a chain authorizes, at
   either decision point, every ancestor grant holds and permits, for as long.
   */
  lemma TokenWithinAncestors(
      pdp: Pdp, ctx: Context, root: Grant, requests: seq<Request>, maxDepth: int,
      scopes: seq<string>, c: Claims, a: Action)
    requires root.parent.None? && Build(root, requests, maxDepth).Ok? && Clean(root, requests, maxDepth)
    requires IssuedUnder(c, Build(root, requests, maxDepth).value, scopes)
    requires Authorize(pdp, ctx, c, a)
    ensures forall h <- Links(Build(root, requests, maxDepth).value) ::
              Holds(h.scopes, a.scope) && Permit(pdp, ctx, h.constraints, a) && c.expiresAt <= h.expiresAt
    ensures (forall p <- root.scopes :: IsWord(p)) ==>
              forall h <- Links(Build(root, requests, maxDepth).value) :: a.scope in h.scopes
  {
    var links := Links(Build(root, requests, maxDepth).value);
    BuiltChainsAreWellLinked(root, requests, maxDepth);
    LeafPermitsWithinAncestors(pdp, ctx, root, requests, maxDepth, a);
    JoinedScopes(scopes, a.scope);
    forall h | h in links
      ensures Holds(h.scopes, a.scope) && c.expiresAt <= h.expiresAt
      ensures IsSubset(scopes, h.scopes) && IsSubset(h.scopes, root.scopes)
    {
      var i :| 0 <= i < |links| && links[i] == h;
      assert IsSubset(links[|links| - 1].scopes, h.scopes);
      var p :| p in scopes && a.scope in Fields(p);
      assert p in h.scopes;
    }
    if forall p <- root.scopes :: IsWord(p) {
      forall h | h in links ensures a.scope in h.scopes {
        JoinedScopes(h.scopes, a.scope);
      }
    }
  }
}
