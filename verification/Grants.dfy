/**
 Declared grants reconciled into a directory of signed tokens. Apply mints a token for
 each declared grant whose file is missing or whose fingerprint differs, and leaves
 the rest alone.
 */
module Grants {
  import opened Sequences
  import opened Wrappers
  import opened Text
  import opened Policy
  import opened Chains

  // ---- the declared file ---------------------------------------------------

  /** Constraints as declared; clock times already read as minutes of the day. */
  datatype ChildSpec = ChildSpec(agent: string, scopes: seq<string>, constraints: Constraints)

  datatype GrantSpec = GrantSpec(
    name: string, principal: string, agent: string, scopes: seq<string>, audience: string, ttl: int,
    constraints: Constraints, delegates: seq<ChildSpec>)

  /** TimeWindow.Validate and the amount check. */
  predicate Acceptable(c: Constraints, knownZones: set<string>) {
    && (c.maxAmount.Some? ==> c.maxAmount.value >= 0.0)
    && (c.window.Some? ==>
          var w := c.window.value;
          && 0 <= w.startMin <= w.endMin <= 1439
          && (forall d <- w.weekdays.GetOr([]) :: 0 <= d <= 6)
          && (w.tz == "" || w.tz in knownZones))
  }

  predicate IsFileChar(c: char) {
    'a' <= c <= 'z' || 'A' <= c <= 'Z' || '0' <= c <= '9' || c in {'-', '_', '.'}
  }

  function TrimDashes(s: string): string {
    if s != "" && s[0] == '-' then TrimDashes(s[1..])
    else if s != "" && s[|s| - 1] == '-' then TrimDashes(s[..|s| - 1])
    else s
  }

  function Sanitize(s: string): string {
    var t := TrimDashes(Dashed(s));
    if t == "" then "grant" else t
  }

  /** Declared constraints are accepted when they can be met at all: some minute of the day lies in their hours. */
  lemma AcceptableIff(c: Constraints, knownZones: set<string>)
    ensures Acceptable(c, knownZones)
       <==> !(c.maxAmount.Some? && c.maxAmount.value < 0.0) && (c.window.Some? ==> Meetable(c.window.value, knownZones))
  {
    if c.window.Some? {
      HoursIff(c.window.value.startMin, c.window.value.endMin);
    }
  }

  predicate Meetable(w: TimeWindow, knownZones: set<string>) {
    && MinuteBetween(w.startMin, w.endMin)
    && (w.weekdays.Some? ==> forall d <- w.weekdays.value :: 0 <= d < 7)
    && (w.tz != "" ==> w.tz in knownZones)
  }

  predicate MinuteBetween(start: int, end: int) {
    start in DAY && end in DAY && exists minute <- DAY :: start <= minute <= end
  }

  lemma HoursIff(start: int, end: int)
    ensures 0 <= start <= end <= 1439 <==> MinuteBetween(start, end)
  {
    if 0 <= start <= end <= 1439 {
      assert start in DAY && start <= start <= end;
    }
  }

  /** The minutes of a day. */
  const DAY: set<int> := set minute | 0 <= minute < 1440

  lemma {:induction false} Trimmed(s: string) returns (lo: nat, hi: nat)
    ensures lo <= hi <= |s| && TrimDashes(s) == s[lo..hi]
    ensures forall i | 0 <= i < |s| && !(lo <= i < hi) :: s[i] == '-'
    ensures lo < hi ==> s[lo] != '-' && s[hi - 1] != '-'
    decreases |s|
  {
    if s != "" && s[0] == '-' {
      var rest := s[1..];
      lo, hi := Trimmed(rest);
      assert rest[lo..hi] == s[lo + 1..hi + 1];
      forall i | 1 <= i < |s| && !(lo + 1 <= i < hi + 1) ensures s[i] == '-' {
        assert rest[i - 1] == '-';
      }
      lo, hi := lo + 1, hi + 1;
    } else if s != "" && s[|s| - 1] == '-' {
      var rest := s[..|s| - 1];
      lo, hi := Trimmed(rest);
      assert rest[lo..hi] == s[lo..hi];
      forall i | 0 <= i < |s| - 1 && !(lo <= i < hi) ensures s[i] == '-' {
        assert rest[i] == '-';
      }
    } else {
      lo, hi := 0, |s|;
    }
  }

  function Dashed(s: string): string {
    seq(|s|, i requires 0 <= i < |s| => if IsFileChar(s[i]) then s[i] else '-')
  }

  /**
   A file name from a label: its characters in order, each unsafe one a dash, without
   the dashes at either end; never empty, and never a path.
   */
  lemma Sanitized(s: string) returns (lo: nat, hi: nat)
    ensures lo <= hi <= |s|
    ensures forall i | 0 <= i < |s| && !(lo <= i < hi) :: s[i] == '-' || !IsFileChar(s[i])
    ensures if lo == hi then Sanitize(s) == "grant"
            else |Sanitize(s)| == hi - lo
                 && (forall i | 0 <= i < hi - lo ::
                       Sanitize(s)[i] == if IsFileChar(s[lo + i]) then s[lo + i] else '-')
                 && Sanitize(s)[0] != '-' && Sanitize(s)[hi - lo - 1] != '-'
  {
    lo, hi := Trimmed(Dashed(s));
    forall i | 0 <= i < |s| && !(lo <= i < hi) ensures s[i] == '-' || !IsFileChar(s[i]) {
      assert Dashed(s)[i] == '-';
    }
  }

  /** The safe characters by code: digits, capitals, small letters, dash, dot and underscore. */
  lemma FileChars(c: char)
    ensures IsFileChar(c) <==>
              var code := c as int;
              48 <= code < 58 || 65 <= code < 91 || 97 <= code < 123 || code == 45 || code == 46 || code == 95
  {
  }

  lemma SafeFileName(s: string)
    ensures Sanitize(s) != "" && '/' !in Sanitize(s) && '\\' !in Sanitize(s)
  {
    var lo, hi := Sanitized(s);
  }

  datatype Node = Node(file: string, grant: Grant, audience: string)

  function ChildFile(spec: GrantSpec, c: ChildSpec): string {
    Sanitize(spec.name) + "__" + Sanitize(c.agent) + ".jwt"
  }

  function ChildRequest(spec: GrantSpec, c: ChildSpec, now: Instant): Request {
    Request(c.agent, c.scopes, c.constraints, spec.ttl, now)
  }

  function RootOf(spec: GrantSpec, now: Instant): Grant {
    NewRootGrant(spec.principal, spec.agent, spec.scopes, spec.constraints, spec.ttl, now)
  }

  function ChildNodes(
      spec: GrantSpec, root: Grant, children: seq<ChildSpec>, knownZones: set<string>, now: Instant): Result<seq<Node>>
  {
    if children == [] then Ok([])
    else
      var n := |children| - 1;
      var c := children[n];
      match ChildNodes(spec, root, children[..n], knownZones, now)
      case Err(e) => Err(e)
      case Ok(nodes) =>
        if c.agent == "" then Err("agent is required")
        else if !Acceptable(c.constraints, knownZones) then Err("constraints")
        else
          match Delegate(root, ChildRequest(spec, c, now), DEFAULT_MAX_DEPTH)
          case Err(e) => Err(e)
          case Ok(child) =>
            Ok(nodes + [Node(ChildFile(spec, c), child, spec.audience)])
  }

  function BuildTree(spec: GrantSpec, knownZones: set<string>, now: Instant): Result<seq<Node>> {
    if spec.ttl <= 0 then Err("ttl must be positive")
    else if !Acceptable(spec.constraints, knownZones) then Err("constraints")
    else
      var root := RootOf(spec, now);
      match ChildNodes(spec, root, spec.delegates, knownZones, now)
      case Err(e) => Err(e)
      case Ok(nodes) => Ok([Node(Sanitize(spec.name) + ".jwt", root, spec.audience)] + nodes)
  }

  function AllNodes(specs: seq<GrantSpec>, knownZones: set<string>, now: Instant): Result<seq<Node>> {
    if specs == [] then Ok([])
    else
      var n := |specs| - 1;
      match AllNodes(specs[..n], knownZones, now)
      case Err(e) => Err(e)
      case Ok(nodes) =>
        match BuildTree(specs[n], knownZones, now)
        case Err(e) => Err(e)
        case Ok(more) => Ok(nodes + more)
  }

  // ---- tokens and fingerprints ---------------------------------------------

  /** A token read back from its file; a file can also hold anything else. */
  datatype Body = Body(
    subject: string, audience: string, scope: string, act: Act, constraints: Option<Constraints>, id: string,
    expiresAt: Instant)

  datatype Content = Token(body: Body) | Junk

  /** Encoding drops an empty weekday list, and decoding then yields a nil one. */
  function Reread(c: Constraints): Constraints {
    if c.window.Some? && c.window.value.weekdays == Some([]) then
      c.(window := Some(c.window.value.(weekdays := None)))
    else c
  }

  /** What reading back a freshly written token yields; MintGrant names one audience. */
  function Written(c: Claims, audience: string): Body {
    var constraints := if c.constraints.None? then None else Some(Reread(c.constraints.value));
    Body(c.subject, audience, c.scope, c.act, constraints, c.id, c.expiresAt)
  }

  function Mint(issuer: string, n: Node, now: Instant, jti: string): Body {
    Written(MintGrant(issuer, n.grant, n.audience, now, jti), n.audience)
  }

  /** The authority-defining fields. Sorted copies are kept as multisets. */
  datatype Fingerprint = Fingerprint(
    subject: string, chain: seq<string>, scope: multiset<string>, audience: string,
    categories: multiset<string>, tools: multiset<string>, resources: multiset<string>,
    maxAmount: Option<real>, window: Option<TimeWindow>)

  function FingerprintOf(
      chain: seq<string>, scopes: seq<string>, audience: string, c: Constraints): Fingerprint
    requires chain != []
  {
    Fingerprint(
      chain[0], chain, multiset(scopes), audience,
      multiset(c.categories), multiset(c.tools), multiset(c.resources), c.maxAmount, c.window)
  }

  function FingerprintGrant(n: Node): Fingerprint {
    FingerprintOf([Links(n.grant)[0].delegator] + Delegatees(n.grant), n.grant.scopes, n.audience, n.grant.constraints)
  }

  function FingerprintToken(b: Body): Fingerprint {
    FingerprintOf(
      [b.subject] + Reverse(ActorChain(b.act)), Fields(b.scope), b.audience, b.constraints.GetOr(UNRESTRICTED))
  }

  /** A grant whose token carries it faithfully. */
  predicate Representable(n: Node) {
    && (forall s <- n.grant.scopes :: IsWord(s))
    && (n.grant.constraints.window.Some? ==> n.grant.constraints.window.value.weekdays != Some([]))
  }

  lemma {:induction false} WordsAreWords(parts: seq<string>)
    ensures forall w <- Words(parts) :: IsWord(w)
  {
    if parts != [] {
      SplitYieldsWords(parts[0], "");
      WordsAreWords(parts[1..]);
    }
  }

  /** Equal fingerprints are equal authority: the whole chain, the audience, and every constraint but the rate. */
  lemma FingerprintCovers(a: Node, b: Node)
    ensures FingerprintGrant(a) == FingerprintGrant(b) <==>
              && Links(a.grant)[0].delegator == Links(b.grant)[0].delegator
              && Delegatees(a.grant) == Delegatees(b.grant) && a.audience == b.audience
              && multiset(a.grant.scopes) == multiset(b.grant.scopes)
              && multiset(a.grant.constraints.categories) == multiset(b.grant.constraints.categories)
              && multiset(a.grant.constraints.tools) == multiset(b.grant.constraints.tools)
              && multiset(a.grant.constraints.resources) == multiset(b.grant.constraints.resources)
              && a.grant.constraints.maxAmount == b.grant.constraints.maxAmount
              && a.grant.constraints.window == b.grant.constraints.window
  {
    var x := [Links(a.grant)[0].delegator] + Delegatees(a.grant);
    var y := [Links(b.grant)[0].delegator] + Delegatees(b.grant);
    assert x[0] == Links(a.grant)[0].delegator && x[1..] == Delegatees(a.grant);
    assert y[0] == Links(b.grant)[0].delegator && y[1..] == Delegatees(b.grant);
  }

  /** What a freshly written file holds. */
  lemma MintedBody(issuer: string, n: Node, now: Instant, jti: string)
    ensures var b := Mint(issuer, n, now, jti);
            && b.id == jti && b.audience == n.audience && b.subject == Links(n.grant)[0].delegator
            && ActorChain(b.act) == Reverse(Delegatees(n.grant))
            && (forall w :: w in Fields(b.scope) <==> exists s <- n.grant.scopes :: w in Fields(s))
            && b.expiresAt <= n.grant.expiresAt < b.expiresAt + SECOND && b.expiresAt % SECOND == 0
            && b.constraints.Some? && b.constraints.value.(window := None) == n.grant.constraints.(window := None)
            && (n.grant.constraints.window.Some? ==>
                  && b.constraints.value.window.Some?
                  && b.constraints.value.window.value.(weekdays := None)
                     == n.grant.constraints.window.value.(weekdays := None)
                  && b.constraints.value.window.value.weekdays.GetOr([])
                     == n.grant.constraints.window.value.weekdays.GetOr([]))
            && (n.grant.constraints.window.None? ==> b.constraints.value.window.None?)
  {
    MintedToken(issuer, n.grant, n.audience, now, jti);
  }

  lemma ActorsRead(actors: seq<string>)
    ensures Reverse(ActorChain(Nest(actors))) == actors
  {
    ActorChainOfNest(actors);
    ReverseTwice(actors);
  }

  lemma WrittenFingerprint(c: Claims, audience: string, constraints: Constraints)
    requires c.constraints == Some(constraints)
    ensures FingerprintToken(Written(c, audience))
            == FingerprintOf(
                 [c.subject] + Reverse(ActorChain(c.act)), Fields(c.scope), audience, Reread(constraints))
  {
  }

  /** What fingerprinting a minted token reads. */
  lemma MintedFingerprint(issuer: string, n: Node, now: Instant, jti: string)
    ensures FingerprintToken(Mint(issuer, n, now, jti))
            == FingerprintOf(
                 [Links(n.grant)[0].delegator] + Delegatees(n.grant), Words(n.grant.scopes), n.audience,
                 Reread(n.grant.constraints))
  {
    ActorsRead(Delegatees(n.grant));
    FieldsOfJoin(n.grant.scopes);
    WrittenFingerprint(MintGrant(issuer, n.grant, n.audience, now, jti), n.audience, n.grant.constraints);
  }

  /** Reading back a minted token gives words for scopes and no empty weekday list. */
  lemma MintedIsRepresentable(issuer: string, n: Node, now: Instant, jti: string)
    ensures var f := FingerprintToken(Mint(issuer, n, now, jti));
            (forall s <- f.scope :: IsWord(s)) && (f.window.Some? ==> f.window.value.weekdays != Some([]))
  {
    MintedFingerprint(issuer, n, now, jti);
    WordsAreWords(n.grant.scopes);
  }

  lemma RepresentableByFingerprint(n: Node)
    ensures var f := FingerprintGrant(n);
            Representable(n) <==>
            (forall s <- f.scope :: IsWord(s)) && (f.window.Some? ==> f.window.value.weekdays != Some([]))
  {
    assert forall s :: s in FingerprintGrant(n).scope <==> s in n.grant.scopes;
  }

  /** Fingerprinting a minted token gives back the grant's own fingerprint exactly for representable grants. */
  lemma FingerprintInvertsMint(issuer: string, n: Node, now: Instant, jti: string)
    ensures FingerprintToken(Mint(issuer, n, now, jti)) == FingerprintGrant(n) <==> Representable(n)
  {
    MintedFingerprint(issuer, n, now, jti);
    MintedIsRepresentable(issuer, n, now, jti);
    RepresentableByFingerprint(n);
    if Representable(n) {
      WordsOfWords(n.grant.scopes);
    }
  }

  // ---- applying ------------------------------------------------------------

  type Dir = map<string, Content>

  datatype Action = Create | Update | Unchanged
  datatype Change = Change(file: string, action: Action)
  datatype Outcome = Outcome(dir: Dir, changes: seq<Change>, minted: nat)

  /** What a run mints with: the issuer, the time, and the ids it draws, in order. */
  datatype Minter = Minter(issuer: string, now: Instant, jtis: nat -> string, force: bool)

  predicate Matches(dir: Dir, n: Node) {
    n.file in dir && dir[n.file].Token? && FingerprintToken(dir[n.file].body) == FingerprintGrant(n)
  }

  function ApplyNode(o: Outcome, n: Node, m: Minter): Outcome {
    if Matches(o.dir, n) && !m.force then o.(changes := o.changes + [Change(n.file, Unchanged)])
    else
      Outcome(
        o.dir[n.file := Token(Mint(m.issuer, n, m.now, m.jtis(o.minted)))],
        o.changes + [Change(n.file, if n.file in o.dir then Update else Create)],
        o.minted + 1)
  }

  function ApplyNodes(o: Outcome, nodes: seq<Node>, m: Minter): Outcome {
    if nodes == [] then o else ApplyNode(ApplyNodes(o, nodes[..|nodes| - 1], m), nodes[|nodes| - 1], m)
  }

  function Fresh(dir: Dir): Outcome {
    Outcome(dir, [], 0)
  }

  lemma {:induction false} ApplyConcat(o: Outcome, a: seq<Node>, b: seq<Node>, m: Minter)
    ensures ApplyNodes(o, a + b, m) == ApplyNodes(ApplyNodes(o, a, m), b, m)
  {
    if b == [] {
      assert a + b == a;
    } else {
      assert (a + b)[..|a + b| - 1] == a + b[..|b| - 1];
      ApplyConcat(o, a, b[..|b| - 1], m);
    }
  }

  predicate IsTokenFile(name: string) {
    |name| >= 4 && name[|name| - 4..] == ".jwt" && name != "feed.jwt"
  }

  /** Token files in the directory that no declared node covers. */
  function Orphans(dir: Dir, nodes: seq<Node>): set<string> {
    set f | f in dir && IsTokenFile(f) && forall n <- nodes :: n.file != f
  }

  datatype ApplyResult = ApplyResult(changes: seq<Change>, minted: nat, orphans: set<string>)

  class Setup {
    var dir: Dir

    constructor (dir: Dir)
      ensures this.dir == dir
    {
      this.dir := dir;
    }

    /** Reconciles the nodes of one declared grant. */
    method ApplyTree(nodes: seq<Node>, m: Minter, changesBefore: seq<Change>, mintedBefore: nat)
      returns (changes: seq<Change>, minted: nat)
      modifies this
      ensures Outcome(dir, changes, minted) == ApplyNodes(Outcome(old(dir), changesBefore, mintedBefore), nodes, m)
    {
      changes, minted := changesBefore, mintedBefore;
      for i := 0 to |nodes|
        invariant Outcome(dir, changes, minted)
               == ApplyNodes(Outcome(old(dir), changesBefore, mintedBefore), nodes[..i], m)
      {
        assert nodes[..i + 1][..i] == nodes[..i];
        var n := nodes[i];
        var action := Create;
        if n.file in dir {
          action := if Matches(dir, n) then Unchanged else Update;
        }
        if action != Unchanged || m.force {
          dir := dir[n.file := Token(Mint(m.issuer, n, m.now, m.jtis(minted)))];
          minted := minted + 1;
          if action == Unchanged {
            action := Update;
          }
        }
        changes := changes + [Change(n.file, action)];
      }
      assert nodes[..|nodes|] == nodes;
    }

    /** Reconciles grant by grant; on an error, what was written for earlier grants stays. */
    method Apply(specs: seq<GrantSpec>, knownZones: set<string>, m: Minter) returns (r: Result<ApplyResult>)
      modifies this
      ensures r.Ok? <==> AllNodes(specs, knownZones, m.now).Ok?
      ensures r.Ok? ==>
                var nodes := AllNodes(specs, knownZones, m.now).value;
                var o := ApplyNodes(Fresh(old(dir)), nodes, m);
                && dir == o.dir && r.value.changes == o.changes && r.value.minted == o.minted
                && r.value.orphans == set f | && f in dir && |f| >= 4 && f[|f| - 4..] == ".jwt" && f != "feed.jwt"
                                              && forall n <- nodes :: n.file != f
      ensures r.Err? ==>
                exists k | 0 <= k < |specs| ::
                  && AllNodes(specs[..k], knownZones, m.now).Ok? && BuildTree(specs[k], knownZones, m.now).Err?
                  && dir == ApplyNodes(Fresh(old(dir)), AllNodes(specs[..k], knownZones, m.now).value, m).dir
    {
      var declared: seq<Node> := [];
      var changes: seq<Change> := [];
      var minted := 0;
      for k := 0 to |specs|
        invariant AllNodes(specs[..k], knownZones, m.now) == Ok(declared)
        invariant Outcome(dir, changes, minted) == ApplyNodes(Fresh(old(dir)), declared, m)
      {
        assert specs[..k + 1][..k] == specs[..k];
        var tree := BuildTree(specs[k], knownZones, m.now);
        if tree.Err? {
          FailsAt(specs, knownZones, m.now, k);
          return Err(tree.error);
        }
        var nodes := tree.value;
        changes, minted := ApplyTree(nodes, m, changes, minted);
        ApplyConcat(Fresh(old(dir)), declared, nodes, m);
        declared := declared + nodes;
      }
      assert specs[..|specs|] == specs;
      return Ok(ApplyResult(changes, minted, Orphans(dir, declared)));
    }
  }

  lemma {:induction false} FailsAt(specs: seq<GrantSpec>, knownZones: set<string>, now: Instant, k: nat)
    requires k < |specs| && BuildTree(specs[k], knownZones, now).Err?
    ensures AllNodes(specs, knownZones, now).Err?
  {
    if k < |specs| - 1 {
      FailsAt(specs[..|specs| - 1], knownZones, now, k);
    }
  }

  // ---- convergence ---------------------------------------------------------

  /** Nodes that share a file declare the same authority. */
  predicate FilesAgree(nodes: seq<Node>) {
    forall i, j | 0 <= i < j < |nodes| && nodes[i].file == nodes[j].file ::
      FingerprintGrant(nodes[i]) == FingerprintGrant(nodes[j])
  }

  /** Reconciling one node makes it match, keeps agreeing nodes matching, and touches no other file. */
  lemma ApplyNodeEffect(o: Outcome, n: Node, m: Minter)
    requires Representable(n)
    ensures var after := ApplyNode(o, n, m).dir;
            && Matches(after, n)
            && (forall p :: Matches(o.dir, p) && (p.file == n.file ==> FingerprintGrant(p) == FingerprintGrant(n)) ==>
                  Matches(after, p))
            && (forall f | f != n.file :: (f in after <==> f in o.dir) && (f in o.dir ==> after[f] == o.dir[f]))
  {
    FingerprintInvertsMint(m.issuer, n, m.now, m.jtis(o.minted));
  }

  /** One run leaves every declared file with a token of the declared fingerprint, and touches no other file. */
  lemma {:induction false} ApplyConverges(o: Outcome, nodes: seq<Node>, m: Minter)
    requires FilesAgree(nodes) && forall n <- nodes :: Representable(n)
    ensures var after := ApplyNodes(o, nodes, m);
            && (forall n <- nodes :: Matches(after.dir, n))
            && (forall f :: (forall n <- nodes :: n.file != f) ==>
                  (f in after.dir <==> f in o.dir) && (f in o.dir ==> after.dir[f] == o.dir[f]))
  {
    if nodes != [] {
      var last := |nodes| - 1;
      assert forall n :: n in nodes <==> n in nodes[..last] || n == nodes[last];
      ApplyConverges(o, nodes[..last], m);
      ApplyNodeEffect(ApplyNodes(o, nodes[..last], m), nodes[last], m);
    }
  }

  function AllUnchanged(nodes: seq<Node>): seq<Change> {
    seq(|nodes|, i requires 0 <= i < |nodes| => Change(nodes[i].file, Unchanged))
  }

  /** What a run should report for a node, judged by the directory it starts from. */
  function ExpectedAction(dir: Dir, n: Node, force: bool): Action {
    if n.file !in dir then Create else if Matches(dir, n) && !force then Unchanged else Update
  }

  function ExpectedChanges(dir: Dir, nodes: seq<Node>, force: bool): seq<Change> {
    seq(|nodes|, i requires 0 <= i < |nodes| => Change(nodes[i].file, ExpectedAction(dir, nodes[i], force)))
  }

  function MintedNodes(dir: Dir, nodes: seq<Node>, force: bool): nat {
    if nodes == [] then 0
    else
      var n := |nodes| - 1;
      MintedNodes(dir, nodes[..n], force) + if ExpectedAction(dir, nodes[n], force) == Unchanged then 0 else 1
  }

  /** A run touches no file but its nodes'. */
  lemma {:induction false} OtherFilesStay(o: Outcome, nodes: seq<Node>, m: Minter, f: string)
    requires forall n <- nodes :: n.file != f
    ensures var after := ApplyNodes(o, nodes, m).dir;
            (f in after <==> f in o.dir) && (f in o.dir ==> after[f] == o.dir[f])
  {
    if nodes != [] {
      var last := |nodes| - 1;
      assert nodes[last] in nodes;
      OtherFilesStay(o, nodes[..last], m, f);
    }
  }

  /** A file holds what the last node to name it left there: a new token with the next id, or what already matched. */
  lemma LastWriter(o: Outcome, nodes: seq<Node>, m: Minter, i: nat)
    requires i < |nodes| && forall j | i < j < |nodes| :: nodes[j].file != nodes[i].file
    ensures var before, after := ApplyNodes(o, nodes[..i], m), ApplyNodes(o, nodes, m).dir;
            var n := nodes[i];
            && n.file in after
            && after[n.file] == if Matches(before.dir, n) && !m.force then before.dir[n.file]
                                else Token(Mint(m.issuer, n, m.now, m.jtis(before.minted)))
  {
    var head, tail := nodes[..i + 1], nodes[i + 1..];
    assert nodes == head + tail && head[..i] == nodes[..i];
    ApplyConcat(o, head, tail, m);
    OtherFilesStay(ApplyNodes(o, head, m), tail, m, nodes[i].file);
  }

  lemma {:induction false} ForcedMints(o: Outcome, nodes: seq<Node>, m: Minter)
    requires m.force
    ensures ApplyNodes(o, nodes, m).minted == o.minted + |nodes|
  {
    if nodes != [] {
      ForcedMints(o, nodes[..|nodes| - 1], m);
    }
  }

  /** A forced run writes every file anew, matching or not: each holds a token with its own new id and a new expiry. */
  lemma ForcedRun(o: Outcome, nodes: seq<Node>, m: Minter, i: nat)
    requires m.force && i < |nodes| && forall j | i < j < |nodes| :: nodes[j].file != nodes[i].file
    ensures ApplyNodes(o, nodes, m).minted == o.minted + |nodes|
    ensures var after := ApplyNodes(o, nodes, m).dir;
            && nodes[i].file in after && after[nodes[i].file].Token?
            && var b := after[nodes[i].file].body;
               && b.id == m.jtis(o.minted + i)
               && b.expiresAt <= nodes[i].grant.expiresAt < b.expiresAt + SECOND
  {
    LastWriter(o, nodes, m, i);
    ForcedMints(o, nodes, m);
    ForcedMints(o, nodes[..i], m);
    MintedBody(m.issuer, nodes[i], m.now, m.jtis(o.minted + i));
  }

  lemma ReportStep(dir: Dir, o: Outcome, n: Node, m: Minter)
    requires (n.file in o.dir <==> n.file in dir) && (n.file in dir ==> o.dir[n.file] == dir[n.file])
    ensures var action := ExpectedAction(dir, n, m.force);
            && ApplyNode(o, n, m).changes == o.changes + [Change(n.file, action)]
            && ApplyNode(o, n, m).minted == o.minted + if action == Unchanged then 0 else 1
  {
    assert Matches(o.dir, n) <==> Matches(dir, n);
  }

  /** With distinct files, a run reports and mints just what the directory it found calls for. */
  lemma {:induction false} ReportIsExact(dir: Dir, nodes: seq<Node>, m: Minter)
    requires forall i, j | 0 <= i < j < |nodes| :: nodes[i].file != nodes[j].file
    ensures var o := ApplyNodes(Fresh(dir), nodes, m);
            && o.minted == MintedNodes(dir, nodes, m.force)
            && o.changes == ExpectedChanges(dir, nodes, m.force)
  {
    if nodes != [] {
      var last := |nodes| - 1;
      ReportIsExact(dir, nodes[..last], m);
      OtherFilesStay(Fresh(dir), nodes[..last], m, nodes[last].file);
      ReportStep(dir, ApplyNodes(Fresh(dir), nodes[..last], m), nodes[last], m);
      ExpectedAppended(dir, nodes, m.force);
    }
  }

  lemma ExpectedAppended(dir: Dir, nodes: seq<Node>, force: bool)
    requires nodes != []
    ensures var last := |nodes| - 1;
            ExpectedChanges(dir, nodes, force)
            == ExpectedChanges(dir, nodes[..last], force)
               + [Change(nodes[last].file, ExpectedAction(dir, nodes[last], force))]
  {
  }

  /** A directory that matches every node already is left alone: nothing minted, only "unchanged". */
  lemma {:induction false} MatchingIsLeftAlone(o: Outcome, nodes: seq<Node>, m: Minter)
    requires !m.force && forall n <- nodes :: Matches(o.dir, n)
    ensures var after := ApplyNodes(o, nodes, m);
            && after.dir == o.dir && after.minted == o.minted
            && after.changes == o.changes + AllUnchanged(nodes)
  {
    if nodes != [] {
      var last := |nodes| - 1;
      assert nodes[last] in nodes;
      MatchingIsLeftAlone(o, nodes[..last], m);
      MatchingStep(ApplyNodes(o, nodes[..last], m), nodes[last], m);
      UnchangedAppended(o.changes, nodes);
    }
  }

  lemma UnchangedAppended(changes: seq<Change>, nodes: seq<Node>)
    requires nodes != []
    ensures var last := |nodes| - 1;
            (changes + AllUnchanged(nodes[..last])) + [Change(nodes[last].file, Unchanged)]
            == changes + AllUnchanged(nodes)
  {
  }

  lemma MatchingStep(o: Outcome, n: Node, m: Minter)
    requires !m.force && Matches(o.dir, n)
    ensures ApplyNode(o, n, m) == o.(changes := o.changes + [Change(n.file, Unchanged)])
  {
  }

  /** The same declarations, perhaps built at another time: equal files and fingerprints. */
  predicate Alike(a: seq<Node>, b: seq<Node>) {
    |a| == |b| && forall i | 0 <= i < |a| ::
      a[i].file == b[i].file && FingerprintGrant(a[i]) == FingerprintGrant(b[i])
  }

  predicate AlikeResults(a: Result<seq<Node>>, b: Result<seq<Node>>) {
    (a.Ok? <==> b.Ok?) && (a.Ok? ==> Alike(a.value, b.value))
  }

  lemma AlikeConcat(a: seq<Node>, b: seq<Node>, c: seq<Node>, d: seq<Node>)
    requires Alike(a, b) && Alike(c, d)
    ensures Alike(a + c, b + d)
  {
    forall i | 0 <= i < |a + c|
      ensures (a + c)[i].file == (b + d)[i].file && FingerprintGrant((a + c)[i]) == FingerprintGrant((b + d)[i])
    {
      if i >= |a| {
        assert (a + c)[i] == c[i - |a|] && (b + d)[i] == d[i - |a|];
      }
    }
  }

  lemma RootFingerprint(root: Grant, file: string, audience: string)
    requires root.parent.None?
    ensures FingerprintGrant(Node(file, root, audience))
            == FingerprintOf([root.delegator, root.delegatee], root.scopes, audience, root.constraints)
  {
    assert Links(root) == [root];
    assert [root.delegator] + Delegatees(root) == [root.delegator, root.delegatee];
  }

  lemma ChildFingerprint(root: Grant, child: Grant, file: string, audience: string)
    requires root.parent.None? && child.parent == Some(root)
    ensures FingerprintGrant(Node(file, child, audience))
            == FingerprintOf(
                 [root.delegator, root.delegatee, child.delegatee], child.scopes, audience, child.constraints)
  {
    assert Links(root) == [root];
    assert Links(child) == [root, child];
    assert [root.delegator] + Delegatees(child) == [root.delegator, root.delegatee, child.delegatee];
  }

  /** A declared child is accepted exactly when its scopes are the root's and it is another agent. */
  lemma DelegatesFromRoot(root: Grant, r: Request)
    requires root.parent.None?
    ensures Delegate(root, r, DEFAULT_MAX_DEPTH).Ok?
            <==> IsSubset(r.scopes, root.scopes) && r.delegatee != root.delegatee
  {
    assert Links(root) == [root];
    assert Delegatees(root) == [root.delegatee];
  }

  /** The authority a file declares for a child, tightened by the root's. */
  function DeclaredChild(spec: GrantSpec, c: ChildSpec): Fingerprint {
    FingerprintOf(
      [spec.principal, spec.agent, c.agent], c.scopes, spec.audience, Tighten(spec.constraints, c.constraints))
  }

  predicate ChildAccepted(spec: GrantSpec, c: ChildSpec, knownZones: set<string>) {
    c.agent != "" && c.agent != spec.agent && IsSubset(c.scopes, spec.scopes) && Acceptable(c.constraints, knownZones)
  }

  /** The nodes are the children, in order, each in its own file and with its declared authority. */
  predicate Declares(spec: GrantSpec, children: seq<ChildSpec>, nodes: seq<Node>) {
    && |nodes| == |children|
    && forall i | 0 <= i < |children| ::
         && nodes[i].file == Sanitize(spec.name) + "__" + Sanitize(children[i].agent) + ".jwt"
         && FingerprintGrant(nodes[i]) == DeclaredChild(spec, children[i])
  }

  lemma DeclaredOne(spec: GrantSpec, c: ChildSpec, now: Instant)
    ensures var d := Delegate(RootOf(spec, now), ChildRequest(spec, c, now), DEFAULT_MAX_DEPTH);
            && (d.Ok? <==> IsSubset(c.scopes, spec.scopes) && c.agent != spec.agent)
            && (d.Ok? ==> Declares(spec, [c], [Node(ChildFile(spec, c), d.value, spec.audience)]))
  {
    var root, request := RootOf(spec, now), ChildRequest(spec, c, now);
    DelegatesFromRoot(root, request);
    var d := Delegate(root, request, DEFAULT_MAX_DEPTH);
    if d.Ok? {
      ChildFingerprint(root, d.value, ChildFile(spec, c), spec.audience);
    }
  }

  lemma DeclaresConcat(spec: GrantSpec, a: seq<ChildSpec>, x: seq<Node>, c: ChildSpec, n: Node)
    requires Declares(spec, a, x) && Declares(spec, [c], [n])
    ensures Declares(spec, a + [c], x + [n])
  {
    assert [n][0].file == ChildFile(spec, [c][0]);
    forall i | 0 <= i < |a + [c]|
      ensures (x + [n])[i].file == ChildFile(spec, (a + [c])[i])
           && FingerprintGrant((x + [n])[i]) == DeclaredChild(spec, (a + [c])[i])
    {
      if i == |a| {
        assert (x + [n])[i] == [n][0] && (a + [c])[i] == [c][0];
      }
    }
  }

  lemma {:induction false} DeclaredChildren(
      spec: GrantSpec, children: seq<ChildSpec>, knownZones: set<string>, now: Instant)
    ensures var r := ChildNodes(spec, RootOf(spec, now), children, knownZones, now);
            && (r.Ok? <==> forall c <- children :: ChildAccepted(spec, c, knownZones))
            && (r.Ok? ==> Declares(spec, children, r.value))
  {
    if children != [] {
      var n := |children| - 1;
      var c := children[n];
      assert forall x :: x in children <==> x in children[..n] || x == c;
      assert children == children[..n] + [c];
      DeclaredChildren(spec, children[..n], knownZones, now);
      DeclaredOne(spec, c, now);
      var before := ChildNodes(spec, RootOf(spec, now), children[..n], knownZones, now);
      var d := Delegate(RootOf(spec, now), ChildRequest(spec, c, now), DEFAULT_MAX_DEPTH);
      if before.Ok? && d.Ok? {
        DeclaresConcat(spec, children[..n], before.value, c, Node(ChildFile(spec, c), d.value, spec.audience));
      }
      assert ChildNodes(spec, RootOf(spec, now), children, knownZones, now).Ok?
        <==> before.Ok? && c.agent != "" && Acceptable(c.constraints, knownZones) && d.Ok?;
      assert (forall x <- children :: ChildAccepted(spec, x, knownZones))
        <==> (forall x <- children[..n] :: ChildAccepted(spec, x, knownZones)) && ChildAccepted(spec, c, knownZones);
    }
  }

  /** A tree is built exactly when no part of it is malformed or escalates, and carries just the declared authority. */
  lemma DeclaredTree(spec: GrantSpec, knownZones: set<string>, now: Instant)
    ensures var r := BuildTree(spec, knownZones, now);
            && (r.Ok? <==>
                  && spec.ttl > 0 && Acceptable(spec.constraints, knownZones)
                  && forall c <- spec.delegates :: ChildAccepted(spec, c, knownZones))
            && (r.Ok? ==>
                  && r.value != []
                  && r.value[0].file == Sanitize(spec.name) + ".jwt"
                  && FingerprintGrant(r.value[0])
                     == FingerprintOf([spec.principal, spec.agent], spec.scopes, spec.audience, spec.constraints)
                  && Declares(spec, spec.delegates, r.value[1..]))
  {
    DeclaredChildren(spec, spec.delegates, knownZones, now);
    RootFingerprint(RootOf(spec, now), Sanitize(spec.name) + ".jwt", spec.audience);
  }

  lemma {:induction false} ChildrenExpire(
      spec: GrantSpec, children: seq<ChildSpec>, knownZones: set<string>, now: Instant)
    ensures var r := ChildNodes(spec, RootOf(spec, now), children, knownZones, now);
            r.Ok? ==> forall n <- r.value :: n.grant.expiresAt == now + spec.ttl && n.audience == spec.audience
  {
    if children != [] {
      var n := |children| - 1;
      ChildrenExpire(spec, children[..n], knownZones, now);
      DelegateIff(RootOf(spec, now), ChildRequest(spec, children[n], now), DEFAULT_MAX_DEPTH);
    }
  }

  /** Every grant of a tree lives for the declared lifetime from when it is built. */
  lemma TreeExpires(spec: GrantSpec, knownZones: set<string>, now: Instant)
    ensures BuildTree(spec, knownZones, now).Ok? ==>
              forall n <- BuildTree(spec, knownZones, now).value :: n.grant.expiresAt == now + spec.ttl
  {
    ChildrenExpire(spec, spec.delegates, knownZones, now);
  }

  function Trees(specs: seq<GrantSpec>, knownZones: set<string>, now: Instant): seq<Result<seq<Node>>> {
    seq(|specs|, i requires 0 <= i < |specs| => BuildTree(specs[i], knownZones, now))
  }

  /** All the trees' nodes, if every tree could be built. */
  function Collect(trees: seq<Result<seq<Node>>>): Option<seq<Node>> {
    if trees == [] then Some([])
    else
      var n := |trees| - 1;
      if Collect(trees[..n]).None? || trees[n].Err? then None else Some(Collect(trees[..n]).value + trees[n].value)
  }

  lemma {:induction false} CollectIff(trees: seq<Result<seq<Node>>>)
    ensures Collect(trees).Some? <==> forall i | 0 <= i < |trees| :: trees[i].Ok?
  {
    if trees != [] {
      var n := |trees| - 1;
      CollectIff(trees[..n]);
      assert forall i | 0 <= i < n :: trees[..n][i] == trees[i];
    }
  }

  lemma {:induction false} CollectAt(trees: seq<Result<seq<Node>>>, k: nat) returns (after: seq<Node>)
    requires k < |trees| && Collect(trees).Some?
    ensures Collect(trees[..k]).Some? && trees[k].Ok?
    ensures Collect(trees).value == Collect(trees[..k]).value + trees[k].value + after
    ensures k == |trees| - 1 ==> after == []
  {
    var n := |trees| - 1;
    if k == n {
      after := [];
    } else {
      after := CollectAt(trees[..n], k);
      assert trees[..n][..k] == trees[..k];
      after := after + trees[n].value;
    }
  }

  lemma {:induction false} AllNodesCollects(specs: seq<GrantSpec>, knownZones: set<string>, now: Instant)
    ensures var r, c := AllNodes(specs, knownZones, now), Collect(Trees(specs, knownZones, now));
            (r.Ok? <==> c.Some?) && (r.Ok? ==> r.value == c.value)
  {
    if specs != [] {
      var n := |specs| - 1;
      AllNodesCollects(specs[..n], knownZones, now);
      assert Trees(specs, knownZones, now)[..n] == Trees(specs[..n], knownZones, now);
    }
  }

  /** A file's nodes can be built exactly when each tree can, and are those of its trees, tree after tree. */
  lemma AllNodesAt(specs: seq<GrantSpec>, knownZones: set<string>, now: Instant, k: nat)
    returns (before: seq<Node>, after: seq<Node>)
    requires k < |specs|
    ensures AllNodes(specs, knownZones, now).Ok? <==> forall spec <- specs :: BuildTree(spec, knownZones, now).Ok?
    ensures AllNodes(specs, knownZones, now).Ok? ==>
              && AllNodes(specs[..k], knownZones, now) == Ok(before)
              && BuildTree(specs[k], knownZones, now).Ok?
              && AllNodes(specs, knownZones, now).value == before + BuildTree(specs[k], knownZones, now).value + after
    ensures k == |specs| - 1 ==> after == []
  {
    var trees := Trees(specs, knownZones, now);
    AllNodesCollects(specs, knownZones, now);
    AllNodesCollects(specs[..k], knownZones, now);
    CollectIff(trees);
    assert trees[..k] == Trees(specs[..k], knownZones, now);
    forall i | 0 <= i < |specs| ensures BuildTree(specs[i], knownZones, now) == trees[i] {
    }
    before, after := [], [];
    if Collect(trees).Some? {
      after := CollectAt(trees, k);
      before := Collect(trees[..k]).value;
    }
  }

  lemma TreesIgnoreTime(spec: GrantSpec, knownZones: set<string>, t: Instant, u: Instant)
    ensures AlikeResults(BuildTree(spec, knownZones, t), BuildTree(spec, knownZones, u))
  {
    DeclaredTree(spec, knownZones, t);
    DeclaredTree(spec, knownZones, u);
    var a, b := BuildTree(spec, knownZones, t), BuildTree(spec, knownZones, u);
    if a.Ok? {
      assert Alike(a.value[1..], b.value[1..]);
      assert a.value == [a.value[0]] + a.value[1..] && b.value == [b.value[0]] + b.value[1..];
      AlikeConcat([a.value[0]], [b.value[0]], a.value[1..], b.value[1..]);
    }
  }

  /** When the file is built affects only expiries, which fingerprints leave out. */
  lemma {:induction false} NodesIgnoreTime(specs: seq<GrantSpec>, knownZones: set<string>, t: Instant, u: Instant)
    ensures AlikeResults(AllNodes(specs, knownZones, t), AllNodes(specs, knownZones, u))
  {
    if specs != [] {
      var n := |specs| - 1;
      NodesIgnoreTime(specs[..n], knownZones, t, u);
      TreesIgnoreTime(specs[n], knownZones, t, u);
      var a, b := AllNodes(specs[..n], knownZones, t), AllNodes(specs[..n], knownZones, u);
      var x, y := BuildTree(specs[n], knownZones, t), BuildTree(specs[n], knownZones, u);
      if a.Ok? && x.Ok? {
        AlikeConcat(a.value, b.value, x.value, y.value);
      }
    }
  }

  lemma MatchesAlike(dir: Dir, a: seq<Node>, b: seq<Node>)
    requires Alike(a, b) && forall n <- a :: Matches(dir, n)
    ensures forall n <- b :: Matches(dir, n)
  {
    forall i | 0 <= i < |b| ensures Matches(dir, b[i]) {
      assert Matches(dir, a[i]);
    }
  }

  /**
   From declaration to file: after one run of a file whose grants are representable and
   share a file only if they agree, the file of each declared grant holds a token for its principal,
   agent, audience, scopes and constraints.
   */
  lemma DeclaredFilesHold(specs: seq<GrantSpec>, knownZones: set<string>, dir: Dir, m: Minter, k: nat)
    requires AllNodes(specs, knownZones, m.now).Ok? && k < |specs|
    requires FilesAgree(AllNodes(specs, knownZones, m.now).value)
    requires forall n <- AllNodes(specs, knownZones, m.now).value :: Representable(n)
    ensures var after := ApplyNodes(Fresh(dir), AllNodes(specs, knownZones, m.now).value, m).dir;
            var file, g := Sanitize(specs[k].name) + ".jwt", specs[k];
            && file in after && after[file].Token?
            && var b := after[file].body;
               && b.subject == g.principal && ActorChain(b.act) == [g.agent] && b.audience == g.audience
               && multiset(Fields(b.scope)) == multiset(g.scopes)
               && multiset(b.constraints.GetOr(UNRESTRICTED).tools) == multiset(g.constraints.tools)
               && multiset(b.constraints.GetOr(UNRESTRICTED).resources) == multiset(g.constraints.resources)
               && multiset(b.constraints.GetOr(UNRESTRICTED).categories) == multiset(g.constraints.categories)
               && b.constraints.GetOr(UNRESTRICTED).maxAmount == g.constraints.maxAmount
               && b.constraints.GetOr(UNRESTRICTED).window == g.constraints.window
  {
    var n := RootNode(specs, knownZones, m.now, k);
    ApplyConverges(Fresh(dir), AllNodes(specs, knownZones, m.now).value, m);
    RootFileHolds(ApplyNodes(Fresh(dir), AllNodes(specs, knownZones, m.now).value, m).dir, n, specs[k]);
  }

  lemma RootNode(specs: seq<GrantSpec>, knownZones: set<string>, now: Instant, k: nat) returns (n: Node)
    requires AllNodes(specs, knownZones, now).Ok? && k < |specs|
    ensures n in AllNodes(specs, knownZones, now).value && n.file == Sanitize(specs[k].name) + ".jwt"
    ensures var g := specs[k];
            FingerprintGrant(n) == FingerprintOf([g.principal, g.agent], g.scopes, g.audience, g.constraints)
  {
    var before, after := AllNodesAt(specs, knownZones, now, k);
    DeclaredTree(specs[k], knownZones, now);
    n := BuildTree(specs[k], knownZones, now).value[0];
    assert AllNodes(specs, knownZones, now).value[|before|] == n;
  }

  lemma RootFileHolds(dir: Dir, n: Node, g: GrantSpec)
    requires Matches(dir, n)
    requires FingerprintGrant(n) == FingerprintOf([g.principal, g.agent], g.scopes, g.audience, g.constraints)
    ensures var b := dir[n.file].body;
            var c := b.constraints.GetOr(UNRESTRICTED);
            && b.subject == g.principal && ActorChain(b.act) == [g.agent] && b.audience == g.audience
            && multiset(Fields(b.scope)) == multiset(g.scopes)
            && multiset(c.tools) == multiset(g.constraints.tools)
            && multiset(c.resources) == multiset(g.constraints.resources)
            && multiset(c.categories) == multiset(g.constraints.categories)
            && c.maxAmount == g.constraints.maxAmount && c.window == g.constraints.window
  {
    var b := dir[n.file].body;
    var chain := [b.subject] + Reverse(ActorChain(b.act));
    assert chain == [g.principal, g.agent];
    assert chain[1..] == Reverse(ActorChain(b.act)) == [g.agent];
    assert |ActorChain(b.act)| == 1 && Reverse(ActorChain(b.act))[0] == ActorChain(b.act)[0];
  }

  lemma SecondRun(dir: Dir, a: seq<Node>, b: seq<Node>, first: Minter, second: Minter)
    requires !second.force && Alike(a, b)
    requires FilesAgree(a) && forall n <- a :: Representable(n)
    ensures var after := ApplyNodes(Fresh(dir), a, first).dir;
            ApplyNodes(Fresh(after), b, second) == Outcome(after, AllUnchanged(b), 0)
  {
    var after := ApplyNodes(Fresh(dir), a, first).dir;
    ApplyConverges(Fresh(dir), a, first);
    MatchesAlike(after, a, b);
    MatchingIsLeftAlone(Fresh(after), b, second);
    assert [] + AllUnchanged(b) == AllUnchanged(b);
  }

  /** Applying the same file again, at any later time, mints nothing and reports only "unchanged". */
  lemma ApplyIsIdempotent(specs: seq<GrantSpec>, knownZones: set<string>, dir: Dir, first: Minter, second: Minter)
    requires AllNodes(specs, knownZones, first.now).Ok? && !second.force
    requires FilesAgree(AllNodes(specs, knownZones, first.now).value)
    requires forall n <- AllNodes(specs, knownZones, first.now).value :: Representable(n)
    ensures AllNodes(specs, knownZones, second.now).Ok?
    ensures var nodes := AllNodes(specs, knownZones, second.now).value;
            var after := ApplyNodes(Fresh(dir), AllNodes(specs, knownZones, first.now).value, first).dir;
            ApplyNodes(Fresh(after), nodes, second)
            == Outcome(after, AllUnchanged(nodes), 0)
  {
    NodesIgnoreTime(specs, knownZones, first.now, second.now);
    SecondRun(
      dir, AllNodes(specs, knownZones, first.now).value, AllNodes(specs, knownZones, second.now).value, first, second);
  }

  // ---- exactly when --------------------------------------------------------

  /** A run that mints nothing found every file matching. */
  lemma {:induction false} MintingNothingMeansMatching(o: Outcome, nodes: seq<Node>, m: Minter)
    ensures ApplyNodes(o, nodes, m).minted >= o.minted
    ensures ApplyNodes(o, nodes, m).minted == o.minted ==>
              ApplyNodes(o, nodes, m).dir == o.dir && forall n <- nodes :: Matches(o.dir, n)
  {
    if nodes != [] {
      var last := |nodes| - 1;
      assert forall n :: n in nodes <==> n in nodes[..last] || n == nodes[last];
      MintingNothingMeansMatching(o, nodes[..last], m);
    }
  }

  /** Every file was minted by a run. */
  ghost predicate AllMinted(dir: Dir) {
    forall f <- dir :: dir[f].Token? && exists issuer, n, now, jti :: dir[f].body == Mint(issuer, n, now, jti)
  }

  lemma {:induction false} RunsOnlyMint(o: Outcome, nodes: seq<Node>, m: Minter)
    requires AllMinted(o.dir)
    ensures AllMinted(ApplyNodes(o, nodes, m).dir)
  {
    if nodes != [] {
      RunsOnlyMint(o, nodes[..|nodes| - 1], m);
    }
  }

  lemma MatchingMintIsRepresentable(dir: Dir, n: Node)
    requires AllMinted(dir) && Matches(dir, n)
    ensures Representable(n)
  {
    var issuer, k, now, jti :| dir[n.file].body == Mint(issuer, k, now, jti);
    MintedIsRepresentable(issuer, k, now, jti);
    RepresentableByFingerprint(n);
  }

  /** Files of a run that all match: representable, and agreeing where shared. */
  lemma AllMatching(dir: Dir, nodes: seq<Node>)
    requires AllMinted(dir) && forall n <- nodes :: Matches(dir, n)
    ensures FilesAgree(nodes) && forall n <- nodes :: Representable(n)
  {
    forall n | n in nodes ensures Representable(n) {
      MatchingMintIsRepresentable(dir, n);
    }
    forall i, j | 0 <= i < j < |nodes| && nodes[i].file == nodes[j].file
      ensures FingerprintGrant(nodes[i]) == FingerprintGrant(nodes[j])
    {
      assert Matches(dir, nodes[i]) && Matches(dir, nodes[j]);
    }
  }

  /** How many tokens a second run mints. */
  function SecondMints(dir: Dir, nodes: seq<Node>, first: Minter, second: Minter): nat {
    ApplyNodes(Fresh(ApplyNodes(Fresh(dir), nodes, first).dir), nodes, second).minted
  }

  /**
   Whatever the directory held, a second run mints nothing, exactly when every declared
   grant is representable and no two of different authority share a file.
   */
  lemma IdempotentIff(nodes: seq<Node>, first: Minter, second: Minter)
    requires !second.force
    ensures (forall dir :: SecondMints(dir, nodes, first, second) == 0)
       <==> FilesAgree(nodes) && forall n <- nodes :: Representable(n)
  {
    if FilesAgree(nodes) && forall n <- nodes :: Representable(n) {
      forall dir ensures SecondMints(dir, nodes, first, second) == 0 {
        ApplyConverges(Fresh(dir), nodes, first);
        MatchingIsLeftAlone(Fresh(ApplyNodes(Fresh(dir), nodes, first).dir), nodes, second);
      }
    }
    if SecondMints(map[], nodes, first, second) == 0 {
      var after := ApplyNodes(Fresh(map[]), nodes, first).dir;
      RunsOnlyMint(Fresh(map[]), nodes, first);
      MintingNothingMeansMatching(Fresh(after), nodes, second);
      AllMatching(after, nodes);
    }
  }

  /** A scope containing a space is minted anew on every run. */
  lemma SpacedScopeExample(first: Minter, second: Minter)
    ensures var g := NewRootGrant("user:ann", "agent:bot", ["files read"], UNRESTRICTED, 3600 * SECOND, first.now);
            SecondMints(map[], [Node("bot.jwt", g, "api")], first, second) == 1
  {
    var g := NewRootGrant("user:ann", "agent:bot", ["files read"], UNRESTRICTED, 3600 * SECOND, first.now);
    var n := Node("bot.jwt", g, "api");
    assert n.grant.scopes[0][5] == ' ';
    assert !IsWord(n.grant.scopes[0]);
    FingerprintInvertsMint(first.issuer, n, first.now, first.jtis(0));
    assert ApplyNodes(Fresh(map[]), [n][..0], first) == Fresh(map[]);
    var after := ApplyNodes(Fresh(map[]), [n], first).dir;
    assert ApplyNodes(Fresh(after), [n][..0], second) == Fresh(after);
    assert after[n.file] == Token(Mint(first.issuer, n, first.now, first.jtis(0)));
    assert !Matches(after, n);
  }
}
