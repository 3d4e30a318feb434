/**
 The coding-agent guard: one decision per tool call, from the token, the local
 overlay and the call. The file system, URL and shell parsing, and the mapping from
 a tool call to what it touches, are functions of the host.
 */
module Guard {
  import opened Sequences
  import opened Wrappers
  import opened Text
  import opened Policy
  import opened Chains
  import O = Overlay

  /** What a tool call asks for: a capability, its object, and the paths it touches. */
  datatype Call = Call(tool: string, verb: string, target: string, paths: seq<string>, cwd: string)

  datatype Host = Host(
    canonicalize: string -> string,
    absClean: (string, string) -> string,
    realPath: string -> string,
    below: (string, string) -> bool,
    catastrophic: string -> bool,
    executables: string -> seq<string>,
    redirects: string -> seq<string>,
    hostOf: string -> string)

  datatype Guard = Guard(
    issuer: string, audience: string, revoked: Option<set<string>>, denyAll: bool,
    selfProtect: seq<string>, overlay: Option<O.Rules>)

  datatype Verdict = Allowed | Blocked(reason: string)

  // ---- reading the token ---------------------------------------------------

  function Resources(c: Claims): seq<string> {
    if c.constraints.None? then [] else c.constraints.value.resources
  }

  predicate HasPrefix(s: string, prefix: string) {
    |prefix| <= |s| && s[..|prefix|] == prefix
  }

  predicate HasSuffix(s: string, suffix: string) {
    |suffix| <= |s| && s[|s| - |suffix|..] == suffix
  }

  /** The resource entries that carry the prefix, without it. */
  function ResourceValues(resources: seq<string>, prefix: string): seq<string> {
    if resources == [] then []
    else (if HasPrefix(resources[0], prefix) then [resources[0][|prefix|..]] else [])
         + ResourceValues(resources[1..], prefix)
  }

  function WithOverlay(rules: seq<string>, overlay: Option<O.Rules>, select: O.Rules -> seq<string>): seq<string> {
    if overlay.None? || select(overlay.value) == [] then rules else rules + select(overlay.value)
  }

  /** The SDK's verification: issuer, expiry, an act claim, and the audience. */
  predicate Verifies(h: Host, g: Guard, c: Claims, now: Instant) {
    && c.issuer == g.issuer && now < c.expiresAt && c.act.Actor?
    && exists a <- c.audience :: h.canonicalize(a) == h.canonicalize(g.audience)
  }

  predicate IsRevoked(g: Guard, c: Claims) {
    g.revoked.Some? && c.id != "" && c.id in g.revoked.value
  }

  // ---- the checks ----------------------------------------------------------

  function AbsResolve(h: Host, paths: seq<string>, cwd: string): seq<string> {
    if paths == [] then []
    else
      var a := h.absClean(cwd, paths[0]);
      (if a == "" then [] else [a]) + AbsResolve(h, paths[1..], cwd)
  }

  predicate Contained(h: Host, path: string, roots: seq<string>) {
    exists r <- roots :: h.below(h.realPath(r), h.realPath(path))
  }

  function DenyRoots(h: Host, g: Guard, c: Claims, cwd: string): seq<string> {
    var rules := WithOverlay(ResourceValues(Resources(c), "deny-path:"), g.overlay, (r: O.Rules) => r.paths);
    g.selfProtect + AbsResolve(h, rules, cwd)
  }

  function CheckPaths(h: Host, g: Guard, c: Claims, paths: seq<string>, cwd: string): Verdict {
    var allow := ResourceValues(Resources(c), "path:");
    if DENY_ALL in Resources(c) then Blocked("filesystem access is fully restricted")
    else if exists p <- paths :: Contained(h, p, DenyRoots(h, g, c, cwd)) then Blocked("path is explicitly denied")
    else if allow == [] then Allowed
    else if paths == [] then Blocked("could not determine the target path")
    else if exists p <- paths :: !Contained(h, p, AbsResolve(h, allow, cwd)) then
      Blocked("path is outside the allowed roots")
    else Allowed
  }

  function DeniedCommands(g: Guard, c: Claims): seq<string> {
    WithOverlay(ResourceValues(Resources(c), "deny-cmd:"), g.overlay, (r: O.Rules) => r.cmds)
  }

  function CheckCommand(h: Host, g: Guard, c: Claims, command: string, cwd: string): Verdict {
    var exes := h.executables(command);
    var allow := ResourceValues(Resources(c), "cmd:");
    if DENY_ALL in Resources(c) then Blocked("command execution is fully restricted")
    else if h.catastrophic(command) then Blocked("command is catastrophic")
    else if exists e <- exes :: e in DeniedCommands(g, c) then Blocked("command is explicitly denied")
    else if allow != [] && exes == [] then Blocked("command could not be parsed")
    else if allow != [] && exists e <- exes :: e !in allow then Blocked("command is not in the allowed commands")
    else if h.redirects(command) != [] then CheckPaths(h, g, c, AbsResolve(h, h.redirects(command), cwd), cwd)
    else Allowed
  }

  function DeniedHosts(g: Guard, c: Claims): seq<string> {
    WithOverlay(ResourceValues(Resources(c), "deny-host:"), g.overlay, (r: O.Rules) => r.hosts)
  }

  predicate HostMatches(host: string, rule: string) {
    host == rule || HasSuffix(host, "." + rule)
  }

  function CheckHost(h: Host, g: Guard, c: Claims, url: string): Verdict {
    var host := h.hostOf(url);
    var allow := ResourceValues(Resources(c), "host:");
    if DENY_ALL in Resources(c) then Blocked("network access is fully restricted")
    else if exists r <- DeniedHosts(g, c) :: HostMatches(host, r) then Blocked("host is explicitly denied")
    else if allow == [] || exists r <- allow :: HostMatches(host, r) then Allowed
    else Blocked("host is not in the allowed hosts")
  }

  function DeniedTools(g: Guard, c: Claims): seq<string> {
    WithOverlay(ResourceValues(Resources(c), "deny-tool:"), g.overlay, (r: O.Rules) => r.tools)
  }

  function CheckVerb(h: Host, g: Guard, c: Claims, call: Call): Verdict {
    if call.verb == "fs.read" || call.verb == "fs.write" then CheckPaths(h, g, c, call.paths, call.cwd)
    else if call.verb == "shell.exec" then CheckCommand(h, g, c, call.target, call.cwd)
    else if call.verb == "net.fetch" then CheckHost(h, g, c, call.target)
    else Allowed
  }

  function Decide(h: Host, g: Guard, ctx: Context, c: Claims, call: Call): Verdict {
    if g.denyAll then Blocked("fail-closed")
    else if !Verifies(h, g, c, ctx.now) then Blocked("delegation token rejected")
    else if IsRevoked(g, c) then Blocked("delegation revoked")
    else if c.constraints.Some? && !PermitTime(ctx, c.constraints.value.window, None) then
      Blocked("outside the delegated time window")
    else if !HasScope(c.scope, call.verb) && !HasScope(c.scope, "*") then Blocked("capability is not granted")
    else if c.constraints.Some? && c.constraints.value.tools != [] && call.tool !in c.constraints.value.tools then
      Blocked("tool is not in the allowed tool-list")
    else if call.tool in DeniedTools(g, c) then Blocked("tool is explicitly denied")
    else CheckVerb(h, g, c, call)
  }

  // ---- what an allowed call is, rule by rule --------------------------------

  /** The token carries the rule: a resource entry is the prefix followed by it. */
  predicate Rule(c: Claims, prefix: string, x: string) {
    prefix + x in Resources(c)
  }

  predicate DenyRule(g: Guard, c: Claims, prefix: string, select: O.Rules -> seq<string>, x: string) {
    Rule(c, prefix, x) || (g.overlay.Some? && x in select(g.overlay.value))
  }

  /** A path rule, resolved against the working directory, covers the path. */
  predicate Covers(h: Host, x: string, cwd: string, path: string) {
    h.absClean(cwd, x) != "" && h.below(h.realPath(h.absClean(cwd, x)), h.realPath(path))
  }

  ghost predicate PathsComply(h: Host, g: Guard, c: Claims, paths: seq<string>, cwd: string) {
    && DENY_ALL !in Resources(c)
    && (forall p <- paths, r <- g.selfProtect :: !h.below(h.realPath(r), h.realPath(p)))
    && (forall p <- paths, x | DenyRule(g, c, "deny-path:", (r: O.Rules) => r.paths, x) :: !Covers(h, x, cwd, p))
    && ((exists x :: Rule(c, "path:", x)) ==>
          paths != [] && forall p <- paths :: exists x :: Rule(c, "path:", x) && Covers(h, x, cwd, p))
  }

  ghost predicate CommandComplies(h: Host, g: Guard, c: Claims, command: string, cwd: string) {
    && DENY_ALL !in Resources(c)
    && !h.catastrophic(command)
    && (forall e <- h.executables(command) :: !DenyRule(g, c, "deny-cmd:", (r: O.Rules) => r.cmds, e))
    && ((exists x :: Rule(c, "cmd:", x)) ==>
          h.executables(command) != [] && forall e <- h.executables(command) :: Rule(c, "cmd:", e))
    && (h.redirects(command) != [] ==> PathsComply(h, g, c, AbsResolve(h, h.redirects(command), cwd), cwd))
  }

  /** The host is the rule's, or a subdomain of it. */
  ghost predicate CoversHost(x: string, host: string) {
    host == x || exists sub: string :: host == sub + "." + x
  }

  ghost predicate HostComplies(h: Host, g: Guard, c: Claims, url: string) {
    && DENY_ALL !in Resources(c)
    && (forall x | DenyRule(g, c, "deny-host:", (r: O.Rules) => r.hosts, x) :: !CoversHost(x, h.hostOf(url)))
    && ((exists x :: Rule(c, "host:", x)) ==> exists x :: Rule(c, "host:", x) && CoversHost(x, h.hostOf(url)))
  }

  lemma SuffixIsSubdomain(host: string, x: string)
    ensures HostMatches(host, x) <==> CoversHost(x, host)
  {
    if HasSuffix(host, "." + x) {
      var sub := host[..|host| - |"." + x|];
      assert host == sub + ("." + x) == sub + "." + x;
    }
    if CoversHost(x, host) && host != x {
      var sub: string :| host == sub + "." + x;
      assert host == sub + ("." + x);
    }
  }

  lemma {:induction false} InResourceValues(resources: seq<string>, prefix: string, x: string)
    ensures x in ResourceValues(resources, prefix) <==> prefix + x in resources
  {
    if resources != [] {
      InResourceValues(resources[1..], prefix, x);
      var s := resources[0];
      assert HasPrefix(s, prefix) ==> s == prefix + s[|prefix|..];
      assert (prefix + x)[..|prefix|] == prefix && (prefix + x)[|prefix|..] == x;
      assert prefix + x in resources <==> prefix + x == s || prefix + x in resources[1..];
    }
  }

  lemma RulesOf(c: Claims, prefix: string)
    ensures forall x :: x in ResourceValues(Resources(c), prefix) <==> Rule(c, prefix, x)
    ensures ResourceValues(Resources(c), prefix) != [] <==> exists x :: Rule(c, prefix, x)
  {
    forall x ensures x in ResourceValues(Resources(c), prefix) <==> Rule(c, prefix, x) {
      InResourceValues(Resources(c), prefix, x);
    }
    if ResourceValues(Resources(c), prefix) != [] {
      assert Rule(c, prefix, ResourceValues(Resources(c), prefix)[0]);
    }
  }

  lemma DenyRulesOf(g: Guard, c: Claims, prefix: string, select: O.Rules -> seq<string>)
    ensures forall x ::
              x in WithOverlay(ResourceValues(Resources(c), prefix), g.overlay, select)
              <==> DenyRule(g, c, prefix, select, x)
  {
    RulesOf(c, prefix);
  }

  lemma ContainedByRule(h: Host, rules: seq<string>, cwd: string, path: string)
    ensures Contained(h, path, AbsResolve(h, rules, cwd)) <==> exists x <- rules :: Covers(h, x, cwd, path)
  {
    var roots := AbsResolve(h, rules, cwd);
    forall r ensures r in roots <==> r != "" && exists x <- rules :: h.absClean(cwd, x) == r {
      InAbsResolve(h, rules, cwd, r);
    }
    forall x | x in rules && Covers(h, x, cwd, path) ensures Contained(h, path, roots) {
      assert h.absClean(cwd, x) in roots;
    }
  }

  lemma PathsExact(h: Host, g: Guard, c: Claims, paths: seq<string>, cwd: string)
    ensures CheckPaths(h, g, c, paths, cwd).Allowed? <==> PathsComply(h, g, c, paths, cwd)
  {
    var select := (r: O.Rules) => r.paths;
    var allow := ResourceValues(Resources(c), "path:");
    var deny := WithOverlay(ResourceValues(Resources(c), "deny-path:"), g.overlay, select);
    RulesOf(c, "path:");
    DenyRulesOf(g, c, "deny-path:", select);
    forall p
      ensures Contained(h, p, AbsResolve(h, allow, cwd)) <==> exists x :: Rule(c, "path:", x) && Covers(h, x, cwd, p)
      ensures Contained(h, p, AbsResolve(h, deny, cwd))
         <==> exists x :: DenyRule(g, c, "deny-path:", select, x) && Covers(h, x, cwd, p)
      ensures Contained(h, p, DenyRoots(h, g, c, cwd))
         <==> Contained(h, p, g.selfProtect) || Contained(h, p, AbsResolve(h, deny, cwd))
    {
      ContainedByRule(h, allow, cwd, p);
      ContainedByRule(h, deny, cwd, p);
    }
  }

  lemma CommandExact(h: Host, g: Guard, c: Claims, command: string, cwd: string)
    ensures CheckCommand(h, g, c, command, cwd).Allowed? <==> CommandComplies(h, g, c, command, cwd)
  {
    RulesOf(c, "cmd:");
    DenyRulesOf(g, c, "deny-cmd:", (r: O.Rules) => r.cmds);
    PathsExact(h, g, c, AbsResolve(h, h.redirects(command), cwd), cwd);
  }

  lemma HostExact(h: Host, g: Guard, c: Claims, url: string)
    ensures CheckHost(h, g, c, url).Allowed? <==> HostComplies(h, g, c, url)
  {
    RulesOf(c, "host:");
    DenyRulesOf(g, c, "deny-host:", (r: O.Rules) => r.hosts);
    forall x ensures HostMatches(h.hostOf(url), x) <==> CoversHost(x, h.hostOf(url)) {
      SuffixIsSubdomain(h.hostOf(url), x);
    }
  }

  ghost predicate VerbComplies(h: Host, g: Guard, c: Claims, call: Call) {
    && (call.verb in {"fs.read", "fs.write"} ==> PathsComply(h, g, c, call.paths, call.cwd))
    && (call.verb == "shell.exec" ==> CommandComplies(h, g, c, call.target, call.cwd))
    && (call.verb == "net.fetch" ==> HostComplies(h, g, c, call.target))
  }

  lemma VerbExact(h: Host, g: Guard, c: Claims, call: Call)
    ensures CheckVerb(h, g, c, call).Allowed? <==> VerbComplies(h, g, c, call)
  {
    PathsExact(h, g, c, call.paths, call.cwd);
    CommandExact(h, g, c, call.target, call.cwd);
    HostExact(h, g, c, call.target);
  }

  /** The local time now is within the window, in a known zone. */
  predicate OpenNow(ctx: Context, w: TimeWindow) {
    var t := LocalAt(ctx, w.tz, None);
    && t.Some? && w.startMin <= t.value.minute <= w.endMin
    && (w.weekdays.None? || w.weekdays.value == [] || t.value.weekday in w.weekdays.value)
  }

  /**
   The guard allows a call exactly when a live, unrevoked token grants the capability
   and the tool now, and no single rule of token, overlay or self-protection forbids
   what the call touches, nor leaves it outside a non-empty allow-list.
   */
  lemma AllowedIff(h: Host, g: Guard, ctx: Context, c: Claims, call: Call)
    ensures Decide(h, g, ctx, c, call).Allowed? <==>
              && !g.denyAll && c.issuer == g.issuer && ctx.now < c.expiresAt && c.act.Actor?
              && (exists a <- c.audience :: h.canonicalize(a) == h.canonicalize(g.audience))
              && (g.revoked.Some? && c.id != "" ==> c.id !in g.revoked.value)
              && (c.constraints.Some? && c.constraints.value.window.Some? ==>
                    OpenNow(ctx, c.constraints.value.window.value))
              && (StandsIn(c.scope, call.verb) || StandsIn(c.scope, "*"))
              && (c.constraints.GetOr(UNRESTRICTED).tools != [] ==> call.tool in c.constraints.value.tools)
              && !DenyRule(g, c, "deny-tool:", (r: O.Rules) => r.tools, call.tool)
              && VerbComplies(h, g, c, call)
  {
    DenyRulesOf(g, c, "deny-tool:", (r: O.Rules) => r.tools);
    VerbExact(h, g, c, call);
    InFields(c.scope, call.verb);
    InFields(c.scope, "*");
  }

  // ---- the overlay only tightens -------------------------------------------

  predicate OverlayWithin(a: Option<O.Rules>, b: Option<O.Rules>) {
    a.Some? ==> if b.Some? then O.Within(a.value, b.value) else O.Within(a.value, O.Rules([], [], [], []))
  }

  predicate Subset(a: seq<string>, b: seq<string>) {
    forall x <- a :: x in b
  }

  lemma SubsetOfElements(a: seq<string>, b: seq<string>)
    requires O.Elements(a) <= O.Elements(b)
    ensures Subset(a, b)
  {
    forall x | x in a ensures x in b {
      assert x in O.Elements(a);
    }
  }

  lemma {:induction false} AbsResolveMonotone(h: Host, a: seq<string>, b: seq<string>, cwd: string)
    requires Subset(a, b)
    ensures Subset(AbsResolve(h, a, cwd), AbsResolve(h, b, cwd))
  {
    forall p ensures p in AbsResolve(h, a, cwd) ==> p in AbsResolve(h, b, cwd) {
      InAbsResolve(h, a, cwd, p);
      InAbsResolve(h, b, cwd, p);
    }
  }

  lemma {:induction false} InAbsResolve(h: Host, a: seq<string>, cwd: string, p: string)
    ensures p in AbsResolve(h, a, cwd) <==> p != "" && exists x <- a :: h.absClean(cwd, x) == p
  {
    if a != [] {
      InAbsResolve(h, a[1..], cwd, p);
      assert forall x :: x in a <==> x == a[0] || x in a[1..];
    }
  }

  /** Each deny list under the smaller overlay is within the one under the larger. */
  lemma DenyListsGrow(h: Host, small: Guard, big: Guard, c: Claims, cwd: string)
    requires big == small.(overlay := big.overlay) && OverlayWithin(small.overlay, big.overlay)
    ensures Subset(DeniedTools(small, c), DeniedTools(big, c)) && Subset(DeniedHosts(small, c), DeniedHosts(big, c))
    ensures Subset(DeniedCommands(small, c), DeniedCommands(big, c))
    ensures Subset(DenyRoots(h, small, c, cwd), DenyRoots(h, big, c, cwd))
  {
    var none := O.Rules([], [], [], []);
    if small.overlay.Some? {
      var a := small.overlay.value;
      var b := if big.overlay.Some? then big.overlay.value else none;
      SubsetOfElements(a.paths, b.paths);
      SubsetOfElements(a.cmds, b.cmds);
      SubsetOfElements(a.hosts, b.hosts);
      SubsetOfElements(a.tools, b.tools);
    }
    var deny := ResourceValues(Resources(c), "deny-path:");
    var select := (r: O.Rules) => r.paths;
    AbsResolveMonotone(h, WithOverlay(deny, small.overlay, select), WithOverlay(deny, big.overlay, select), cwd);
  }

  /** Under a larger overlay nothing is allowed that a smaller one, or none, would block. */
  lemma OverlayOnlyTightens(h: Host, small: Guard, big: Guard, ctx: Context, c: Claims, call: Call)
    requires big == small.(overlay := big.overlay) && OverlayWithin(small.overlay, big.overlay)
    requires Decide(h, big, ctx, c, call).Allowed?
    ensures Decide(h, small, ctx, c, call).Allowed?
  {
    DenyListsGrow(h, small, big, c, call.cwd);
  }

  /**
   An empty rule of the overlay reaches what the call touches. The source's path
   cleaning leaves an empty path empty, and its program names are never empty, so in
   practice only host rules and, for a nameless tool, tool rules can do so.
   */
  ghost predicate EmptyRuleHits(h: Host, r: O.Rules, call: Call) {
    || ("" in r.tools && call.tool == "")
    || (call.verb in {"fs.read", "fs.write"} && EmptyPathHits(h, r, call.paths, call.cwd))
    || (call.verb == "shell.exec" && "" in r.cmds && "" in h.executables(call.target))
    || (call.verb == "shell.exec" && EmptyPathHits(h, r, AbsResolve(h, h.redirects(call.target), call.cwd), call.cwd))
    || (call.verb == "net.fetch" && "" in r.hosts && CoversHost("", h.hostOf(call.target)))
  }

  predicate EmptyPathHits(h: Host, r: O.Rules, paths: seq<string>, cwd: string) {
    "" in r.paths && exists p <- paths :: Covers(h, "", cwd, p)
  }

  /** The second overlay has all rules of the first but the empty ones. */
  predicate KeepsNamed(before: O.Rules, after: O.Rules) {
    && (forall x <- before.paths :: x != "" ==> x in after.paths)
    && (forall x <- before.cmds :: x != "" ==> x in after.cmds)
    && (forall x <- before.hosts :: x != "" ==> x in after.hosts)
    && (forall x <- before.tools :: x != "" ==> x in after.tools)
  }

  lemma KeepsNamedIn(before: seq<string>, added: seq<string>, after: seq<string>)
    requires O.Elements(after) == O.Elements(before) + O.Elements(added) - {""}
    ensures forall x <- before :: x != "" ==> x in after
  {
    forall x | x in before && x != "" ensures x in after {
      assert x in O.Elements(before) && x in O.Elements(after);
    }
  }

  lemma UnionKeepsNamed(before: O.Rules, added: O.Rules, after: O.Rules)
    requires O.IsUnion(after, before, added)
    ensures KeepsNamed(before, after)
  {
    KeepsNamedIn(before.paths, added.paths, after.paths);
    KeepsNamedIn(before.cmds, added.cmds, after.cmds);
    KeepsNamedIn(before.hosts, added.hosts, after.hosts);
    KeepsNamedIn(before.tools, added.tools, after.tools);
  }

  lemma PathsUnderFewer(
      h: Host, g: Guard, before: O.Rules, after: O.Rules, c: Claims, paths: seq<string>, cwd: string)
    requires KeepsNamed(before, after) && PathsComply(h, g.(overlay := Some(after)), c, paths, cwd)
    ensures PathsComply(h, g.(overlay := Some(before)), c, paths, cwd) <==> !EmptyPathHits(h, before, paths, cwd)
  {
    var small, big := g.(overlay := Some(before)), g.(overlay := Some(after));
    var select := (r: O.Rules) => r.paths;
    if EmptyPathHits(h, before, paths, cwd) {
      assert DenyRule(small, c, "deny-path:", select, "");
    } else {
      forall p, x | p in paths && DenyRule(small, c, "deny-path:", select, x) ensures !Covers(h, x, cwd, p) {
        assert x == "" || DenyRule(big, c, "deny-path:", select, x);
        assert Rule(c, "deny-path:", x) ==> DenyRule(big, c, "deny-path:", select, x);
      }
    }
  }

  lemma CommandUnderFewer(
      h: Host, g: Guard, before: O.Rules, after: O.Rules, c: Claims, command: string, cwd: string)
    requires KeepsNamed(before, after) && CommandComplies(h, g.(overlay := Some(after)), c, command, cwd)
    ensures CommandComplies(h, g.(overlay := Some(before)), c, command, cwd) <==>
              && !("" in before.cmds && "" in h.executables(command))
              && !EmptyPathHits(h, before, AbsResolve(h, h.redirects(command), cwd), cwd)
  {
    var small, big := g.(overlay := Some(before)), g.(overlay := Some(after));
    var select := (r: O.Rules) => r.cmds;
    if h.redirects(command) != [] {
      PathsUnderFewer(h, g, before, after, c, AbsResolve(h, h.redirects(command), cwd), cwd);
    }
    if "" in before.cmds {
      assert DenyRule(small, c, "deny-cmd:", select, "");
    }
    forall e | e in h.executables(command) && DenyRule(small, c, "deny-cmd:", select, e)
      ensures e == "" && "" in before.cmds
    {
      assert !DenyRule(big, c, "deny-cmd:", select, e);
    }
  }

  lemma HostUnderFewer(h: Host, g: Guard, before: O.Rules, after: O.Rules, c: Claims, url: string)
    requires KeepsNamed(before, after) && HostComplies(h, g.(overlay := Some(after)), c, url)
    ensures HostComplies(h, g.(overlay := Some(before)), c, url)
       <==> !("" in before.hosts && CoversHost("", h.hostOf(url)))
  {
    var small, big := g.(overlay := Some(before)), g.(overlay := Some(after));
    var select := (r: O.Rules) => r.hosts;
    if "" in before.hosts {
      assert DenyRule(small, c, "deny-host:", select, "");
    }
    forall x | DenyRule(small, c, "deny-host:", select, x) && CoversHost(x, h.hostOf(url))
      ensures x == "" && "" in before.hosts
    {
      assert !DenyRule(big, c, "deny-host:", select, x);
    }
  }

  lemma VerbUnderFewer(h: Host, g: Guard, before: O.Rules, after: O.Rules, c: Claims, call: Call)
    requires KeepsNamed(before, after) && VerbComplies(h, g.(overlay := Some(after)), c, call)
    ensures VerbComplies(h, g.(overlay := Some(before)), c, call) && !("" in before.tools && call.tool == "")
       <==> !EmptyRuleHits(h, before, call)
  {
    if call.verb in {"fs.read", "fs.write"} {
      PathsUnderFewer(h, g, before, after, c, call.paths, call.cwd);
    } else if call.verb == "shell.exec" {
      CommandUnderFewer(h, g, before, after, c, call.target, call.cwd);
    } else if call.verb == "net.fetch" {
      HostUnderFewer(h, g, before, after, c, call.target);
    }
  }

  /**
   What is allowed after rules are added was allowed before, exactly when no empty rule
   held before reaches the call; and it is allowed with no overlay at all.
   */
  lemma AddingRulesOnlyTightens(
      h: Host, g: Guard, before: O.Rules, added: O.Rules, after: O.Rules, ctx: Context, c: Claims, call: Call)
    requires O.IsUnion(after, before, added)
    requires Decide(h, g.(overlay := Some(after)), ctx, c, call).Allowed?
    ensures Decide(h, g.(overlay := Some(before)), ctx, c, call).Allowed? <==> !EmptyRuleHits(h, before, call)
    ensures Decide(h, g.(overlay := None), ctx, c, call).Allowed?
  {
    UnionKeepsNamed(before, added, after);
    AllowedIff(h, g.(overlay := Some(after)), ctx, c, call);
    AllowedIff(h, g.(overlay := Some(before)), ctx, c, call);
    VerbUnderFewer(h, g, before, after, c, call);
    ToolsUnderFewer(g, before, after, c, call.tool);
    OverlayOnlyTightens(h, g.(overlay := None), g.(overlay := Some(after)), ctx, c, call);
  }

  lemma ToolsUnderFewer(g: Guard, before: O.Rules, after: O.Rules, c: Claims, tool: string)
    requires KeepsNamed(before, after)
    requires !DenyRule(g.(overlay := Some(after)), c, "deny-tool:", (r: O.Rules) => r.tools, tool)
    ensures DenyRule(g.(overlay := Some(before)), c, "deny-tool:", (r: O.Rules) => r.tools, tool)
       <==> tool == "" && "" in before.tools
  {
  }

  /** An overlay file may hold an empty host rule, which blocks unparseable URLs; adding any rule drops it. */
  lemma EmptyRuleExample(h: Host, g: Guard, c: Claims)
    requires h.hostOf("x") == ""
    requires Resources(c) == []
    ensures var before := O.Rules([], [], [""], []);
            var after := O.Rules([], [], ["evil"], []);
            && O.IsUnion(after, before, O.Rules([], [], ["evil"], []))
            && CheckHost(h, g.(overlay := Some(before)), c, "x").Blocked?
            && CheckHost(h, g.(overlay := Some(after)), c, "x").Allowed?
  {
    var before := g.(overlay := Some(O.Rules([], [], [""], [])));
    var after := g.(overlay := Some(O.Rules([], [], ["evil"], [])));
    assert O.Elements([""]) == {""} && O.Elements(["evil"]) == {"evil"};
    assert DeniedHosts(before, c) == [""] && "" in DeniedHosts(before, c);
    assert DeniedHosts(after, c) == ["evil"];
  }

  // ---- offline sub-delegation ----------------------------------------------

  const DEFAULT_ISSUER := "https://legant.local"
  const DEFAULT_AUDIENCE := "legant:claude-code"

  /** Mints a child token from a parent's, under the local key. */
  function MintChildToken(
      parent: Claims, childAgent: string, requested: seq<string>, ttl: int, now: Instant, jti: string): Result<Claims>
  {
    var scopes := Attenuate(Fields(parent.scope), requested);
    if parent.issuer != DEFAULT_ISSUER || parent.expiresAt <= now then Err("parent token invalid")
    else if scopes == [] then Err("requested scopes are not a subset of the parent's")
    else if |scopes| != |requested| then Err("requested scopes exceed the parent's authority")
    else
      var agent := if childAgent == "" then "agent:subagent" else childAgent;
      Ok(IssueClaims(
           DEFAULT_ISSUER, parent.subject, Actor(agent, parent.act), scopes, DEFAULT_AUDIENCE,
           Some(Tighten(parent.constraints.GetOr(UNRESTRICTED), UNRESTRICTED)),
           Min(now + ttl, parent.expiresAt), now, jti))
  }

  /**
   A child is minted exactly when the parent verifies under the local issuer and holds
   all of at least one requested scope.
   */
  lemma ChildIff(
      parent: Claims, childAgent: string, requested: seq<string>, ttl: int, now: Instant, jti: string)
    ensures MintChildToken(parent, childAgent, requested, ttl, now, jti).Ok?
       <==> && parent.issuer == DEFAULT_ISSUER && now < parent.expiresAt
            && requested != [] && forall s <- requested :: s in Fields(parent.scope)
  {
    var keep := MemberOf(Fields(parent.scope));
    FilterSameLength(requested, keep);
    if forall s <- requested :: s in Fields(parent.scope) {
      FilterAll(requested, keep);
    }
  }

  /**
   The child's scopes are the ones requested, all held by the parent; it has the
   parent's subject and constraints, its provenance extends the parent's by the named
   agent, and it lives as long as asked or as the parent, whichever is less.
   */
  lemma ChildExtendsParent(
      parent: Claims, childAgent: string, requested: seq<string>, ttl: int, now: Instant, jti: string)
    requires MintChildToken(parent, childAgent, requested, ttl, now, jti).Ok?
    ensures var child := MintChildToken(parent, childAgent, requested, ttl, now, jti).value;
            && child.issuer == DEFAULT_ISSUER && child.audience == [DEFAULT_AUDIENCE] && child.id == jti
            && Fields(child.scope) == requested && IsSubset(requested, Fields(parent.scope))
            && child.constraints == Some(parent.constraints.GetOr(UNRESTRICTED))
            && child.act == Actor(if childAgent == "" then "agent:subagent" else childAgent, parent.act)
            && ProvenanceParts(child) == ProvenanceParts(parent) + [child.act.sub]
            && child.subject == parent.subject
            && child.expiresAt <= parent.expiresAt && child.expiresAt <= now + ttl && child.expiresAt % SECOND == 0
            && (now + ttl < child.expiresAt + SECOND || parent.expiresAt < child.expiresAt + SECOND)
  {
    var child := MintChildToken(parent, childAgent, requested, ttl, now, jti).value;
    var scopes := Attenuate(Fields(parent.scope), requested);
    FilterSameLength(requested, MemberOf(Fields(parent.scope)));
    SplitYieldsWords(parent.scope, "");
    FieldsOfJoin(scopes);
    WordsOfWords(scopes);
    assert Reverse(ActorChain(child.act)) == Reverse(ActorChain(parent.act)) + [child.act.sub];
  }

  lemma SamePaths(h: Host, g: Guard, c: Claims, d: Claims, paths: seq<string>, cwd: string)
    requires Resources(c) == Resources(d)
    ensures CheckPaths(h, g, c, paths, cwd) == CheckPaths(h, g, d, paths, cwd)
  {
    assert DenyRoots(h, g, c, cwd) == DenyRoots(h, g, d, cwd);
  }

  lemma SameCommand(h: Host, g: Guard, c: Claims, d: Claims, command: string, cwd: string)
    requires Resources(c) == Resources(d)
    ensures CheckCommand(h, g, c, command, cwd) == CheckCommand(h, g, d, command, cwd)
  {
    assert DeniedCommands(g, c) == DeniedCommands(g, d);
    SamePaths(h, g, c, d, AbsResolve(h, h.redirects(command), cwd), cwd);
  }

  lemma SameHost(h: Host, g: Guard, c: Claims, d: Claims, url: string)
    requires Resources(c) == Resources(d)
    ensures CheckHost(h, g, c, url) == CheckHost(h, g, d, url)
  {
    assert DeniedHosts(g, c) == DeniedHosts(g, d);
  }

  lemma SameResourcesSameChecks(h: Host, g: Guard, c: Claims, d: Claims, call: Call)
    requires Resources(c) == Resources(d)
    ensures CheckVerb(h, g, c, call) == CheckVerb(h, g, d, call) && DeniedTools(g, c) == DeniedTools(g, d)
  {
    SamePaths(h, g, c, d, call.paths, call.cwd);
    SameCommand(h, g, c, d, call.target, call.cwd);
    SameHost(h, g, c, d, call.target);
  }

  /** A token with as much authority as an allowed one is allowed, exactly when it verifies and is not revoked. */
  lemma WiderIsAllowed(h: Host, g: Guard, ctx: Context, call: Call, wide: Claims, narrow: Claims)
    requires Decide(h, g, ctx, narrow, call).Allowed?
    requires wide.issuer == narrow.issuer && narrow.expiresAt <= wide.expiresAt
    requires IsSubset(Fields(narrow.scope), Fields(wide.scope))
    requires narrow.constraints == Some(wide.constraints.GetOr(UNRESTRICTED))
    ensures Decide(h, g, ctx, wide, call).Allowed? <==>
              && wide.act.Actor? && !IsRevoked(g, wide)
              && exists a <- wide.audience :: h.canonicalize(a) == h.canonicalize(g.audience)
  {
    SameResourcesSameChecks(h, g, narrow, wide, call);
  }

  /**
   A call the guard allows the child, it allows the parent, exactly when the parent's
   token verifies at this guard and is not itself revoked.
   */
  lemma ChildAllowsOnlyWhatParentMay(
      h: Host, g: Guard, ctx: Context, call: Call, parent: Claims, childAgent: string, requested: seq<string>,
      ttl: int, now: Instant, jti: string)
    requires MintChildToken(parent, childAgent, requested, ttl, now, jti).Ok?
    requires Decide(h, g, ctx, MintChildToken(parent, childAgent, requested, ttl, now, jti).value, call).Allowed?
    ensures Decide(h, g, ctx, parent, call).Allowed? <==>
              && parent.act.Actor? && !IsRevoked(g, parent)
              && exists a <- parent.audience :: h.canonicalize(a) == h.canonicalize(g.audience)
  {
    ChildExtendsParent(parent, childAgent, requested, ttl, now, jti);
    WiderIsAllowed(h, g, ctx, call, parent, MintChildToken(parent, childAgent, requested, ttl, now, jti).value);
  }
}
