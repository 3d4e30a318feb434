/** The MCP gateway's hop: it answers an inbound token with a fresh, narrower downstream token. */
module Gateway {
  import opened Wrappers
  import opened Text
  import opened Policy
  import opened Chains
  import X = TokenExchange

  function DownstreamConstraints(c: Option<Constraints>, tool: string): Option<Constraints> {
    if c.None? then None else Some(c.value.(tools := [tool], resources := []))
  }

  function DiscoveryConstraints(c: Option<Constraints>): Option<Constraints> {
    if c.None? then None else Some(c.value.(resources := []))
  }

  function ClampExpiry(now: Instant, ttl: int, inbound: Claims): Instant {
    Min(now + ttl, inbound.expiresAt)
  }

  /** The gateway asks only for the tool's scope and the tool itself. */
  function ToolAction(scope: string, tool: string): Action {
    Action(scope, 0.0, "", tool, "", None)
  }

  /** A tools/call: authorize the named tool, then mint for that tool alone. */
  function CallTool(
      issuer: string, ctx: Context, inbound: Claims, toolScopes: map<string, string>, tool: string,
      upstream: string, ttl: int, jti: string): Result<Claims>
  {
    if tool !in toolScopes then Err("unknown or disallowed tool")
    else if !Authorize(Issuer, ctx, inbound, ToolAction(toolScopes[tool], tool)) then Err("forbidden")
    else Ok(IssueClaims(
              issuer, inbound.subject, inbound.act, [toolScopes[tool]], upstream,
              DownstreamConstraints(inbound.constraints, tool), ClampExpiry(ctx.now, ttl, inbound), ctx.now, jti))
  }

  /** Handshake and discovery methods: every scope, no single tool, nothing authorized first. */
  function Discover(
      issuer: string, ctx: Context, inbound: Claims, upstream: string, ttl: int, jti: string): Claims
  {
    IssueClaims(
      issuer, inbound.subject, inbound.act, Fields(inbound.scope), upstream,
      DiscoveryConstraints(inbound.constraints), ClampExpiry(ctx.now, ttl, inbound), ctx.now, jti)
  }

  function ResourcesOf(c: Claims): seq<string> {
    if c.constraints.None? then [] else c.constraints.value.resources
  }

  lemma SoleScope(scope: string, inbound: string, s: string)
    requires HasScope(inbound, scope)
    ensures HasScope(Join([scope], " "), s) <==> s == scope
  {
    SplitYieldsWords(inbound, "");
    JoinedScopes([scope], s);
  }

  /**
   The tools/call hop adds no authority. At any decision point and at any later
   time, an action the downstream token authorizes is authorized by the inbound
   token when it names no resource; when it names one, exactly if the inbound
   token's resource list permits that.
   */
  lemma CallNeverWidens(
      issuer: string, ctx: Context, inbound: Claims, toolScopes: map<string, string>, tool: string,
      upstream: string, ttl: int, jti: string, pdp: Pdp, later: Context, a: Action)
    requires CallTool(issuer, ctx, inbound, toolScopes, tool, upstream, ttl, jti).Ok?
    ensures var down := CallTool(issuer, ctx, inbound, toolScopes, tool, upstream, ttl, jti).value;
            && down.subject == inbound.subject && down.act == inbound.act && down.audience == [upstream]
            && down.expiresAt <= inbound.expiresAt
            && (Authorize(pdp, later, down, a) ==>
                 && (inbound.constraints.Some? ==> a.tool == "" || a.tool == tool)
                 && Authorize(pdp, later, inbound, a.(resource := ""))
                 && (Authorize(pdp, later, inbound, a) <==> PermitList(pdp, ResourcesOf(inbound), a.resource)))
  {
    SoleScope(toolScopes[tool], inbound.scope, a.scope);
  }

  /** The narrowing is only ever by tool and resource: what the inbound token grants for this tool survives. */
  lemma CallKeepsTheTool(
      issuer: string, ctx: Context, inbound: Claims, toolScopes: map<string, string>, tool: string,
      upstream: string, ttl: int, jti: string, pdp: Pdp, later: Context, a: Action)
    requires CallTool(issuer, ctx, inbound, toolScopes, tool, upstream, ttl, jti).Ok?
    requires Authorize(pdp, later, inbound, a) && a.scope == toolScopes[tool] && a.tool == tool && tool != DENY_ALL
    ensures Authorize(pdp, later, CallTool(issuer, ctx, inbound, toolScopes, tool, upstream, ttl, jti).value, a)
  {
    SoleScope(toolScopes[tool], inbound.scope, a.scope);
    assert tool in [tool] && Listed(Issuer, [tool], tool);
  }

  /** The hop's token lives as long as configured or as the inbound one, whichever is less, cut to whole seconds. */
  predicate HopToken(
      down: Claims, inbound: Claims, issuer: string, upstream: string, now: Instant, ttl: int, jti: string)
  {
    && down.issuer == issuer && down.subject == inbound.subject && down.act == inbound.act
    && down.audience == [upstream] && down.id == jti
    && down.issuedAt <= now < down.issuedAt + SECOND && down.issuedAt % SECOND == 0
    && down.expiresAt % SECOND == 0 && down.expiresAt <= now + ttl && down.expiresAt <= inbound.expiresAt
    && (now + ttl < down.expiresAt + SECOND || inbound.expiresAt < down.expiresAt + SECOND)
  }

  /** A call passes exactly when the tool is exposed and the inbound token authorizes it by scope and name. */
  lemma CallToolIff(
      issuer: string, ctx: Context, inbound: Claims, toolScopes: map<string, string>, tool: string,
      upstream: string, ttl: int, jti: string)
    ensures var r := CallTool(issuer, ctx, inbound, toolScopes, tool, upstream, ttl, jti);
            && (r.Ok? <==>
                  && tool in toolScopes
                  && Authorize(Issuer, ctx, inbound, Action(toolScopes[tool], 0.0, "", tool, "", None)))
            && (r.Ok? ==>
                  && HopToken(r.value, inbound, issuer, upstream, ctx.now, ttl, jti)
                  && forall s :: HasScope(r.value.scope, s) <==> s == toolScopes[tool])
  {
    if CallTool(issuer, ctx, inbound, toolScopes, tool, upstream, ttl, jti).Ok? {
      forall s ensures HasScope(Join([toolScopes[tool]], " "), s) <==> s == toolScopes[tool] {
        SoleScope(toolScopes[tool], inbound.scope, s);
      }
    }
  }

  /** The discovery token keeps every scope and every constraint but the resource list. */
  lemma DiscoveryToken(
      issuer: string, ctx: Context, inbound: Claims, upstream: string, ttl: int, jti: string)
    ensures var down := Discover(issuer, ctx, inbound, upstream, ttl, jti);
            && HopToken(down, inbound, issuer, upstream, ctx.now, ttl, jti)
            && (forall s :: HasScope(down.scope, s) <==> HasScope(inbound.scope, s))
            && (down.constraints.Some? <==> inbound.constraints.Some?)
            && (down.constraints.Some? ==> down.constraints.value == inbound.constraints.value.(resources := []))
  {
    SplitYieldsWords(inbound.scope, "");
    forall s ensures HasScope(Join(Fields(inbound.scope), " "), s) <==> HasScope(inbound.scope, s) {
      JoinedScopes(Fields(inbound.scope), s);
    }
  }

  /** Hence the downstream token stays within every grant of the chain behind the inbound one. */
  lemma CallWithinAncestors(
      issuer: string, ctx: Context, inbound: Claims, toolScopes: map<string, string>, tool: string,
      upstream: string, ttl: int, jti: string, pdp: Pdp, later: Context, a: Action,
      root: Grant, requests: seq<Request>, maxDepth: int, scopes: seq<string>)
    requires CallTool(issuer, ctx, inbound, toolScopes, tool, upstream, ttl, jti).Ok?
    requires root.parent.None? && Build(root, requests, maxDepth).Ok? && Clean(root, requests, maxDepth)
    requires IssuedUnder(inbound, Build(root, requests, maxDepth).value, scopes)
    requires Authorize(pdp, later, CallTool(issuer, ctx, inbound, toolScopes, tool, upstream, ttl, jti).value, a)
    ensures forall h <- Links(Build(root, requests, maxDepth).value) ::
              Holds(h.scopes, a.scope) && Permit(pdp, later, h.constraints, a.(resource := ""))
  {
    CallNeverWidens(issuer, ctx, inbound, toolScopes, tool, upstream, ttl, jti, pdp, later, a);
    TokenWithinAncestors(pdp, later, root, requests, maxDepth, scopes, inbound, a.(resource := ""));
  }

  /**
   The discovery hop drops the resource list without looking at it, so it adds no
   authority exactly when that list was not the deny-all sentinel's.
   */
  lemma DiscoveryNeverWidens(
      issuer: string, ctx: Context, inbound: Claims, upstream: string, ttl: int, jti: string,
      pdp: Pdp, later: Context, a: Action)
    requires a.resource == ""
    ensures var down := Discover(issuer, ctx, inbound, upstream, ttl, jti);
            && down.subject == inbound.subject && down.act == inbound.act && down.expiresAt <= inbound.expiresAt
            && (Authorize(pdp, later, inbound, a) <==>
                  Authorize(pdp, later, down, a) && DENY_ALL !in ResourcesOf(inbound))
  {
    SplitYieldsWords(inbound.scope, "");
    JoinedScopes(Fields(inbound.scope), a.scope);
  }

  /**
   No exchange under a well-formed grant mints a token with that list. So for every
   token exchanged under a chain of well-formed requests, the discovery hop authorizes
   exactly the inbound token's resource-free actions, all within every ancestor grant.
   */
  lemma DiscoveryWithinAncestors(
      issuer: string, ctx: Context, inbound: Claims, upstream: string, ttl: int, jti: string,
      pdp: Pdp, later: Context, a: Action, root: Grant, requests: seq<Request>, maxDepth: int,
      subjectScopes: seq<string>, requested: seq<string>, canon: X.Canonicalizer, resource: string,
      life: int, exchangedAt: Instant, verifiedAt: Instant, scopes: seq<string>)
    requires root.parent.None? && Build(root, requests, maxDepth).Ok?
    requires WellFormed(root.constraints) && forall r <- requests :: WellFormed(r.constraints)
    requires canon(DENY_ALL).None?
    requires X.Exchangeable(
               Build(root, requests, maxDepth).value, subjectScopes, requested, canon, resource, life, exchangedAt,
               verifiedAt)
    requires IssuedUnder(inbound, Build(root, requests, maxDepth).value, scopes)
    requires a.resource == ""
    ensures var down := Discover(issuer, ctx, inbound, upstream, ttl, jti);
            && (Authorize(pdp, later, inbound, a) <==> Authorize(pdp, later, down, a))
            && (Authorize(pdp, later, down, a) ==>
                  forall h <- Links(Build(root, requests, maxDepth).value) ::
                    Holds(h.scopes, a.scope) && Permit(pdp, later, h.constraints, a))
  {
    var leaf := Build(root, requests, maxDepth).value;
    WellFormedIsClean(root, requests, maxDepth);
    X.ExchangedResources(leaf, subjectScopes, requested, canon, resource, life, exchangedAt, verifiedAt);
    DiscoveryNeverWidens(issuer, ctx, inbound, upstream, ttl, jti, pdp, later, a);
    if Authorize(pdp, later, inbound, a) {
      TokenWithinAncestors(pdp, later, root, requests, maxDepth, scopes, inbound, a);
    }
  }
}
