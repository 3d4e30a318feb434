/** The token-exchange handler, from the resolved grant chain to the minted token. */
module TokenExchange {
  import opened Sequences
  import opened Wrappers
  import opened Text
  import opened Policy
  import opened Chains

  /** RFC 8707 canonicalization, which can fail. */
  type Canonicalizer = string -> Option<string>

  predicate ResourceMatches(canon: Canonicalizer, requested: string, allowed: string) {
    canon(requested).Some? && canon(requested) == canon(allowed)
  }

  function EffectiveScopes(grant: Grant, subjectScopes: seq<string>, requested: seq<string>): seq<string> {
    Attenuate(subjectScopes, Attenuate(grant.scopes, requested))
  }

  /** The ceiling of an exchange: all that is requested, delegated and held by the subject token, in that order. */
  lemma EffectiveScopesIff(grant: Grant, subjectScopes: seq<string>, requested: seq<string>)
    ensures EffectiveScopes(grant, subjectScopes, requested)
         == Filter(requested, s => s in grant.scopes && s in subjectScopes)
    ensures forall s :: s in EffectiveScopes(grant, subjectScopes, requested)
              <==> s in requested && s in grant.scopes && s in subjectScopes
  {
    FilterFilter(requested, MemberOf(grant.scopes), MemberOf(subjectScopes),
                 s => s in grant.scopes && s in subjectScopes);
  }

  lemma AttenuateAll(scopes: seq<string>)
    ensures Attenuate(scopes, scopes) == scopes
  {
    AttenuateSelf(scopes, scopes);
  }

  lemma {:induction false} AttenuateSelf(parent: seq<string>, requested: seq<string>)
    requires IsSubset(requested, parent)
    ensures Attenuate(parent, requested) == requested
  {
    if requested != [] {
      var n := |requested| - 1;
      assert requested[n] in requested;
      AttenuateSelf(parent, requested[..n]);
      assert requested[..n] + [requested[n]] == requested;
    }
  }

  /** When an exchange mints a token, in terms of what the caller presents. */
  predicate Exchangeable(
      grant: Grant, subjectScopes: seq<string>, requested: seq<string>, canon: Canonicalizer, resource: string,
      ttl: int, now: Instant, verifiedAt: Instant)
  {
    && (exists s <- requested :: s in grant.scopes && s in subjectScopes)
    && canon(resource).Some?
    && canon(canon(resource).value).Some?
    && canon(resource).value in grant.constraints.resources
    && now < Min(now + ttl, grant.expiresAt)
    && verifiedAt < NumericDate(Min(now + ttl, grant.expiresAt))
  }

  /**
   An exchange mints only for a resource the grant lists. The sentinel is no resource
   at all, so a grant it mints under denies nothing outright, unless the list is
   ill-formed: the sentinel beside that resource.
   */
  lemma ExchangedResources(
      grant: Grant, subjectScopes: seq<string>, requested: seq<string>, canon: Canonicalizer, resource: string,
      ttl: int, now: Instant, verifiedAt: Instant)
    requires canon(DENY_ALL).None?
    requires Exchangeable(grant, subjectScopes, requested, canon, resource, ttl, now, verifiedAt)
    ensures DENY_ALL in grant.constraints.resources <==> !SentinelAlone(grant.constraints.resources)
  {
    assert canon(resource).value in grant.constraints.resources && canon(resource).value != DENY_ALL;
  }

  lemma ClampKeepsProvenance(grant: Grant, exp: Instant, scopes: seq<string>)
    ensures var clamped := grant.(expiresAt := exp, scopes := scopes);
            && Links(clamped)[0].delegator == Links(grant)[0].delegator
            && Delegatees(clamped) == Delegatees(grant)
  {
    DelegateesStep(grant.(expiresAt := exp, scopes := scopes));
    DelegateesStep(grant);
  }

  /** Scopes taken from a scope string are words, so the token's own string holds just them. */
  lemma ExchangedScopes(effective: seq<string>, scopeParam: string)
    requires IsSubset(effective, Fields(scopeParam))
    ensures forall s :: HasScope(Join(effective, " "), s) <==> s in effective
  {
    SplitYieldsWords(scopeParam, "");
    forall s ensures HasScope(Join(effective, " "), s) <==> s in effective {
      JoinedScopes(effective, s);
    }
  }

  /** The token's fields: the grant's chain and constraints, and the lesser of the two lifetimes in whole seconds. */
  predicate ExchangedFor(
      c: Claims, grant: Grant, issuer: string, audience: string, ttl: int, now: Instant, jti: string)
  {
    && c.issuer == issuer && c.id == jti && c.audience == [audience]
    && c.subject == Links(grant)[0].delegator && ActorChain(c.act) == Reverse(Delegatees(grant))
    && c.constraints == Some(grant.constraints)
    && c.issuedAt <= now < c.issuedAt + SECOND && c.issuedAt % SECOND == 0
    && c.expiresAt % SECOND == 0 && c.expiresAt <= now + ttl && c.expiresAt <= grant.expiresAt
    && (now + ttl < c.expiresAt + SECOND || grant.expiresAt < c.expiresAt + SECOND)
  }

  /** Issuing under the clamped grant: all the scopes, the original chain, and the clamped expiry. */
  lemma ClampedToken(
      issuer: string, grant: Grant, effective: seq<string>, audience: string, exp: Instant, now: Instant, jti: string)
    requires effective != [] && IsSubset(effective, grant.scopes) && exp <= grant.expiresAt
    ensures var r := IssueForGrant(
                       issuer, grant.(expiresAt := exp, scopes := effective), effective, audience, now, jti);
            && (r.Ok? <==> grant.constraints.resources == [] || audience in grant.constraints.resources)
            && (r.Ok? ==>
                  && IssuedUnder(r.value, grant, effective)
                  && r.value.issuer == issuer && r.value.id == jti && r.value.audience == [audience]
                  && r.value.subject == Links(grant)[0].delegator
                  && ActorChain(r.value.act) == Reverse(Delegatees(grant))
                  && r.value.issuedAt == NumericDate(now) && r.value.expiresAt == NumericDate(exp))
  {
    AttenuateAll(effective);
    ClampKeepsProvenance(grant, exp, effective);
    ActorChainOfNest(Delegatees(grant));
  }

  /** An exchanged token: issued under the grant, for every scope that request, grant and subject token share. */
  ghost predicate Exchanged(
      c: Claims, grant: Grant, subjectScopes: seq<string>, scopeParam: string, issuer: string, audience: string,
      ttl: int, now: Instant, jti: string)
  {
    && ExchangedFor(c, grant, issuer, audience, ttl, now, jti)
    && IssuedUnder(c, grant, EffectiveScopes(grant, subjectScopes, Fields(scopeParam)))
    && forall s :: HasScope(c.scope, s) <==> s in Fields(scopeParam) && s in grant.scopes && s in subjectScopes
  }

  lemma ExchangeMints(
      issuer: string, grant: Grant, subjectScopes: seq<string>, scopeParam: string, audience: string,
      exp: Instant, ttl: int, now: Instant, jti: string)
    requires EffectiveScopes(grant, subjectScopes, Fields(scopeParam)) != [] && exp == Min(now + ttl, grant.expiresAt)
    ensures var effective := EffectiveScopes(grant, subjectScopes, Fields(scopeParam));
            var r := IssueForGrant(
                       issuer, grant.(expiresAt := exp, scopes := effective), effective, audience, now, jti);
            && (r.Ok? <==> grant.constraints.resources == [] || audience in grant.constraints.resources)
            && (r.Ok? ==>
                  && Exchanged(r.value, grant, subjectScopes, scopeParam, issuer, audience, ttl, now, jti)
                  && r.value.expiresAt == NumericDate(exp))
  {
    var effective := EffectiveScopes(grant, subjectScopes, Fields(scopeParam));
    EffectiveScopesIff(grant, subjectScopes, Fields(scopeParam));
    ExchangedScopes(effective, scopeParam);
    ClampedToken(issuer, grant, effective, audience, exp, now, jti);
  }

  method ResourcePermitted(canon: Canonicalizer, requested: string, resources: seq<string>) returns (allowed: bool)
    ensures allowed <==> exists r <- resources :: canon(requested).Some? && canon(requested) == canon(r)
  {
    allowed := false;
    for i := 0 to |resources|
      invariant !allowed && forall k | 0 <= k < i :: !ResourceMatches(canon, requested, resources[k])
    {
      if ResourceMatches(canon, requested, resources[i]) {
        return true;
      }
    }
  }

  /**
   Clamps the grant's lifetime and scopes, mints under it and verifies the result.
   The expiry is cut to whole seconds, so a token of less than a second can fail its
   own verification.
   */
  method Exchange(
      issuer: string, resolved: Grant, subjectScopes: seq<string>, scopeParam: string, resource: string,
      canon: Canonicalizer, ttl: int, now: Instant, verifiedAt: Instant, jti: string)
    returns (r: Result<Claims>)
    ensures r.Ok? <==>
              Exchangeable(resolved, subjectScopes, Fields(scopeParam), canon, resource, ttl, now, verifiedAt)
    ensures r.Ok? ==>
              && Exchanged(r.value, resolved, subjectScopes, scopeParam, issuer, canon(resource).value, ttl, now, jti)
              && verifiedAt < r.value.expiresAt
  {
    var requested := Fields(scopeParam);
    var within := ComputeAttenuate(resolved.scopes, requested);
    var effective := ComputeAttenuate(subjectScopes, within);
    EffectiveScopesIff(resolved, subjectScopes, requested);
    if effective == [] {
      return Err("requested scopes exceed the delegation or the subject token");
    }
    var canonical := canon(resource);
    if canonical.None? {
      return Err("invalid resource indicator");
    }
    var allowed := ResourcePermitted(canon, canonical.value, resolved.constraints.resources);
    if !allowed {
      return Err("resource not permitted by the delegation");
    }
    var exp := now + ttl;
    if resolved.expiresAt < exp {
      exp := resolved.expiresAt;
    }
    if exp <= now {
      return Err("delegation has expired");
    }
    ExchangeMints(issuer, resolved, subjectScopes, scopeParam, canonical.value, exp, ttl, now, jti);
    var grant := resolved.(expiresAt := exp, scopes := effective);
    r := IssueForGrant(issuer, grant, effective, canonical.value, now, jti);
    if r.Ok? && r.value.expiresAt <= verifiedAt {
      r := Err("minted token failed self-verification");
    }
  }
}
