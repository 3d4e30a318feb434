/** The gateway's in-memory set of revoked ids, checked instead of the store in feed mode. */
module RevokedCache {
  import opened Wrappers
  import opened Revocation

  /** The gateway's answer, from the set it holds, if it holds one yet. */
  predicate Accepts(cache: Option<set<Jti>>, jti: Jti) {
    cache.Some? && jti !in cache.value
  }

  class Cache {
    var ids: set<Jti>
    var loaded: bool

    constructor ()
      ensures View() == None
    {
      ids, loaded := {}, false;
    }

    /** `rows` is what the query for the revoked, unexpired ids returned. */
    method Refresh(rows: seq<Jti>)
      modifies this
      ensures View() == Some(set j | j in rows)
    {
      var listed: set<Jti> := {};
      for i := 0 to |rows|
        invariant listed == set j | j in rows[..i]
      {
        listed := listed + {rows[i]};
      }
      assert rows[..|rows|] == rows;
      ids, loaded := listed, true;
    }

    function View(): Option<set<Jti>>
      reads this
    {
      if loaded then Some(ids) else None
    }

    /** Fails closed until the first load. */
    method TokenActive(jti: Jti) returns (active: bool)
      ensures active <==> Accepts(View(), jti)
    {
      active := loaded && jti !in ids;
    }
  }

  /**
   At the instant of a refresh the cache and the store answer alike exactly for
   recorded, unexpired tokens, and on the very tick of expiry for unrevoked ones.
   The cache never refuses what the store accepts.
   */
  lemma AgreesAtRefresh(t: Table, jti: Jti, now: Instant)
    ensures (jti !in RevokedIds(t, now) <==> IsActive(t, jti, now))
       <==> jti in t && (now < t[jti].expiresAt || (now == t[jti].expiresAt && t[jti].revokedAt.None?))
    ensures IsActive(t, jti, now) ==> jti !in RevokedIds(t, now)
  {
  }

  lemma StepRemembers(publishers: set<string>, w: World, e: Event)
    requires StoreSound(w) && Enabled(publishers, w, e)
    ensures var t := Next(publishers, w, e);
            && w.now <= t.now && w.everRevoked <= t.everRevoked
            && forall j <- w.issued :: j in t.issued && t.issued[j] == w.issued[j]
  {
  }

  lemma {:induction false} RunRemembers(publishers: set<string>, events: seq<Event>, k: nat)
    requires Run(publishers, events).Some? && k <= |events|
    ensures Run(publishers, events[..k]).Some?
    ensures var w, t := Run(publishers, events[..k]).value, Run(publishers, events).value;
            && StoreSound(w) && StoreSound(t)
            && w.now <= t.now && w.everRevoked <= t.everRevoked
            && forall j <- w.issued :: j in t.issued && t.issued[j] == w.issued[j]
  {
    if events != [] {
      var n := |events| - 1;
      RunRemembers(publishers, events[..n], if k <= n then k else n);
      StepKeepsStore(publishers, Run(publishers, events[..n]).value, events[n]);
      StepRemembers(publishers, Run(publishers, events[..n]).value, events[n]);
      assert k <= n ==> events[..n][..k] == events[..k];
      assert events[..|events|] == events && events[..n][..n] == events[..n];
    }
  }

  /**
   Any time after a refresh, for a recorded token that has not expired: the cache
   refuses nothing the store accepts, and accepts what the store refuses only if the
   token was revoked since the refresh.
   */
  lemma BetweenRefreshes(publishers: set<string>, events: seq<Event>, k: nat, jti: Jti)
    requires Run(publishers, events).Some? && k <= |events| && Run(publishers, events[..k]).Some?
    requires var t := Run(publishers, events).value; jti in t.issued && t.now < t.issued[jti]
    ensures var w, t := Run(publishers, events[..k]).value, Run(publishers, events).value;
            var ids := RevokedIds(w.table, w.now);
            && (IsActive(t.table, jti, t.now) ==> jti !in ids)
            && (jti !in ids && !IsActive(t.table, jti, t.now) <==> jti in t.everRevoked && jti !in w.everRevoked)
  {
    RunRemembers(publishers, events, k);
  }

  // ---- runs of the gateway -------------------------------------------------

  /** A step of the issuer's world, or an attempt to refresh, which may fail. */
  datatype Step = Issuer(event: Event) | Refresh(ok: bool)

  datatype Gateway = Gateway(world: World, cache: Option<set<Jti>>)

  function RunGateway(publishers: set<string>, steps: seq<Step>): Option<Gateway> {
    if steps == [] then Some(Gateway(INITIAL, None))
    else
      var n := |steps| - 1;
      var g := RunGateway(publishers, steps[..n]);
      if g.None? then None
      else
        match steps[n]
        case Issuer(e) =>
          var w := g.value.world;
          if Enabled(publishers, w, e) then Some(g.value.(world := Next(publishers, w, e))) else None
        case Refresh(ok) =>
          if ok then Some(g.value.(cache := Some(RevokedIds(g.value.world.table, g.value.world.now)))) else g
  }

  /** How long the run was at its last successful refresh. */
  function LastRefresh(steps: seq<Step>): (r: Option<nat>)
    ensures r.Some? ==> r.value < |steps|
  {
    if steps == [] then None
    else if steps[|steps| - 1] == Refresh(true) then Some(|steps| - 1)
    else LastRefresh(steps[..|steps| - 1])
  }

  /** The set held is the one read at that refresh, and the world has only moved on since. */
  predicate HoldsRead(publishers: set<string>, steps: seq<Step>, g: Gateway) {
    && StoreSound(g.world)
    && (LastRefresh(steps).None? ==> g.cache.None?)
    && (LastRefresh(steps).Some? ==>
          && RunGateway(publishers, steps[..LastRefresh(steps).value]).Some?
          && var w := RunGateway(publishers, steps[..LastRefresh(steps).value]).value.world;
             && g.cache == Some(RevokedIds(w.table, w.now)) && StoreSound(w)
             && w.now <= g.world.now && w.everRevoked <= g.world.everRevoked
             && forall j <- w.issued :: j in g.world.issued && g.world.issued[j] == w.issued[j])
  }

  lemma {:induction false} RunHoldsRead(publishers: set<string>, steps: seq<Step>)
    requires RunGateway(publishers, steps).Some?
    ensures HoldsRead(publishers, steps, RunGateway(publishers, steps).value)
  {
    if steps != [] {
      var n := |steps| - 1;
      RunHoldsRead(publishers, steps[..n]);
      var g := RunGateway(publishers, steps[..n]).value;
      if steps[n].Issuer? {
        StepKeepsStore(publishers, g.world, steps[n].event);
        StepRemembers(publishers, g.world, steps[n].event);
      }
      if LastRefresh(steps[..n]).Some? {
        assert steps[..n][..LastRefresh(steps[..n]).value] == steps[..LastRefresh(steps[..n]).value];
      }
    }
  }

  /**
   In every run, the gateway refuses every token until a refresh succeeds. From then on
   it refuses a recorded, unexpired token exactly if it was revoked before the last
   refresh that succeeded; so it refuses none that the store accepts.
   */
  lemma RefusesExactly(publishers: set<string>, steps: seq<Step>, jti: Jti)
    requires RunGateway(publishers, steps).Some?
    ensures var g := RunGateway(publishers, steps).value;
            match LastRefresh(steps)
            case None => !Accepts(g.cache, jti)
            case Some(k) =>
              jti in g.world.issued && g.world.now < g.world.issued[jti] ==>
                && RunGateway(publishers, steps[..k]).Some?
                && (Accepts(g.cache, jti) <==> jti !in RunGateway(publishers, steps[..k]).value.world.everRevoked)
                && (IsActive(g.world.table, jti, g.world.now) ==> Accepts(g.cache, jti))
  {
    RunHoldsRead(publishers, steps);
  }
}
