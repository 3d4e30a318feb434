/**
 Revoking a signed token: the issuer's store, the versioned feed built from it, the
 SDK client that polls the feed, and the gateway's in-memory set.
 */
module Revocation {
  import opened Wrappers

  type Instant = int
  type Jti = string

  // ---- the store -----------------------------------------------------------

  datatype Row = Row(delegation: Option<string>, expiresAt: Instant, revokedAt: Option<Instant>)
  type Table = map<Jti, Row>

  /** The ids a feed lists and the gateway caches: revoked and not yet expired. */
  function RevokedIds(t: Table, now: Instant): set<Jti> {
    set j | j in t && t[j].revokedAt.Some? && t[j].expiresAt > now
  }

  predicate IsActive(t: Table, jti: Jti, now: Instant) {
    jti in t && t[jti].revokedAt.None? && now <= t[jti].expiresAt
  }

  function MarkRevoked(row: Row, now: Instant): Row {
    if row.revokedAt.None? then row.(revokedAt := Some(now)) else row
  }

  function RevokeOne(t: Table, jti: Jti, now: Instant): Table {
    if jti in t then t[jti := MarkRevoked(t[jti], now)] else t
  }

  function RevokeAll(t: Table, delegation: string, now: Instant): Table {
    map j | j in t :: if t[j].delegation == Some(delegation) then MarkRevoked(t[j], now) else t[j]
  }

  function Purge(t: Table, cutoff: Instant): Table {
    map j | j in t && t[j].expiresAt >= cutoff :: t[j]
  }

  /** Retention keeps every active token, and drops a row once it has been dead for longer than the grace. */
  lemma RetentionIff(t: Table, jti: Jti, now: Instant, grace: nat)
    ensures jti in Purge(t, now - grace) <==> jti in t && now <= t[jti].expiresAt + grace
    ensures IsActive(t, jti, now) ==> IsActive(Purge(t, now - grace), jti, now)
  {
  }

  class Store {
    var rows: Table

    constructor ()
      ensures rows == map[]
    {
      rows := map[];
    }

    method RecordTx(jti: Jti, delegation: Option<string>, expiresAt: Instant)
      requires jti !in rows
      modifies this
      ensures rows == old(rows)[jti := Row(delegation, expiresAt, None)]
    {
      rows := rows[jti := Row(delegation, expiresAt, None)];
    }

    method Active(jti: Jti, now: Instant) returns (active: bool)
      ensures active <==> IsActive(rows, jti, now)
    {
      if jti !in rows { return false; }
      active := rows[jti].revokedAt.None? && now <= rows[jti].expiresAt;
    }

    method Revoke(jti: Jti, now: Instant) returns (changed: nat)
      modifies this
      ensures rows == RevokeOne(old(rows), jti, now)
      ensures rows.Keys == old(rows).Keys
      ensures forall j <- rows :: rows[j] ==
                if j == jti && old(rows)[j].revokedAt.None? then old(rows)[j].(revokedAt := Some(now)) else old(rows)[j]
      ensures changed == if rows == old(rows) then 0 else 1
    {
      if jti in rows && rows[jti].revokedAt.None? {
        rows := rows[jti := rows[jti].(revokedAt := Some(now))];
        assert rows[jti] != old(rows)[jti];
        changed := 1;
      } else {
        changed := 0;
        assert RevokeOne(rows, jti, now) == rows;
      }
    }

    method RevokeByDelegation(delegation: string, now: Instant) returns (changed: nat)
      modifies this
      ensures rows == RevokeAll(old(rows), delegation, now)
      ensures rows.Keys == old(rows).Keys
      ensures forall j <- rows :: rows[j] ==
                if old(rows)[j].delegation == Some(delegation) && old(rows)[j].revokedAt.None?
                then old(rows)[j].(revokedAt := Some(now)) else old(rows)[j]
      ensures changed == |set j | j in old(rows) && old(rows)[j] != rows[j]|
    {
      var live := set j | j in rows && rows[j].delegation == Some(delegation) && rows[j].revokedAt.None?;
      rows := rows + map j | j in live :: rows[j].(revokedAt := Some(now));
      changed := |live|;
      assert live == set j | j in old(rows) && old(rows)[j] != rows[j];
    }
  }

  // ---- the feed and its client ---------------------------------------------

  /**
   A published feed: its ids, when they were read, and when the document expires. `asOf`
   remembers every token revoked by then.
   */
  datatype Snapshot = Snapshot(ids: set<Jti>, asOf: set<Jti>, readAt: Instant, expiresAt: Instant)

  /** A signed feed as it travels. */
  datatype Feed = Feed(version: int, jtis: seq<Jti>, expiresAt: Instant)

  /** One client's view: the ids it refuses and the version they came with. */
  datatype Client = Client(revoked: set<Jti>, version: int)

  const FEED_TTL: int := 60_000_000_000
  const CACHE_FOR: int := 5_000_000_000

  predicate Lists(c: Client, jti: Jti) {
    jti in c.revoked
  }

  function Receive(c: Client, version: int, ids: set<Jti>, expiresAt: Instant, now: Instant): Client {
    if now >= expiresAt || version < c.version then c else Client(ids, version)
  }

  /** The publisher's side: reuses the last document while it is fresh, else builds the next version. */
  class Publisher {
    var cached: Option<Feed>
    var builtAt: Instant
    var lastVersion: int

    constructor ()
      ensures cached.None? && lastVersion == 0
    {
      cached, builtAt, lastVersion := None, 0, 0;
    }

    /** `rows` is what the query for the revoked, unexpired ids returned. */
    method Snapshot(rows: seq<Jti>, now: Instant) returns (feed: Feed)
      modifies this
      ensures cached == Some(feed)
      ensures if old(cached).Some? && now - old(builtAt) < CACHE_FOR
              then cached == old(cached) && builtAt == old(builtAt) && lastVersion == old(lastVersion)
              else feed == Feed(old(lastVersion) + 1, rows, now + FEED_TTL)
                   && lastVersion == feed.version && builtAt == now
    {
      if cached.Some? && now - builtAt < CACHE_FOR {
        return cached.value;
      }
      var jtis := [];
      for i := 0 to |rows|
        invariant jtis == rows[..i]
      {
        jtis := jtis + [rows[i]];
      }
      lastVersion := lastVersion + 1;
      feed := Feed(lastVersion, jtis, now + FEED_TTL);
      cached, builtAt := Some(feed), now;
    }
  }

  class RevocationFeed {
    var revoked: set<Jti>
    var version: int
    var fetchedAt: Instant

    function View(): Client
      reads this
    {
      Client(revoked, version)
    }

    constructor ()
      ensures View() == Client({}, 0)
    {
      revoked, version, fetchedAt := {}, 0, 0;
    }

    /** Verifies the document's expiry and version, then swaps the whole set. */
    method Apply(feed: Feed, now: Instant) returns (ok: bool)
      modifies this
      ensures View() == Receive(old(View()), feed.version, (set j | j in feed.jtis), feed.expiresAt, now)
      ensures ok <==> now < feed.expiresAt && old(version) <= feed.version
      ensures if ok then revoked == (set j | j in feed.jtis) && version == feed.version && fetchedAt == now
              else revoked == old(revoked) && version == old(version) && fetchedAt == old(fetchedAt)
    {
      if now >= feed.expiresAt || feed.version < version {
        return false;
      }
      var ids: set<Jti> := {};
      for i := 0 to |feed.jtis|
        invariant ids == set j | j in feed.jtis[..i]
      {
        ids := ids + {feed.jtis[i]};
      }
      assert feed.jtis[..|feed.jtis|] == feed.jtis;
      revoked, version, fetchedAt := ids, feed.version, now;
      ok := true;
    }

    method IsRevoked(jti: Jti) returns (r: bool)
      ensures r <==> Lists(View(), jti)
    {
      r := jti in revoked;
    }
  }

  // ---- the protocol --------------------------------------------------------

  /**
   The issuer, any number of publishing processes (each building one feed at a time)
   and any number of clients. Every published feed stays available for delivery, so
   the network may delay, reorder and replay. `issued` and `everRevoked` remember
   each token's own expiry and each revocation.
   */
  datatype World = World(
    now: Instant,
    table: Table,
    issued: map<Jti, Instant>,
    everRevoked: set<Jti>,
    lastVersion: int,
    building: map<string, Snapshot>,
    published: map<int, Snapshot>,
    clients: map<string, Client>)

  const INITIAL := World(0, map[], map[], {}, 0, map[], map[], map[])

  datatype Event =
    | Advance(dt: nat)
    | Mint(jti: Jti, under: Option<string>, expiresAt: Instant, rowExpiresAt: Instant)
    | Revoke(jti: Jti)
    | RevokeDelegation(delegation: string)
    | PruneDead(grace: nat)
    | Read(publisher: string)
    | Publish(publisher: string)
    | Abandon(publisher: string, tookVersion: bool)
    | Subscribe(client: string)
    | Deliver(client: string, version: int)

  /** A token's claim is cut to whole seconds, so it expires no later than its row. */
  predicate Enabled(publishers: set<string>, w: World, e: Event) {
    match e
    case Mint(jti, _, expiresAt, rowExpiresAt) => jti !in w.issued && expiresAt <= rowExpiresAt
    case Read(p) => p in publishers && p !in w.building
    case Publish(p) => p in w.building
    case Abandon(p, _) => p in w.building
    case Subscribe(c) => c !in w.clients
    case Deliver(c, v) => c in w.clients && v in w.published
    case _ => true
  }

  function Next(publishers: set<string>, w: World, e: Event): World
    requires Enabled(publishers, w, e)
  {
    match e
    case Advance(dt) => w.(now := w.now + dt)
    case Mint(jti, d, expiresAt, rowExpiresAt) =>
      w.(table := w.table[jti := Row(d, rowExpiresAt, None)], issued := w.issued[jti := expiresAt])
    case Revoke(jti) =>
      w.(table := RevokeOne(w.table, jti, w.now),
         everRevoked := w.everRevoked + if jti in w.table then {jti} else {})
    case RevokeDelegation(d) =>
      w.(table := RevokeAll(w.table, d, w.now),
         everRevoked := w.everRevoked + set j | j in w.table && w.table[j].delegation == Some(d))
    case PruneDead(grace) => w.(table := Purge(w.table, w.now - grace))
    case Read(p) =>
      w.(building := w.building[p := Snapshot(RevokedIds(w.table, w.now), w.everRevoked, w.now, w.now + FEED_TTL)])
    case Publish(p) =>
      w.(lastVersion := w.lastVersion + 1,
         published := w.published[w.lastVersion + 1 := w.building[p]],
         building := w.building - {p})
    case Abandon(p, tookVersion) =>
      w.(lastVersion := if tookVersion then w.lastVersion + 1 else w.lastVersion, building := w.building - {p})
    case Subscribe(c) => w.(clients := w.clients[c := Client({}, 0)])
    case Deliver(c, v) =>
      w.(clients := w.clients[c := Receive(w.clients[c], v, w.published[v].ids, w.published[v].expiresAt, w.now)])
  }

  function Run(publishers: set<string>, events: seq<Event>): Option<World> {
    if events == [] then Some(INITIAL)
    else
      var n := |events| - 1;
      var w := Run(publishers, events[..n]);
      if w.Some? && Enabled(publishers, w.value, events[n]) then Some(Next(publishers, w.value, events[n])) else None
  }

  /** Nothing the first set lists is missing from the second, unless that token has expired. */
  predicate Carries(w: World, ids: set<Jti>, later: set<Jti>) {
    forall j <- ids :: j in later || (j in w.issued && w.issued[j] <= w.now)
  }

  predicate StoreSound(w: World) {
    && (forall j <- w.table :: j in w.issued && w.issued[j] <= w.table[j].expiresAt)
    && (forall j <- w.issued :: j in w.table || w.issued[j] <= w.now)
    && (forall j <- w.table :: w.table[j].revokedAt.Some? ==> j in w.everRevoked)
    && (forall j <- w.everRevoked :: j in w.issued
          && ((j in w.table && w.table[j].revokedAt.Some?) || w.issued[j] <= w.now))
  }

  /** The feed lists only tokens revoked when it was read, and all of those that have not expired. */
  predicate Exact(w: World, f: Snapshot) {
    f.ids <= f.asOf <= w.everRevoked && Carries(w, f.asOf, f.ids)
  }

  predicate VersionsSound(w: World) {
    && 0 <= w.lastVersion
    && (forall v <- w.published :: 0 < v <= w.lastVersion && Exact(w, w.published[v]))
    && (forall p <- w.building :: Exact(w, w.building[p]))
  }

  /** And versions follow the order in which the ids were read. */
  predicate FeedsSound(w: World) {
    && VersionsSound(w)
    && (forall v, v' | v in w.published && v' in w.published && v < v' ::
          Carries(w, w.published[v].ids, w.published[v'].ids))
    && (forall v, p | v in w.published && p in w.building :: Carries(w, w.published[v].ids, w.building[p].ids))
  }

  predicate ClientsSound(w: World) {
    forall c <- w.clients ::
      if w.clients[c].version in w.published then w.clients[c].revoked == w.published[w.clients[c].version].ids
      else w.clients[c] == Client({}, 0)
  }

  predicate Invariant(publishers: set<string>, w: World) {
    w.building.Keys <= publishers && StoreSound(w) && FeedsSound(w) && ClientsSound(w)
  }

  predicate AtMostOne(publishers: set<string>) {
    forall p, q | p in publishers && q in publishers :: p == q
  }

  lemma StepKeepsStore(publishers: set<string>, w: World, e: Event)
    requires StoreSound(w) && Enabled(publishers, w, e)
    ensures StoreSound(Next(publishers, w, e))
  {
  }

  /** A fresh read carries every earlier feed: a revoked row stays revoked until it is dead. */
  lemma ReadCarries(w: World, ids: set<Jti>)
    requires StoreSound(w) && ids <= w.everRevoked
    ensures Carries(w, ids, RevokedIds(w.table, w.now))
    ensures RevokedIds(w.table, w.now) <= w.everRevoked
    ensures Carries(w, w.everRevoked, RevokedIds(w.table, w.now))
  {
  }

  lemma StepCarries(publishers: set<string>, w: World, e: Event, ids: set<Jti>, later: set<Jti>)
    requires Enabled(publishers, w, e) && Carries(w, ids, later)
    ensures Carries(Next(publishers, w, e), ids, later)
  {
  }

  lemma StepKeepsExact(publishers: set<string>, w: World, e: Event, f: Snapshot)
    requires Enabled(publishers, w, e) && Exact(w, f)
    ensures Exact(Next(publishers, w, e), f)
  {
    StepCarries(publishers, w, e, f.asOf, f.ids);
  }

  /** However many publish, every feed stays exact and under its own version. */
  lemma StepKeepsVersions(publishers: set<string>, w: World, e: Event)
    requires StoreSound(w) && VersionsSound(w) && Enabled(publishers, w, e)
    ensures VersionsSound(Next(publishers, w, e))
  {
    var t := Next(publishers, w, e);
    if e.Read? {
      ReadCarries(w, {});
      assert Exact(w, t.building[e.publisher]);
    }
    forall v | v in t.published ensures 0 < v <= t.lastVersion && Exact(t, t.published[v]) {
      StepKeepsExact(publishers, w, e, t.published[v]);
    }
    forall p | p in t.building ensures Exact(t, t.building[p]) {
      StepKeepsExact(publishers, w, e, t.building[p]);
    }
  }

  lemma StepKeepsFeeds(publishers: set<string>, w: World, e: Event)
    requires AtMostOne(publishers) && w.building.Keys <= publishers
    requires StoreSound(w) && FeedsSound(w) && Enabled(publishers, w, e)
    ensures FeedsSound(Next(publishers, w, e))
  {
    var t := Next(publishers, w, e);
    StepKeepsVersions(publishers, w, e);
    forall v, v' | v in t.published && v' in t.published && v < v'
      ensures Carries(t, t.published[v].ids, t.published[v'].ids)
    {
      StepCarries(publishers, w, e, t.published[v].ids, t.published[v'].ids);
    }
    forall v, p | v in t.published && p in t.building
      ensures Carries(t, t.published[v].ids, t.building[p].ids)
    {
      if e.Read? {
        ReadCarries(w, t.published[v].ids);
      }
      StepCarries(publishers, w, e, t.published[v].ids, t.building[p].ids);
    }
  }

  lemma StepKeepsClients(publishers: set<string>, w: World, e: Event)
    requires VersionsSound(w) && ClientsSound(w) && Enabled(publishers, w, e)
    ensures ClientsSound(Next(publishers, w, e))
  {
  }

  lemma {:induction false} RunKeepsInvariant(publishers: set<string>, events: seq<Event>)
    requires AtMostOne(publishers) && Run(publishers, events).Some?
    ensures Invariant(publishers, Run(publishers, events).value)
  {
    if events != [] {
      var n := |events| - 1;
      RunKeepsInvariant(publishers, events[..n]);
      var w := Run(publishers, events[..n]).value;
      StepKeepsStore(publishers, w, events[n]);
      StepKeepsFeeds(publishers, w, events[n]);
      StepKeepsClients(publishers, w, events[n]);
    }
  }

  /** The client turns the token down: it lists the id, or the token has expired. */
  predicate Refuses(w: World, client: string, jti: Jti) {
    || (client in w.clients && Lists(w.clients[client], jti))
    || (jti in w.issued && w.issued[jti] <= w.now)
  }

  lemma StepKeepsRefusal(publishers: set<string>, w: World, e: Event, client: string, jti: Jti)
    requires Invariant(publishers, w) && Enabled(publishers, w, e) && client in w.clients
    ensures var t := Next(publishers, w, e);
            && client in t.clients
            && w.clients[client].version <= t.clients[client].version
            && (Refuses(w, client, jti) ==> Refuses(t, client, jti))
  {
    if e.Deliver? && e.client == client && jti in w.clients[client].revoked {
      var v := w.clients[client].version;
      if v in w.published && v < e.version {
        assert Carries(w, w.published[v].ids, w.published[e.version].ids);
      }
    }
  }

  lemma {:induction false} PrefixRuns(publishers: set<string>, events: seq<Event>, k: nat)
    requires Run(publishers, events).Some? && k <= |events|
    ensures Run(publishers, events[..k]).Some?
  {
    if k < |events| {
      var n := |events| - 1;
      assert events[..n][..k] == events[..k];
      PrefixRuns(publishers, events[..n], k);
    } else {
      assert events[..k] == events;
    }
  }

  /**
   With one publisher, however feeds are delayed, reordered or replayed: a client's
   version never falls, every id it holds was revoked at the issuer, and a token it
   once refused it refuses ever after.
   */
  lemma {:induction false} RevocationLasts(
      publishers: set<string>, events: seq<Event>, k: nat, client: string, jti: Jti)
    requires AtMostOne(publishers) && Run(publishers, events).Some? && k <= |events|
    requires Run(publishers, events[..k]).Some? && client in Run(publishers, events[..k]).value.clients
    ensures var w, t := Run(publishers, events[..k]).value, Run(publishers, events).value;
            && client in t.clients
            && w.clients[client].version <= t.clients[client].version
            && t.clients[client].revoked <= t.everRevoked
            && (Refuses(w, client, jti) ==> Refuses(t, client, jti))
  {
    RunKeepsInvariant(publishers, events);
    if k < |events| {
      var n := |events| - 1;
      assert events[..n][..k] == events[..k];
      PrefixRuns(publishers, events, n);
      RevocationLasts(publishers, events[..n], k, client, jti);
      RunKeepsInvariant(publishers, events[..n]);
      StepKeepsRefusal(publishers, Run(publishers, events[..n]).value, events[n], client, jti);
    } else {
      assert events[..k] == events;
    }
  }

  // ---- what a delivery does ------------------------------------------------

  /** The feed is being built or has been published. */
  predicate Holds(w: World, f: Snapshot) {
    f in w.published.Values || f in w.building.Values
  }

  lemma OnlyReadsMakeFeeds(publishers: set<string>, w: World, e: Event, f: Snapshot)
    requires Enabled(publishers, w, e) && Holds(Next(publishers, w, e), f)
    ensures Holds(w, f)
            || (e.Read? && f.asOf == w.everRevoked && f.readAt == w.now && f.expiresAt == w.now + FEED_TTL)
  {
  }

  lemma {:induction false} FeedsExpire(publishers: set<string>, events: seq<Event>, f: Snapshot)
    requires Run(publishers, events).Some? && Holds(Run(publishers, events).value, f)
    ensures f.expiresAt == f.readAt + FEED_TTL && f.readAt <= Run(publishers, events).value.now
  {
    var n := |events| - 1;
    var w := Run(publishers, events[..n]).value;
    OnlyReadsMakeFeeds(publishers, w, events[n], f);
    if Holds(w, f) {
      FeedsExpire(publishers, events[..n], f);
    }
  }

  /**
   A delivery changes a client exactly when the feed is no older than the one held and
   its ids were read less than the feed's lifetime ago; it then replaces the whole set.
   */
  lemma DeliveryIff(publishers: set<string>, events: seq<Event>, client: string, v: int)
    requires Run(publishers, events).Some? && Enabled(publishers, Run(publishers, events).value, Deliver(client, v))
    ensures var w := Run(publishers, events).value;
            var c := Next(publishers, w, Deliver(client, v)).clients[client];
            if w.clients[client].version <= v && w.now < w.published[v].readAt + FEED_TTL
            then c.version == v && c.revoked == w.published[v].ids
            else c == w.clients[client]
  {
    FeedsExpire(publishers, events, Run(publishers, events).value.published[v]);
  }

  // ---- revoking a delegation -----------------------------------------------

  lemma StepKeepsDelegation(publishers: set<string>, w: World, e: Event, jti: Jti)
    requires Enabled(publishers, w, e) && jti in w.issued
    ensures var t := Next(publishers, w, e);
            && jti in t.issued && t.issued[jti] == w.issued[jti]
            && (jti in t.table ==> jti in w.table && t.table[jti].delegation == w.table[jti].delegation)
  {
  }

  lemma StepKeepsRevoked(publishers: set<string>, w: World, e: Event)
    requires Enabled(publishers, w, e)
    ensures w.everRevoked <= Next(publishers, w, e).everRevoked
  {
  }

  /** A recorded token's row keeps its delegation for as long as there is one. */
  lemma {:induction false} RowKeepsDelegation(
      publishers: set<string>, events: seq<Event>, i: nat, jti: Jti, d: string, e: Instant, rowEnd: Instant)
    requires i < |events| && Run(publishers, events).Some? && events[i] == Mint(jti, Some(d), e, rowEnd)
    ensures var w := Run(publishers, events).value;
            jti in w.issued && w.issued[jti] == e && (jti in w.table ==> w.table[jti].delegation == Some(d))
  {
    var n := |events| - 1;
    if i < n {
      assert events[..n][i] == events[i];
      RowKeepsDelegation(publishers, events[..n], i, jti, d, e, rowEnd);
      StepKeepsDelegation(publishers, Run(publishers, events[..n]).value, events[n], jti);
    }
  }

  /** Once revoked, ever revoked. */
  lemma {:induction false} RevokedStays(publishers: set<string>, events: seq<Event>, k: nat, jti: Jti)
    requires Run(publishers, events).Some? && k <= |events| && Run(publishers, events[..k]).Some?
    requires jti in Run(publishers, events[..k]).value.everRevoked
    ensures jti in Run(publishers, events).value.everRevoked
  {
    if k == |events| {
      assert events[..k] == events;
    } else {
      var n := |events| - 1;
      assert events[..n][..k] == events[..k];
      PrefixRuns(publishers, events, n);
      RevokedStays(publishers, events[..n], k, jti);
      StepKeepsRevoked(publishers, Run(publishers, events[..n]).value, events[n]);
    }
  }

  /**
   Revoking a delegation revokes every token minted under it before, in any run: from
   then on the token is revoked, unless it had expired by the time of the revocation.
   */
  lemma DelegationRevocationReaches(
      publishers: set<string>, events: seq<Event>, i: nat, k: nat, jti: Jti, d: string, e: Instant, rowEnd: Instant)
    requires Run(publishers, events).Some? && i < k < |events|
    requires events[i] == Mint(jti, Some(d), e, rowEnd) && events[k] == RevokeDelegation(d)
    ensures Run(publishers, events[..k]).Some?
    ensures jti in Run(publishers, events).value.everRevoked || e <= Run(publishers, events[..k]).value.now
  {
    PrefixRuns(publishers, events, k);
    PrefixRuns(publishers, events, k + 1);
    RowKeepsDelegation(publishers, events[..k], i, jti, d, e, rowEnd);
    RunKeepsExact(publishers, events[..k]);
    assert events[..k + 1][..k] == events[..k];
    var w := Run(publishers, events[..k]).value;
    if jti in w.table {
      assert jti in Run(publishers, events[..k + 1]).value.everRevoked;
      RevokedStays(publishers, events, k + 1, jti);
    }
  }

  /** A publisher that has published or given up can read again. */
  lemma PublisherFreed(publishers: set<string>, w: World, e: Event)
    requires Enabled(publishers, w, e) && (e.Publish? || e.Abandon?) && e.publisher in publishers
    ensures Enabled(publishers, Next(publishers, w, e), Read(e.publisher))
  {
  }

  // ---- what a client's answer means ----------------------------------------

  /** Feeds and clients stay exact in every run, however many processes publish. */
  lemma {:induction false} RunKeepsExact(publishers: set<string>, events: seq<Event>)
    requires Run(publishers, events).Some?
    ensures var w := Run(publishers, events).value; StoreSound(w) && VersionsSound(w) && ClientsSound(w)
  {
    if events != [] {
      var n := |events| - 1;
      RunKeepsExact(publishers, events[..n]);
      var w := Run(publishers, events[..n]).value;
      StepKeepsStore(publishers, w, events[n]);
      StepKeepsVersions(publishers, w, events[n]);
      StepKeepsClients(publishers, w, events[n]);
    }
  }

  /** The feed was read from the world at the k-th point of the run. */
  predicate ReadAt(publishers: set<string>, events: seq<Event>, k: nat, f: Snapshot) {
    && k <= |events| && Run(publishers, events[..k]).Some?
    && f.asOf == Run(publishers, events[..k]).value.everRevoked && f.readAt == Run(publishers, events[..k]).value.now
  }

  lemma ReadEarlier(publishers: set<string>, events: seq<Event>, n: nat, k: nat, f: Snapshot)
    requires n <= |events| && ReadAt(publishers, events[..n], k, f)
    ensures ReadAt(publishers, events, k, f)
  {
    assert events[..n][..k] == events[..k];
  }

  lemma {:induction false} FeedWasRead(publishers: set<string>, events: seq<Event>, f: Snapshot) returns (k: nat)
    requires Run(publishers, events).Some?
    requires Holds(Run(publishers, events).value, f)
    ensures ReadAt(publishers, events, k, f)
  {
    var n := |events| - 1;
    var w := Run(publishers, events[..n]).value;
    OnlyReadsMakeFeeds(publishers, w, events[n], f);
    if Holds(w, f) {
      k := FeedWasRead(publishers, events[..n], f);
      ReadEarlier(publishers, events, n, k, f);
    } else {
      k := n;
    }
  }

  /**
   What IsRevoked answers about an unexpired token, in any run and however feeds
   travel: whether it was revoked at the point when the feed the client holds was read.
   */
  lemma ClientListsExactly(publishers: set<string>, events: seq<Event>, client: string, jti: Jti) returns (k: nat)
    requires Run(publishers, events).Some? && client in Run(publishers, events).value.clients
    requires var w := Run(publishers, events).value; jti in w.issued && w.now < w.issued[jti]
    ensures k <= |events| && Run(publishers, events[..k]).Some?
    ensures var w := Run(publishers, events).value;
            var c := w.clients[client];
            && (Lists(c, jti) <==> jti in Run(publishers, events[..k]).value.everRevoked)
            && (c.version in w.published ==> ReadAt(publishers, events, k, w.published[c.version]))
            && (c.version !in w.published ==> k == 0)
  {
    RunKeepsExact(publishers, events);
    var w := Run(publishers, events).value;
    var v := w.clients[client].version;
    if v in w.published {
      k := FeedWasRead(publishers, events, w.published[v]);
    } else {
      k := 0;
      assert events[..0] == [];
    }
  }

  /** In no run does a client accept a token it had once refused. */
  ghost predicate RefusalsLast(publishers: set<string>) {
    forall events, k: nat, client, jti |
      && Run(publishers, events).Some? && k <= |events| && Run(publishers, events[..k]).Some?
      && client in Run(publishers, events[..k]).value.clients
      && Refuses(Run(publishers, events[..k]).value, client, jti)
      :: Refuses(Run(publishers, events).value, client, jti)
  }

  lemma Play(publishers: set<string>, events: seq<Event>, w: World, e: Event)
    returns (events': seq<Event>, w': World)
    requires Run(publishers, events) == Some(w) && Enabled(publishers, w, e)
    ensures events' == events + [e] && w' == Next(publishers, w, e) && Run(publishers, events') == Some(w')
  {
    events', w' := events + [e], Next(publishers, w, e);
    assert events'[..|events|] == events;
  }

  /** The first publisher reads before the token is revoked, the second after. */
  lemma BothRead(publishers: set<string>, p: string, q: string) returns (events: seq<Event>, w: World)
    requires p in publishers && q in publishers && p != q
    ensures Run(publishers, events) == Some(w)
    ensures w.now == w.lastVersion == 0 && w.published == map[] && w.clients == map["c" := Client({}, 0)]
    ensures w.issued == map["t" := 1]
    ensures w.building == map[p := Snapshot({}, {}, 0, FEED_TTL), q := Snapshot({"t"}, {"t"}, 0, FEED_TTL)]
  {
    events, w := Play(publishers, [], INITIAL, Subscribe("c"));
    events, w := Play(publishers, events, w, Mint("t", None, 1, 1));
    assert RevokedIds(w.table, 0) == {};
    events, w := Play(publishers, events, w, Read(p));
    events, w := Play(publishers, events, w, Revoke("t"));
    assert RevokedIds(w.table, 0) == {"t"};
    assert w.everRevoked == {"t"};
    events, w := Play(publishers, events, w, Read(q));
  }

  /** Two publishers: the one that read first takes the later version, and its feed forgets the token. */
  lemma TwoPublishersForget(publishers: set<string>, p: string, q: string)
    returns (events: seq<Event>, k: nat)
    requires p in publishers && q in publishers && p != q
    ensures Run(publishers, events).Some? && k <= |events| && Run(publishers, events[..k]).Some?
    ensures "c" in Run(publishers, events[..k]).value.clients && Refuses(Run(publishers, events[..k]).value, "c", "t")
    ensures !Refuses(Run(publishers, events).value, "c", "t")
  {
    var w;
    events, w := BothRead(publishers, p, q);
    events, w := Play(publishers, events, w, Publish(q));
    events, w := Play(publishers, events, w, Deliver("c", 1));
    assert Refuses(w, "c", "t");
    k := |events|;
    var refused := events;
    events, w := Play(publishers, events, w, Publish(p));
    events, w := Play(publishers, events, w, Deliver("c", 2));
    assert events[..k] == refused;
  }

  /** Refusals last exactly when at most one process publishes. */
  lemma RefusalsLastIff(publishers: set<string>)
    ensures RefusalsLast(publishers) <==> AtMostOne(publishers)
  {
    if AtMostOne(publishers) {
      forall events, k: nat, client, jti |
        && Run(publishers, events).Some? && k <= |events| && Run(publishers, events[..k]).Some?
        && client in Run(publishers, events[..k]).value.clients
        && Refuses(Run(publishers, events[..k]).value, client, jti)
        ensures Refuses(Run(publishers, events).value, client, jti)
      {
        RevocationLasts(publishers, events, k, client, jti);
      }
    } else {
      var p, q :| p in publishers && q in publishers && p != q;
      var events, k := TwoPublishersForget(publishers, p, q);
    }
  }
}
