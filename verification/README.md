# Delegated authority that only narrows, can be killed, and leaves a trail

Legant lets a user delegate authority to an agent, and the agent to others. This
project models the code behind its three promises and proves them.

- **Authority only narrows.** `Policy` has constraints, the decision over them and
  `Tighten`; `Chains` has grants, delegation, act claims and issued tokens; `Gateway`
  has the MCP hop, `TokenExchange` the exchange handler, and `Guard`, with `Overlay`,
  the offline guard and its child tokens. The main result is
  `Chains.TokenWithinAncestors`: no token does more than any grant above it.
- **Authority can be killed, and lives no longer than its keys.** `Revocation` runs
  the store, the versioned feed and polling clients over a network that delays,
  reorders and replays; `RevokedCache` is the gateway's set; `Keystore` runs rotation
  over a table that many processes cache. Main results: `Revocation.RefusalsLastIff`
  and `Keystore.SigningKeysLastIff`.
- **The trail cannot be altered unseen.** `AuditHash` has the row hash, `Audit` the
  chain, retention and signed anchors, `AnchorRuns` the life of a log with its anchors.
  Main results: `Audit.ReachableLogsVerify`, `Audit.AcceptedAnchorPinsPrefix` and
  `AnchorRuns.AnchorMatchesIff`.

Around them stand the counting limits (`MintCap`, `RateLimit`), the declarative
grants reconciler (`Grants`), the duplicate-key scan of request bodies
(`DuplicateKeys`) and labelled histograms (`Metrics`, and `HistogramRuns` for
concurrent observations). `Text`, `Sequences` and
`Wrappers` are shared vocabulary.

Where the code changes things in place, the model is a class or a loop proved against
a function; the laws are lemmas about that function. Concurrency is a step relation,
and a law over runs is an invariant of every step. Instants are integers.

## Where the code does less than it says

The comment on `Tighten` promises the strictest combination of both constraint sets,
never looser than the parent. Four families of inputs break that, and each has its
exact condition:

- a list holding the deny-all sentinel beside a real entry is revived
  (`Policy.IntersectNarrows`, `Policy.RevivedListExample`);
- a rate of zero or less in the child lifts an enforced cap (`Policy.RateNarrows`);
- a window in another zone, even one spelt differently, drops the child's hours; it
  keeps the parent's (`Policy.WindowExact`), but makes grouping matter
  (`Policy.TightenAssociative`);
- two spellings of one resource intersect to nothing, though the SDK reads them as
  one; lists stored in canonical form are safe (`Policy.IntersectMeetIff`).

Others, with exact conditions as well:

- two feed publishers can let a refused token back in (`Revocation.RefusalsLastIff`);
- a rotation's overlap counts from the start of its transaction, so the longest
  transaction comes off it (`Keystore.SigningKeysLastIff`);
- two rotations from one key leave a key active that nothing ever retires, which
  `Rotate`'s comment rules out for a failed rotation only
  (`Keystore.OneUnretiredIff`, `Keystore.StrandedForever`);
- retention lets the hourly cap be exceeded when the grace and a token's life together
  fall short of an hour plus the delays, or, at a delegation's own expiry, the grace
  falls short of the delays (`MintCap.CapHoldsIff`, `MintCap.GraceIsExact`);
- retention breaks the chain when the rows it keeps are not contiguous, as when a row's
  creation time precedes an earlier row's (`Audit.PruneKeepsIntactIff`,
  `Audit.UnorderedPruneExample`);
- retention that deletes any row after an anchor makes verification fail for good, as
  every new anchor is then refused (`AnchorRuns.AnchorMatchesIff`,
  `AnchorRuns.StaleForever`);
- a separator character in a column blurs where the columns of a row begin, so an anchor
  pins rows only above it (`Audit.AcceptedAnchorPinsPrefix`,
  `Audit.SeparatorHidesRewrite`);
- a scope holding a space or an empty weekday list is minted anew on every run
  (`Grants.IdempotentIff`);
- an empty overlay rule disappears when another is added (`Overlay.AddKeepsRules`,
  `Guard.AddingRulesOnlyTightens`).

The gateway's discovery hop drops the resource list without looking at it. That would
forget a deny-all list (`Gateway.DiscoveryNeverWidens`), but no exchange under
well-formed grants mints a token with one (`Gateway.DiscoveryWithinAncestors`).

## Assumptions

- Signatures are unforgeable and token encoding is faithful, save that an empty
  weekday list is read back as none and times are cut to whole seconds.
- SHA-256 is injective and acyclic: a digest is a symbol that holds the text it was
  taken of, predecessor hash and columns joined by separators.
- Retention's cutoffs lie in the past: no event is created before an earlier cutoff.
- A delegation without an expiry is resolved at the clock reading that mints from it.
- One clock serves the database, the processes and the clients. Database transactions
  are atomic; rotation creation times are later than every committed key's.
- A time zone is any function from instants to a weekday and a minute. Path
  resolution, URL and shell parsing and resource canonicalization are any functions.
- Amounts are real numbers, so they are ordered.
- Resource canonicalization rejects the deny-all sentinel, which holds a control character.
- Strings are sequences of characters; where Go counts bytes a character is a byte.

## Model

| member | source | states |
|---|---|---|
| `Policy.ComputeIntersectAllow` | internal/delegation/delegation.go:207-224 | The Go loop computes the specification's intersection: in the first list's order, the real entries of both; the sentinel alone when there are none; the other list when one is empty |
| `Policy.PermitIff` | internal/delegation/delegation.go:145-171 | What a decision permits, at either decision point: an amount up to the maximum, for each restricted list an entry or no value and nothing under the sentinel, and a local day and minute within the window of a known zone |
| `Policy.IntersectNarrows` | internal/delegation/delegation.go:203-224 | At either decision point, an intersection permits nothing its first list refuses, if and only if it does not revive that list: the list holds the sentinel beside a real entry that the other list shares |
| `Policy.IntersectNarrowsChild` | internal/delegation/delegation.go:203-224 | The same against the second list, again with the exact condition |
| `Policy.DaysMeet` | internal/delegation/delegation.go:624-644 | The intersected weekday list admits a day exactly when both lists do; the day -1 stands for never |
| `Policy.WindowExact` | internal/delegation/delegation.go:226-249 | A tightened window admits an instant exactly when the parent's does and, in one zone, the child's does too; across zones the child's window is dropped |
| `Policy.TightenNarrows` | internal/delegation/delegation.go:173-195 | Tightening never permits what the parent refuses, for any clocks and either decision point, unless it revives one of the parent's lists |
| `Policy.TightenNarrowsIff` | internal/delegation/delegation.go:173-195 | So everything the tightened set permits the parent permits, exactly when no list is revived or nothing is permitted at all |
| `Policy.TightenNarrowsChild` | internal/delegation/delegation.go:173-195 | Nor what the child's own request refuses, when the two windows are in one zone |
| `Policy.IntersectMeet` | internal/delegation/delegation.go:130-141 | At a decision point where the lists are spelt alike, a value is permitted by an intersection exactly when both lists permit it, except that disjoint lists also refuse an action that names no value |
| `Policy.IntersectMeetIff` | sdk/verifier.go:360-384 | At either decision point, intersection is the meet for every value exactly when any two real entries of one canonical form have a spelling of it in both lists |
| `Policy.CanonicalIsSpeltAlike` | internal/delegation/chains/service.go:38-44 | Entries stored in canonical form meet that condition, and so does every list at the issuer |
| `Policy.TwoSpellingsExample` | sdk/verifier.go:360-384 | Two spellings of one resource, each permitted at the SDK, whose intersection denies everything |
| `Policy.TightenIsMeet` | internal/delegation/delegation.go:145-195 | At either decision point, Tighten is the exact meet of two well-formed constraint sets in one zone whose resources are spelt alike, with that exception spelt out per dimension |
| `Policy.DisjointPermitsNothing` | internal/delegation/delegation.go:197-249 | Disjoint lists, weekdays or hours in any one dimension permit no action at all, rather than reading as unrestricted |
| `Policy.TightenWellFormed` | internal/delegation/delegation.go:197-224 | Lists in which the sentinel stands alone stay so under Tighten, and never revive one another |
| `Policy.IntersectAssociative` | internal/delegation/delegation.go:207-224 | List intersection is associative, sentinel included |
| `Policy.DaysAssociative` | internal/delegation/delegation.go:627-644 | Weekday intersection is associative, the never-day included |
| `Policy.TightenAssociative` | internal/delegation/delegation.go:173-265 | Tighten is associative exactly when no window in a foreign zone stands between two windows of one zone that would narrow each other |
| `Policy.AmountMeet` | internal/delegation/delegation.go:185-194 | An amount is within the tightened maximum exactly when it is within each of the two there are |
| `Policy.RateMeet` | internal/delegation/delegation.go:251-265 | The tightened rate is within a bound exactly when one of the two is, and there is one exactly when either has one |
| `Policy.RateNarrows` | internal/delegation/delegation.go:251-265 | The tightened rate keeps within the parent's enforced cap exactly when the child does not ask for zero or less, which lifts the cap that token exchange enforces |
| `Policy.RevivedListExample` | internal/delegation/delegation.go:214-223 | A concrete deny-all list that Tighten turns into a permission |
| `Policy.SpeltZoneExample` | internal/delegation/delegation.go:239-240 | Two spellings of one zone, for which the child's narrower hours are dropped |
| `Policy.LiftedCapExample` | internal/delegation/delegation.go:251-265 | A cap of five and a cap of zero give a cap that is not enforced |
| `Text.FieldsOfJoin` | internal/delegation/delegation.go:460 | Splitting a joined scope string yields exactly the words of its parts, for any strings |
| `Text.WordsOfWords` | internal/delegation/delegation.go:460 | Whitespace-free parts come back as they went in |
| `Text.InWords` | internal/delegation/delegation.go:292-300 | A word is in the joined string exactly when it is a word of some part |
| `Text.InFields` | internal/delegation/delegation.go:292-300 | The fields of a string are exactly the maximal stretches of it without spaces |
| `Chains.ComputeAttenuate` | internal/delegation/delegation.go:272-280 | The loop computes the requested scopes the parent holds, in the order requested |
| `Chains.DelegateIff` | internal/delegation/delegation.go:330-355 | At any depth, delegating succeeds exactly when the scopes are the parent's, the chain has room and the delegatee is new; the child then has what was asked for, tightened, and lives to the earlier of its own lifetime and the parent's expiry |
| `Chains.BuildIff` | internal/delegation/delegation.go:312-355 | A chain of any length is built exactly when its requests by themselves ask for no more each time, are few enough, and name no agent twice; its links are then those requests |
| `Chains.BuiltExpiry` | internal/delegation/delegation.go:343-346 | A chain's leaf lives exactly to the earliest of the root's expiry and every lifetime asked for |
| `Chains.Depth` | internal/delegation/delegation.go:357-363 | The walk counts the links below the root |
| `Chains.RootDelegator` | internal/delegation/delegation.go:367-373 | The walk ends at the delegator of the chain's first link |
| `Chains.ReverseInPlace` | internal/delegation/delegation.go:384-386 | The in-place swap loop reverses the slice |
| `Chains.ActorChainRootToLeaf` | internal/delegation/delegation.go:378-388 | Collecting leaf first and flipping yields every delegatee, root first |
| `Chains.DelegateKeepsWellLinked` | internal/delegation/delegation.go:330-355 | One Delegate call keeps the chain linked, acyclic, within depth, and narrowing in scope and expiry |
| `Chains.BuiltChainsAreWellLinked` | internal/delegation/delegation.go:312-355 | Every chain built by a root grant and any Delegate calls has at most the maximum depth, distinct delegatees, matching delegators, and expiries and scopes that never grow, between any two links |
| `Chains.LeafPermitsWithinAncestors` | internal/delegation/delegation.go:330-355 | Whatever a leaf's constraints permit, those of every ancestor permit, for chains of any length |
| `Chains.WellFormedIsClean` | internal/delegation/delegation.go:197-224 | Requests whose sentinels stand alone can never revive a denied list anywhere along a chain |
| `Chains.BuildAct` | internal/delegation/delegation.go:440-444 | The loop nests the actors with the most recent outermost |
| `Chains.ComputeActorChain` | internal/delegation/delegation.go:585-591 | The walk reads the nested claims, most recent actor first |
| `Chains.Provenance` | internal/delegation/delegation.go:595-602 | The loop renders the subject and then the actors in order of delegation |
| `Chains.ActorChainOfNest` | internal/delegation/delegation.go:440-444 | Reading nested act claims reverses nesting them (section 4.1 of RFC 8693) |
| `Chains.ProvenanceRoundTrip` | internal/ccguard/roles.go:104-115 | Decoding any token issued or minted for a grant gives back the root delegator and the chain's delegatees, in order |
| `Chains.JoinedScopes` | internal/delegation/delegation.go:292-300 | The scope string grants a scope exactly when some scope of the grant has it as a word, which for whitespace-free scopes is membership |
| `Chains.IssuedTokens` | internal/delegation/delegation.go:431-467 | At either issuing function the token is within the grant, in scopes, constraints and expiry |
| `Chains.IssuedTokenIff` | internal/delegation/delegation.go:431-467 | Issuing succeeds exactly when a requested scope is the grant's and its resources allow the audience; the token has just those scopes, the chain, the id, and both times in whole seconds |
| `Chains.MintedToken` | internal/ccguard/roles.go:104-115 | Minting gives the same token for all the grant's scopes, whatever its resources |
| `Chains.AuthorizeIff` | internal/delegation/delegation.go:571-581 | A token authorizes an action exactly when the action's scope stands as a word in its scope string and every constraint it carries permits the action; never beyond its maximum amount |
| `Chains.TokenWithinAncestors` | internal/delegation/delegation.go:571-581 | The central law: whatever a token issued for the leaf authorizes, at the issuer's or the SDK's decision point, every ancestor grant holds and permits, and outlives |
| `Gateway.CallNeverWidens` | internal/mcpgw/gateway.go:407-436 | The downstream token keeps subject and actors, expires no later, is bound to the upstream, and authorizes only this tool and only what the inbound token authorizes when no resource is named; with a resource, exactly as the inbound resource list says |
| `Gateway.CallToolIff` | internal/mcpgw/gateway.go:407-436 | A call passes exactly when the tool is exposed and authorized; its token has the tool's one scope, the upstream as audience, and the lesser of the two lifetimes in whole seconds |
| `Gateway.CallKeepsTheTool` | internal/mcpgw/gateway.go:703-711 | Nothing else is lost: what the inbound token authorizes for this tool and scope survives the hop |
| `Gateway.CallWithinAncestors` | internal/mcpgw/gateway.go:399-436 | So the downstream token stays within every grant of the chain behind the inbound one |
| `Gateway.DiscoveryNeverWidens` | internal/mcpgw/gateway.go:464-475 | The discovery hop authorizes the same resource-free actions as the inbound token, except that it drops a deny-all resource list; the condition is exact |
| `Gateway.DiscoveryToken` | internal/mcpgw/gateway.go:464-494 | The discovery token keeps every scope and every constraint but the resources, with the same audience and lifetime rules |
| `Gateway.DiscoveryWithinAncestors` | internal/mcpgw/gateway.go:464-475 | For every token exchanged under a chain of well-formed requests, the discovery hop authorizes exactly the inbound token's resource-free actions, all within every ancestor grant |
| `TokenExchange.Exchange` | internal/auth/token_exchange.go:129-182 | An exchange succeeds exactly when request, grant and subject token share a scope, the resource is listed in canonical form, and the clamped life outlasts the check; the token holds exactly the shared scopes, the grant's chain and constraints, and the lesser lifetime in whole seconds |
| `TokenExchange.EffectiveScopesIff` | internal/auth/token_exchange.go:129-130 | The ceiling is every scope that request, grant and subject token share, in the order requested |
| `TokenExchange.ResourcePermitted` | internal/auth/token_exchange.go:143-149 | The loop finds a listed resource of the same canonical form exactly when there is one |
| `TokenExchange.ExchangedResources` | internal/auth/token_exchange.go:136-153 | An exchange mints under a resource list with the sentinel exactly when that list is ill-formed, the sentinel standing beside the resource |
| `TokenExchange.ClampKeepsProvenance` | internal/auth/token_exchange.go:167-171 | Overwriting the resolved grant's expiry and scopes leaves its chain walks unchanged |
| `MintCap.ExchangedTokens.Record` | internal/auth/token_exchange.go:187-219 | Counts the last hour and either refuses at the cap, changing nothing, or adds one row stamped with the transaction's start |
| `MintCap.ExchangedTokens.Prune` | internal/retention/retention.go:104-107 | Keeps exactly the rows not dead for the grace period and reports how many went |
| `MintCap.NothingRecentIsPruned` | internal/retention/retention.go:104-107 | Where no token can be hidden, no row the count should see has been pruned |
| `MintCap.CommitKeepsCap` | internal/auth/token_exchange.go:199-210 | A commit keeps every hour within the cap, even when it lands out of timestamp order |
| `MintCap.StepKeepsBookkeeping` | internal/auth/token_exchange.go:187-219 | Every step keeps the live table a pruned copy of the full history |
| `MintCap.StepKeepsLocks` | internal/auth/token_exchange.go:190-192 | Every counted exchange holds its delegation's lock until it ends |
| `MintCap.StepKeepsRoom` | internal/auth/token_exchange.go:193-203 | An admitted exchange keeps room under the cap while others run, commit, roll back or prune |
| `MintCap.StepKeepsInvariant` | internal/auth/token_exchange.go:187-219 | Every step keeps the whole invariant, the cap included |
| `MintCap.CapHolds` | internal/auth/token_exchange.go:184-219 | In every run of concurrent exchanges and prunes, every one-hour span of issue times holds at most the capped number of tokens, pruned ones included, unless some capped delegation can be overtaken |
| `MintCap.OvertakenExceedsCap` | internal/retention/retention.go:104-107 | Wherever two clock readings allow it, a run of tokens of the one configured lifespan, clamped to the delegation's own expiry, exceeds any positive cap by one |
| `MintCap.CapHoldsIff` | internal/retention/retention.go:104-107 | All caps of a deployment hold in every run exactly when no capped delegation has two such clock readings: the first token dead for the grace by the second's latest count, both issued within an hour |
| `MintCap.DeadButRecent` | internal/retention/retention.go:104-107 | A pruned row that a count should still see gives two such readings |
| `MintCap.GraceIsExact` | internal/auth/token_exchange.go:155-210 | For a lifespan of a second or more, that is when the grace and the token's life together cover an hour plus the longest clock lag and lock wait, and, for a delegation that expires, the grace covers those delays at its end |
| `MintCap.NoLifespanNoTokens` | internal/auth/token_exchange.go:155-210 | Without a positive lifespan there is nothing to overtake |
| `RateLimit.RateLimiter.Allow` | internal/middleware/ratelimit.go:35-54 | The method's answer and new window map are those of the step function |
| `RateLimit.AdmissionsFit` | internal/middleware/ratelimit.go:35-54 | Over every run, a key's admissions fall into disjoint windows of one interval, each numbered from one up to at most the limit, whatever other keys do |
| `RateLimit.FarApart` | internal/middleware/ratelimit.go:35-54 | Two admissions 2n-1 places apart are more than an interval apart |
| `RateLimit.AtMostTwiceTheLimit` | internal/middleware/ratelimit.go:35-54 | Any closed span of one interval admits at most 2n-1 requests of a key, n being the larger of one and the limit: one fewer than twice the limit |
| `RateLimit.BoundIsReached` | internal/middleware/ratelimit.go:35-54 | For every limit, a run that admits exactly that many in one span |
| `RateLimit.RefusedIff` | internal/middleware/ratelimit.go:35-54 | After any run, a request is refused exactly when the windows still open have admitted the limit already |
| `Revocation.Store.RecordTx` | internal/revocation/store.go:42-49 | Adds exactly one live row |
| `Revocation.Store.Active` | internal/revocation/store.go:54-70 | Active exactly when recorded, not revoked and not past expiry; unknown ids are not |
| `Revocation.Store.Revoke` | internal/revocation/store.go:74-82 | Marks a live row once, keeps the first revocation time, and reports whether anything changed |
| `Revocation.Store.RevokeByDelegation` | internal/revocation/store.go:86-94 | Marks every live row of the delegation and no other, and counts exactly the rows that changed |
| `Revocation.RetentionIff` | internal/retention/retention.go:104-107 | Retention keeps every active token and drops a row exactly once it has been dead for longer than the grace |
| `Revocation.Publisher.Snapshot` | internal/revocation/feed.go:98-110 | Reuses a fresh document unchanged, else publishes the rows just read under the next version |
| `Revocation.RevocationFeed.Apply` | sdk/revocation.go:102-129 | Accepts a document exactly when it is unexpired and no older than the one held, and then swaps the whole set; otherwise changes nothing |
| `Revocation.ReadCarries` | internal/revocation/feed.go:54-70 | A fresh read lists every id any earlier feed listed, unless that token has expired |
| `Revocation.StepKeepsStore` | internal/revocation/store.go:72-94 | Every step keeps the store sound: revoked rows stay revoked until dead |
| `Revocation.StepKeepsFeeds` | internal/revocation/feed.go:53-96 | With one publisher every step keeps versions in the order of the reads behind them |
| `Revocation.StepKeepsClients` | sdk/revocation.go:102-129 | Every step keeps each client holding exactly the ids of the version it reports |
| `Revocation.StepKeepsVersions` | internal/revocation/feed.go:53-96 | However many publish, every step keeps each feed listing exactly the revoked tokens of its read that have not expired, under its own version |
| `Revocation.StepKeepsRefusal` | sdk/verifier.go:184-192 | No single step lowers a client's version or makes it accept what it refused |
| `Revocation.RunKeepsInvariant` | internal/revocation/feed.go:53-110 | Store, feeds and clients stay sound over every run with one publisher |
| `Revocation.RevocationLasts` | sdk/verifier.go:155-194 | In every run with delayed, reordered and replayed feeds, a client's version never falls, every id it holds was revoked at the issuer, and a token once refused stays refused |
| `Revocation.DeliveryIff` | sdk/revocation.go:102-129 | In any run a delivery changes a client exactly when the feed is no older than the one held and its ids were read less than its lifetime ago; it then replaces the whole set |
| `Revocation.DelegationRevocationReaches` | internal/revocation/store.go:84-94 | In any run, revoking a delegation revokes every token minted under it before that had not expired, for good |
| `Revocation.FeedWasRead` | internal/revocation/feed.go:54-70 | Behind every feed built or published stands a point of the run at which its ids were read |
| `Revocation.ClientListsExactly` | sdk/revocation.go:132-137 | In any run, with any number of publishers, IsRevoked answers for an unexpired token exactly whether it was revoked at the point when the feed the client holds was read |
| `Revocation.TwoPublishersForget` | internal/revocation/feed.go:98-110 | A run of two publishers in which a client accepts again a token it had refused |
| `Revocation.RefusalsLastIff` | internal/revocation/feed.go:98-110 | Refusals last in every run exactly when at most one process publishes |
| `RevokedCache.Cache.Refresh` | internal/mcpgw/gateway.go:233-253 | Swaps in exactly the ids read |
| `RevokedCache.AgreesAtRefresh` | internal/revocation/store.go:54-70 | At a refresh the set agrees with the store exactly for recorded tokens up to expiry, and never refuses one the store accepts |
| `RevokedCache.RefusesExactly` | internal/mcpgw/gateway.go:219-253 | In every run with failing and succeeding refreshes, the gateway refuses everything until one succeeds, and then refuses a recorded unexpired token exactly if it was revoked before the last one that did; so none that the store accepts |
| `RevokedCache.BetweenRefreshes` | internal/mcpgw/gateway.go:219-253 | Later in any run, for a recorded unexpired token, the set accepts what the store refuses exactly when it was revoked since the refresh, and never refuses what the store accepts |
| `Keystore.SigningKeys.Rotate` | internal/keystore/keystore.go:250-283 | Inserts the new key and schedules the previous one's retirement only if it has none |
| `Keystore.SigningKeys.Prune` | internal/keystore/keystore.go:287-301 | Deactivates exactly the keys past retirement, sparing the process's own, and counts them |
| `Keystore.Keystore.Reload` | internal/keystore/keystore.go:154-204 | The cache becomes exactly the active keys, and the signing key the newest of them |
| `Keystore.NewestIsUnretired` | internal/keystore/keystore.go:250-301 | The newest key overall is active and has no retirement time, so a reload finds it |
| `Keystore.StepKeepsKeys` | internal/keystore/keystore.go:250-301 | Every step keeps a newer key behind each retired one, and each inactive key past its time |
| `Keystore.StepKeepsCaches` | internal/keystore/keystore.go:154-204 | Every step keeps each cached signing key unretired for the span since its process's reload |
| `Keystore.StepKeepsBootstrap` | internal/keystore/keystore.go:91-112 | Every step keeps the bootstrap lock's promise, however cold starts race |
| `Keystore.StepKeepsTokens` | internal/keystore/keystore.go:235-301 | Every step keeps fitting tokens verifiable wherever the table was reloaded since their signer's reload |
| `Keystore.StepKeepsSigners` | internal/keystore/keystore.go:154-204 | Every step keeps each signing key in its own process's cache, and in every cache loaded since, for the span |
| `Keystore.RunKeepsInvariant` | internal/keystore/keystore.go:64-301 | All of these hold in every interleaving of rotate, prune, reload, bootstrap, abort and signing |
| `Keystore.OneFirstKey` | internal/keystore/keystore.go:64-112 | Bootstrap creates at most one key in any run, and once there is a key the newest is unretired |
| `Keystore.BootstrapLeavesAKey` | internal/keystore/keystore.go:91-112 | A committed bootstrap leaves at least one key |
| `Keystore.SigningKeyLasts` | internal/keystore/keystore.go:250-301 | A process's signing key stays active for the overlap, less the longest transaction, past its last reload |
| `Keystore.TokensStayVerifiable` | internal/keystore/keystore.go:235-301 | A token whose life plus reload gap plus the longest transaction fits the overlap verifies until it expires, in the table and in every cache loaded after its signer's |
| `Keystore.SignerVerifies` | internal/auth/token_exchange.go:177-182 | The signer's own cache holds the key of every token it signs, so the check after minting finds it |
| `Keystore.PruneSparesSigner` | internal/keystore/keystore.go:285-301 | Pruning never deactivates the key its own process signs with |
| `Keystore.PrunedUnderSigner` | internal/keystore/keystore.go:287-301 | For any process and any span beyond that bound there is a run in which a key is pruned while another process still signs with it |
| `Keystore.SigningKeysLastIff` | internal/keystore/keystore.go:250-301 | Signing keys last a span in every run exactly when every process that schedules retirements has an overlap of the span and the longest transaction together, each process having its own |
| `Keystore.OneUnretiredIff` | internal/keystore/keystore.go:259-274 | While every key but the newest is due for retirement, a step leaves it so exactly when a key it adds retires the newest key in the table |
| `Keystore.SupersedingRuns` | internal/keystore/keystore.go:259-274 | So a run whose commits all do so never has two unretired keys |
| `Keystore.RacingRotationsStrand` | internal/keystore/keystore.go:263-274 | Two processes that rotate from one key leave the first new key active with no expiry, unknown to every cache |
| `Keystore.StrandedForever` | internal/keystore/keystore.go:250-301 | Such a key stays active and unretired in every continuation of the run |
| `AuditHash.HashCoversColumns` | migrations/000011_audit_hash_chain.up.sql:24-40 | A row without separator characters, chained to a hash without any, hashes like another row and predecessor, holding any text, exactly when the predecessors and every column agree, actor chains by their joined text |
| `AuditHash.JoinInjective` | migrations/000011_audit_hash_chain.up.sql:31-38 | A list of separator-free parts shares its joined text with no other list as long, even one that hides separators in its parts |
| `AuditHash.ActorChainsCanCollide` | migrations/000011_audit_hash_chain.up.sql:33 | Two different actor chains that the hash does not tell apart |
| `AuditHash.SeparatorsCanCollide` | migrations/000011_audit_hash_chain.up.sql:31-38 | A separator in the first column lets its first part pass for the end of the predecessor hash |
| `AuditHash.HashCoversTime` | migrations/000011_audit_hash_chain.up.sql:38 | The creation time is covered whatever the other columns hold |
| `AuditHash.HashIsDeeper` | migrations/000011_audit_hash_chain.up.sql:24-40 | A row's hash is never one that its own text was made of |
| `Audit.ScanChain` | internal/audit/verify.go:57-88 | On an arbitrary table the pass counts every row, and flags exactly the first one whose link or content is wrong, link before content |
| `Audit.AuditLog.Append` | migrations/000011_audit_hash_chain.up.sql:62-75 | The trigger chains the new row to the last one present |
| `Audit.AuditLog.Prune` | internal/retention/retention.go:151-176 | Keeps exactly the rows not aged, in order, and moves the watermark only when something was deleted |
| `Audit.AuditLog.Verify` | internal/audit/verify.go:35-113 | Reports a chain break, else truncation or a rewritten prefix against the last stored anchor, else success, each exactly when it holds |
| `Audit.AuditLog.AnchorSigned` | internal/audit/anchor.go:48-77 | Succeeds exactly on an intact, non-empty log that matches its last anchor, and then stores and signs its head; otherwise stores nothing |
| `Audit.AuditLog.CheckAgainstAnchor` | internal/audit/anchor.go:101-129 | Accepts exactly when the signature is valid, the chain verifies, and the anchored row is still there unchanged, with the kind of failure otherwise |
| `Audit.HashesDeepen` | internal/audit/verify.go:21-34 | No two rows of an intact chain share a hash |
| `Audit.GapBreaks` | internal/retention/retention.go:151-176 | A surviving row is flagged exactly when its predecessor was deleted |
| `Audit.PruneKeepsIntactIff` | internal/retention/retention.go:148-176 | Retention leaves an intact chain intact exactly when no row before the cutoff stands between two that are not |
| `Audit.UnorderedPruneExample` | internal/retention/retention.go:148-176 | Three rows, the second with an earlier creation time, whose intact chain fails verification after a prune |
| `Audit.OrderedRowsAreContiguous` | internal/retention/retention.go:151-176 | Creation times that follow the sequence meet that condition at every cutoff |
| `Audit.ContiguousIsConsecutive` | internal/retention/retention.go:163-167 | That condition on times says exactly that the positions kept follow one another |
| `Audit.AppendKeepsHealth` | migrations/000011_audit_hash_chain.up.sql:62-75 | An append in time order keeps a verifying log verifying |
| `Audit.PruneKeepsHealth` | internal/retention/retention.go:151-176 | So does a prune at any cutoff |
| `Audit.ReachableLogsVerify` | internal/audit/verify.go:57-88 | The pass flags nothing on any log reached by appends and prunes in any order |
| `Audit.CanonicalAnchorInjective` | internal/audit/anchor.go:41-44 | The signed text determines all four fields, whatever text the head hash holds |
| `Audit.SharedHashSharesRows` | internal/audit/verify.go:57-88 | Two intact chains that share a hash at a position share predecessor hashes and columns of all rows below it, and the watermark, as far down as the first chain holds no separator |
| `Audit.AcceptedAnchorPinsPrefix` | internal/audit/anchor.go:97-129 | If a record bearing a log's signature is accepted, the live table, after any rewriting, has at least its rows and its head hash; and from any position up from which the log held no separator, exactly its predecessor hashes and columns in order, from the first row the watermark too |
| `Audit.SeparatorHidesRewrite` | migrations/000011_audit_hash_chain.up.sql:31-38 | A first row with a separator in a column, rewritten with the watermark under the same hash |
| `Audit.TruncationNeedsAnchor` | internal/audit/verify.go:90-112 | Cutting the newest rows leaves an intact chain, detected by an anchor exactly when it lies above the cut |
| `Audit.AnchorSurvivesPruneIff` | internal/audit/verify.go:90-112 | After a prune of an ordered log, an anchor taken before it still matches exactly when the cutoff spares the log's first row |
| `Audit.OldAnchorExample` | internal/audit/verify.go:90-112 | A log of two rows, anchored at either, for which no anchor matches once the first row is pruned |
| `AnchorRuns.RunKeepsInvariant` | internal/audit/verify.go:90-112 | In every run the last anchored row is in its place, or lower, or outlived by every row there is or will be |
| `AnchorRuns.AnchorMatchesIff` | internal/audit/verify.go:90-112 | In every run of appends, retention and anchorings the chain verifies against the stored anchors exactly when retention has deleted no row since the last one |
| `AnchorRuns.StaleForever` | internal/audit/anchor.go:48-55 | Once it has, every later anchoring is refused and verification fails in every continuation |
| `DuplicateKeys.Decoder.ScanValue` | internal/mcpgw/gateway.go:747-785 | The decoder-driven recursion and its loops compute the specification scan and leave its remaining tokens |
| `DuplicateKeys.HasDuplicateKeys` | internal/mcpgw/gateway.go:742-745 | True exactly for the duplicate outcome, not for a malformed stream |
| `DuplicateKeys.ScanIsExact` | internal/mcpgw/gateway.go:739-785 | On the tokens of any well-formed document the scan answers duplicate exactly when some object at some depth repeats a key, and otherwise consumes exactly that value (section 4 of RFC 8259) |
| `DuplicateKeys.TruncatedFails` | internal/mcpgw/gateway.go:739-785 | A body cut short fails, unless a repeated key came before the cut |
| `DuplicateKeys.ScanExtends` | internal/mcpgw/gateway.go:747-785 | What the scan answers before the stream runs out does not depend on what follows |
| `DuplicateKeys.ScanMembersIsExact` | internal/mcpgw/gateway.go:757-774 | The same for an object's remaining members, given the keys seen |
| `DuplicateKeys.ScanItemsIsExact` | internal/mcpgw/gateway.go:775-782 | The same for an array's remaining items |
| `Overlay.DedupSort` | internal/ccguard/overlay.go:82-97 | Yields the sorted list of exactly the distinct non-empty rules |
| `Overlay.Without` | internal/ccguard/overlay.go:99-111 | Drops exactly the named rules |
| `Overlay.Overlay.Normalize` | internal/ccguard/overlay.go:75-80 | Puts all four lists in normal form, losing only empty rules |
| `Overlay.Overlay.Add` | internal/ccguard/overlay.go:56-62 | The four lists become the unions, in normal form, without empty rules |
| `Overlay.Overlay.Remove` | internal/ccguard/overlay.go:67-73 | The four lists become the differences, in normal form, without empty rules |
| `Overlay.NormalIsUnique` | internal/ccguard/overlay.go:75-97 | A normal list is determined by its elements |
| `Overlay.AddKeepsRules` | internal/ccguard/overlay.go:56-62 | Add keeps every earlier rule exactly when none was empty |
| `Overlay.RemoveUndoesAdd` | internal/ccguard/overlay.go:64-73 | Removing what was just added restores a normal overlay list for list |
| `Guard.InResourceValues` | internal/ccguard/guard.go:366-374 | A value is read off the token exactly when the prefix followed by it is a resource entry |
| `Guard.PathsExact` | internal/ccguard/guard.go:271-298 | Paths pass exactly when no single deny rule or protected file covers any of them and, if any allow-root is given, there are paths and each is covered by some root |
| `Guard.CommandExact` | internal/ccguard/guard.go:305-338 | A command passes exactly when no rule forbids one of its programs, any allow-list names them all, and its redirects comply |
| `Guard.HostExact` | internal/ccguard/guard.go:342-362 | A host passes exactly when no deny rule is it or a parent domain of it, and any allow-list has such a rule |
| `Guard.AllowedIff` | internal/ccguard/guard.go:117-175 | A call is allowed exactly when the token has the guard's issuer and audience, is unexpired and unrevoked, carries an actor, is within its hours now, grants capability and tool, and the objects comply, rule by rule |
| `Guard.DenyListsGrow` | internal/ccguard/guard.go:410-419 | A larger overlay only lengthens each deny list |
| `Guard.OverlayOnlyTightens` | internal/ccguard/guard.go:404-419 | For every token and call, a larger overlay allows nothing that a smaller one, or none, blocks |
| `Guard.AddingRulesOnlyTightens` | internal/ccguard/overlay.go:56-62 | A call allowed after rules are added was allowed before, exactly when no empty rule held before reaches what the call touches; and always with no overlay |
| `Guard.EmptyRuleExample` | internal/ccguard/overlay.go:82-97 | A hand-written empty host rule, dropped by adding another rule, after which a blocked call is allowed |
| `Guard.ChildIff` | internal/ccguard/setup.go:172-184 | A child token is minted exactly when the parent verifies locally and holds every one of at least one requested scope |
| `Guard.ChildExtendsParent` | internal/ccguard/setup.go:155-204 | A child token holds exactly the requested scopes, all the parent's, with the parent's subject and constraints, provenance extended by the named agent, and the lesser of the two lifetimes in whole seconds |
| `Guard.ChildAllowsOnlyWhatParentMay` | internal/ccguard/setup.go:148-204 | What the guard allows the child it allows the parent, exactly when the parent verifies at this guard and is not revoked |
| `Grants.DeclaredTree` | internal/grants/grants.go:248-284 | A declaration is built exactly when nothing in it is malformed or escalates, and each node then carries exactly the declared authority, tightened by the root's, in its own file |
| `Grants.TreeExpires` | internal/grants/grants.go:248-284 | Every grant of a tree lives for the declared lifetime from when it is built |
| `Grants.AllNodesAt` | internal/grants/grants.go:431-436 | The nodes of a file are those of its trees, in order |
| `Grants.AcceptableIff` | internal/grants/grants.go:286-317 | Declared constraints are accepted exactly when the amount is not negative and the window names real days, a known zone, and hours that some minute of the day is in |
| `Grants.Sanitized` | internal/grants/grants.go:690-706 | A file name has the label's characters in order, unsafe ones as dashes, none at either end, and is never empty |
| `Grants.FileChars` | internal/grants/grants.go:693-698 | The safe characters are the letters, digits, dash, underscore and dot |
| `Grants.MintedFingerprint` | internal/grants/grants.go:597-635 | What fingerprinting reads off a minted token: the whole chain, the words of the scopes, and the constraints as re-read |
| `Grants.MintedBody` | internal/ccguard/roles.go:104-115 | What a freshly written file holds: the id, audience, chain, words, expiry and constraints |
| `Grants.FingerprintCovers` | internal/grants/grants.go:580-595 | Grants have equal fingerprints exactly when chain, audience, scopes and every constraint but the rate agree, lists up to order |
| `Grants.FingerprintInvertsMint` | internal/grants/grants.go:580-635 | Fingerprinting a minted token gives back the grant's fingerprint exactly when its scopes are whitespace-free words and its weekday list is absent or non-empty |
| `Grants.Setup.ApplyTree` | internal/grants/grants.go:436-468 | Reconciling one tree's nodes, in order, over the directory |
| `Grants.Setup.Apply` | internal/grants/grants.go:428-479 | A run equals folding the reconciliation over all declared nodes, with the orphans; on an error exactly the grants before the failing one have been reconciled |
| `Grants.ApplyConcat` | internal/grants/grants.go:431-468 | Reconciling tree by tree is reconciling the nodes in order |
| `Grants.OtherFilesStay` | internal/grants/grants.go:455-462 | A run touches no file but the declared ones |
| `Grants.ReportIsExact` | internal/grants/grants.go:436-468 | With distinct files, create, update and unchanged are reported, and tokens minted, exactly as the directory found calls for |
| `Grants.LastWriter` | internal/grants/grants.go:447-462 | A file holds what the last node naming it left: a new token with the next id, or what already matched |
| `Grants.ForcedRun` | internal/grants/grants.go:451-463 | A forced run mints for every node, and each file then holds a token with its own new id and a new expiry, whether it matched before or not |
| `Grants.ApplyConverges` | internal/grants/grants.go:423-468 | After one run every declared file holds a token of the declared fingerprint |
| `Grants.DeclaredFilesHold` | internal/grants/grants.go:423-468 | From declaration to file: after one run each declared grant's file holds a token for its principal, agent, audience, scopes and constraints |
| `Grants.MatchingIsLeftAlone` | internal/grants/grants.go:423-427 | A matching directory is left as it is, with only unchanged reported and nothing minted |
| `Grants.NodesIgnoreTime` | internal/grants/grants.go:580-582 | Building at another time succeeds alike and declares the same files and fingerprints |
| `Grants.ApplyIsIdempotent` | internal/grants/grants.go:423-479 | A second run of the same file at any time mints nothing, changes nothing and reports only unchanged |
| `Grants.MintingNothingMeansMatching` | internal/grants/grants.go:455-462 | A run that mints nothing found every declared file matching |
| `Grants.IdempotentIff` | internal/grants/grants.go:423-479 | From every directory a second run mints nothing, exactly when every grant is representable and no two of different authority share a file |
| `Grants.SpacedScopeExample` | internal/grants/grants.go:597-635 | A scope with a space, for which every run mints anew |
| `Metrics.ComputeJoinKey` | internal/metrics/metrics.go:376-386 | The loop computes the length-prefixed key |
| `Metrics.JoinKeyInjective` | internal/metrics/metrics.go:376-386 | Two label tuples share a key only if they are equal, whatever characters they hold |
| `Metrics.Search` | internal/metrics/metrics.go:245 | Binary search finds the first bound at or above the value |
| `Metrics.BumpTallies` | internal/metrics/metrics.go:243-255 | One bump keeps every running prefix of the buckets equal to the number of observations at most its bound |
| `Metrics.UpdateOneSeries` | internal/metrics/metrics.go:257-276 | Replacing one tuple's cell keeps all series faithful and reaches no other tuple |
| `Metrics.RenderCell` | internal/metrics/metrics.go:289-300 | The rows are the running sums of the buckets, never decreasing, up to the +Inf row |
| `Metrics.HistogramVec.constructor` | internal/metrics/metrics.go:60-71 | Bounds are sorted, with nothing lost, and defaulted when empty |
| `Metrics.HistogramVec.Observe` | internal/metrics/metrics.go:243-276 | Appends one observation to its own series and leaves every other untouched |
| `Metrics.HistogramVec.Render` | internal/metrics/metrics.go:278-302 | Each row is the number of observations at most its bound, rows never decrease, and the +Inf row equals the count |
| `HistogramRuns.StepKeepsInvariant` | internal/metrics/metrics.go:243-276 | Every atomic step of every observation keeps each cell equal to what has passed each mark, whatever the interleaving and however often the swap is retried |
| `HistogramRuns.QuiescentTotals` | internal/metrics/metrics.go:243-302 | In every run of concurrent observations, once none is under way each series holds per bound the number of its observations at most it, their number, and the sum with each added once |
| `HistogramRuns.CountLagsBuckets` | internal/metrics/metrics.go:244-254 | At every moment a series counts no more than its +Inf row and no fewer than have finished |
| `HistogramRuns.NoneIsBlocked` | internal/metrics/metrics.go:243-276 | Every unfinished observation can always take its next step |

## Left out

- JWT signing and parsing, key encryption and randomness: assumed as above.
- The delegation-chain database adapter, which only loads rows into grants.
- HTTP handling, parameter-shape errors and audit writes around the exchange and the gateway: plumbing around the modelled decisions.
- The gateway's method whitelist, tools/list filtering and upstream table: lookups with easy claims.
- The SDK's fail-closed staleness option, which only refuses more.
- A client that restarts forgets its version; runs here have no restarts.
- `Keystore.Reencrypt`, which reads outside its transaction.
- Declared audiences and lifetimes after defaulting, clock times after parsing, and YAML reading: the grants model starts from their results.
- Tokens with several audiences in a fingerprint, which the reconciler never mints.
- The reconciler's orphan pruning, lint and who-can queries, and reading or writing failures of its directory.
- The mapping from a tool call to a capability, path and shell analysis: functions of the host in the guard.
- Counters and gauges, whose cells repeat the histogram's; overflow of 64-bit counts; a scrape that reads a cell's numbers at different moments; rounding and NaN in sums.
- `MintCap.GraceIsExact`: for a lifespan below one second, the condition stays that of `MintCap.CapHoldsIff`, as whole-second claims then make mintable moments come and go.
- The live hub, the other language SDKs, and administration pages: no further laws.
