# Verified model of fediway's algorithms

fediway serves algorithmic feeds to Mastodon clients. Between its database, its cache and its HTTP calls sit a
number of small algorithms with real state and arithmetic. This project models them in Dafny and proves what they
keep over every input, every run and every interleaving:

- **Quota sampling.** The greedy sampler is shown to be a cup-emptying game. From that follows a fairness bound with
  harmonic numbers for every prefix of every selection, an upper bound, and exact splits for the configured feeds;
  separately, the order within each group and the conservation of candidates.
- **Resolving ids.** The resolver's shared search is a step system in which any number of calls, flights and table
  updates interleave. Its invariants give at most one upstream search from any quiet moment up to the next failed
  flight or reset, the exact condition for callers to share one flight at all times, a bound on all searches,
  agreement of all callers of a flight, a flight map that empties, and ids that come from the mapping column or a
  search only.
- **The home feed.** A page is the first admissible entries of the pool; the seen list is the last 500 entries of the
  served history; and continuation requests page through a cached pool without repeats and, of what was unseen,
  completely and in rank order, until it is rebuilt.
- **The orbit worker.** Over any sequence of cycles each engagement is applied at most once; exactly the rows that the
  cursor passes are applied if and only if no cycle has a failed row below an embedded one; when nothing fails, every row is
  delivered; and each vector is the end of a sequence of averages, one per logged row.
- **Fast forms against simple ones.** Batched id translation, reassembly of statuses, span splicing, deduplication,
  the pipeline, the circuit breaker and three kinds of cursors each equal or refine an independent description. For
  formatted posts the description is what a reader sees once tags are erased and entities decoded, how it is laid out,
  what is linked, and where the anchors lead.

Objects that the source updates in place are classes here, loops are methods with invariants, and each method is
proved against a function or relation whose properties are then proved as lemmas. Scores, weights and vectors are
reals; ids are integers with the ranges of their machine types where parsing or wrap-around matters.

`dafny verify dfyconfig.toml` checks the project.

## Where the code and its documentation differ

- `workers/orbit/src/main.rs:277-279` says that rows whose embedding failed stay ahead of the cursor. Taking the
  maximum id skips a failed row below an embedded one. `OrbitExact.RetriedIffNothingAbove` gives the exact
  condition for a row, `OrbitExact.ExactlyOnceIffNoHoles` for a run, and `OrbitExact.FailedRowIsSkipped` an example.
- `apps/server/src/mastodon/resolve.rs:81-83` says that concurrent callers share one search. Since leaving removes
  the map entry by snowflake, this is only guaranteed up to the first failed flight (`ResolverSafety.AtMostOneSearch`).
  `ResolverRaces.OneFlightIffNoBlindJoin` gives the exact condition for callers to share: no call may find the map
  empty at line 109 while a flight is under way, which `ResolverRaces.BlindJoinFollowsDrop` traces to an earlier
  removal of that flight; `ResolverRaces.OneSearchIffNoSecondSearch` gives it for searches.
  `ResolverRaces.TwoSearchesAtOnce` and `ResolverRaces.TwoSearchesAfterClear` are runs with two searches at once, one
  after a failure and one after a row is cleared.
- `apps/server/src/routes/mastodon/engagements.rs:163-173` pins the caller's snowflake on the response, but after
  translation has replaced the id. `Engagements.CallerSeesOwnSnowflake` says exactly when the caller sees its own,
  and `Engagements.OtherSnowflakeShown` is a table with which it does not.
- `crates/mastodon/src/formatter.rs:110-118` cuts links at a byte offset, which panics inside a character.
  `Formatter.PanicsIffStraddled` says on exactly which urls; `Formatter.SomeUrlPanics` is one.

## Model

| member | source | states |
|---|---|---|
| Candidates.SwapRemoveTakesOne | crates/feed/src/sampler.rs:14-24 | `swap_remove` takes out one occurrence of the chosen candidate and nothing else |
| Candidates.SwapRemovePlaces | crates/feed/src/sampler.rs:14-24 | the last candidate moves into the gap, and all others stay in place |
| Samplers.HighestScored | crates/feed/src/quota_sampler.rs:77-83 | the index is that of a best-scored admitted candidate, of several the last; none only if none is admitted |
| Samplers.LargestDeficitIsLargest | crates/feed/src/quota_sampler.rs:46-63 | the quota loop finds the first of the available quotas with the largest deficit, and fails only if none is available |
| Samplers.Pick | crates/feed/src/quota_sampler.rs:37-75 | the loop picks as specified: best of the neediest available group, else best of all; nothing only from nothing |
| Samplers.Sample | crates/feed/src/sampler.rs:9-25 | the loop's selection is that of `n` draws, each appending the pick and swap-removing it |
| Samplers.SamplingConserves | crates/feed/src/sampler.rs:14-24 | selected and remaining together are the input as a multiset, and min(n, input length) are selected |
| Samplers.RunPrefix | crates/feed/src/sampler.rs:15-23 | a larger limit only extends the selection |
| SamplerChoice.CountGroupCounts | crates/feed/src/quota_sampler.rs:53-55 | the count of a group is the number of positions at which it stands |
| SamplerChoice.PicksForNeediest | crates/feed/src/quota_sampler.rs:46-73 | in numbers: the first quota, among those with candidates left, whose weight over the sum of weights most exceeds its count over n + 1; and the best candidate of its group, of several the last |
| SamplerChoice.PicksBestOfAll | crates/feed/src/quota_sampler.rs:38-44 | without positive weights, or with nothing quoted left, the best candidate of all, of several the last |
| SamplerChoice.TopKTakesTheBest | crates/feed/src/sampler.rs:27-38 | the plain sampler takes the best scores of all, best first |
| CupGame.RoundKeepsBalance | crates/feed/src/quota_sampler.rs:50-63 | emptying a fullest cup in play keeps every set of j cups in play at or below j(H(k) - H(j)) |
| CupGame.RoundKeepsFloor | crates/feed/src/quota_sampler.rs:50-63 | with all cups in play, none ever falls below 1/k - 1 |
| Fairness.DrawIsRound | crates/feed/src/quota_sampler.rs:50-73 | a draw from a quoted group is a round of the cup game on the shortfalls of the groups |
| Fairness.RunStaysBalanced | crates/feed/src/quota_sampler.rs:46-63 | after any number of draws, every set of j groups still available is short by at most j(H(k) - H(j)) in total |
| Fairness.NoStarvation | crates/feed/src/quota_sampler.rs:46-63 | in every prefix of length n a quoted group with candidates left has at least its share of n less H(k) - 1, whatever other groups have run out |
| Fairness.NoFavouritism | crates/feed/src/quota_sampler.rs:50-63 | while no quoted group is exhausted, none exceeds its share of a prefix by more than 1 - 1/k |
| Fairness.ExactOnWholeTargets | crates/feed/src/quota_sampler.rs:50-63 | with at most three quotas, counts are less than one away from target, and equal to a whole target |
| SamplerOrder.RunIsBestFirst | crates/feed/src/quota_sampler.rs:65-73 | within each group, selections come in non-increasing score and above what is left of the group |
| SamplerOrder.UnquotedFillUp | crates/feed/src/quota_sampler.rs:42-73 | with positive total weight, unquoted candidates come only after every quoted one |
| SamplerOrder.GroupPartIsTopK | crates/feed/src/sampler.rs:27-38 | the scores taken from a group are those `TopK` takes from that group alone |
| Mapping.StatusTable.MapPost | crates/state/src/statuses/mapping.rs:34-57 | an upsert returns the row of the post, changes only its data if it exists, and keeps posts unique |
| Mapping.StatusTable.MapPosts | crates/state/src/statuses/mapping.rs:75-110 | the batch gives each post its row and changes no other row; it fails as a whole exactly if a post occurs twice |
| Mapping.StatusTable.SetMastodonLocalId | crates/state/src/statuses/mapping.rs:161-176 | the column is written once, and the result says whether it was |
| Mapping.StatusTable.ClearMastodonLocalId | crates/state/src/statuses/mapping.rs:183-192 | only the row's local id is reset |
| Mapping.StatusTable.Delete | crates/state/src/statuses/mapping.rs:145-154 | exactly the row is removed |
| Mapping.WritesByCase | crates/state/src/statuses/mapping.rs:145-192 | row by row, what setting and clearing a local id, deleting and upserting change, and that all other rows stay |
| Mapping.StatusTable.ReverseMap | crates/state/src/statuses/mapping.rs:242-261 | exactly the requested local ids that some row maps to, each with the least such row |
| Mapping.StatusTable.FindMastodonIdsByProvider | crates/state/src/statuses/mapping.rs:203-229 | exactly the requested posts whose row is resolved, each with the local id of its row |
| Resolvers.Resolver.FirstLookup | apps/server/src/mastodon/resolve.rs:89-105 | the first lookup is the protocol's lookup step: a mapped row answers, a missing one or a failure rejects |
| Resolvers.Resolver.JoinOrInsert | apps/server/src/mastodon/resolve.rs:107-120 | the critical section is the protocol's join step; the call then awaits the flight in the map |
| Resolvers.Resolver.RemoveAndReturn | apps/server/src/mastodon/resolve.rs:122-134 | removal is by snowflake, whatever flight is there, and the flight's outcome is returned |
| Resolvers.Resolver.StartSearch | apps/server/src/mastodon/resolve.rs:137-159 | the flight re-reads the row, and searches only for an unmapped row with a uri |
| Resolvers.Resolver.ReceiveReply | apps/server/src/mastodon/resolve.rs:160-236 | each kind of reply leads to its outcome, and only a numeric first match to storing |
| Resolvers.Resolver.Persist | apps/server/src/mastodon/resolve.rs:238-246 | a flight stores what it found if the column is free, and reports what it found |
| ResolverReplies.Lookups | apps/server/src/mastodon/resolve.rs:89-105 | what each state of the table, or its failure, makes of a call's first lookup |
| ResolverReplies.Joins | apps/server/src/mastodon/resolve.rs:107-120 | a call joins the flight in the map, or launches one and puts it there |
| ResolverReplies.Leaves | apps/server/src/mastodon/resolve.rs:122-134 | a call returns the outcome of its flight, and empties the slot of its snowflake |
| ResolverReplies.Departures | apps/server/src/mastodon/resolve.rs:137-159 | what each state of the table, or its failure, makes of a departing flight |
| ResolverReplies.RefusalErrors | apps/server/src/mastodon/resolve.rs:184-206 | 401 and 403, 422, 429 and any other status each have their error |
| ResolverReplies.UnusableReplies | apps/server/src/mastodon/resolve.rs:175-236 | no answer, a garbled one, no match, and a first match that is no number each have their error |
| ResolverReplies.FirstMatchIsStored | apps/server/src/mastodon/resolve.rs:217-236 | the first match, read as a number, is what the flight goes on to store |
| ResolverReplies.StoringWrites | apps/server/src/mastodon/resolve.rs:238-245 | storing writes that id into an unmapped row, reports it, and touches no other row |
| ResolverReplies.StoredIdIsReturned | apps/server/src/mastodon/resolve.rs:122-134 | once the write succeeds, every call that leaves the flight returns that id |
| ResolverReplies.ReturnedIdsHaveOrigins | apps/server/src/mastodon/resolve.rs:84-246 | over every run, an id that a call returns was in its row at the lookup or at the flight's departure, or was the first match of a reply to that flight |
| ResolverReplies.FoundIdsHaveOrigins | apps/server/src/mastodon/resolve.rs:217-236 | what counts as found was the first match of a reply to a flight of that snowflake |
| ResolverReplies.StoredIdsHaveOrigins | apps/server/src/mastodon/resolve.rs:238-245 | over every run, a row holds an id from the start or the first match of a reply to one of its flights |
| ResolverReplies.AbsentIsNotFound | apps/server/src/mastodon/resolve.rs:96-99 | a call that arrives while its snowflake has no row, and whose lookup does not fail, is answered not found as long as none appears |
| ResolverSafety.RunIsCoherent | apps/server/src/mastodon/resolve.rs:107-126 | in every run, map entries and waiting calls refer to flights of their own snowflake, and calls leave with their flight's outcome |
| ResolverSafety.StepKeepsSingleFlight | apps/server/src/mastodon/resolve.rs:89-126 | every step keeps the invariant behind the single search, short of a failed flight and of resets of the row |
| ResolverSafety.AtMostOneMoreSearch | apps/server/src/mastodon/resolve.rs:78-83 | over all interleavings, from any moment at which nothing is going on about a snowflake, at most one more search is sent for it until a flight for it fails or its row is reset |
| ResolverSafety.AtMostOneSearch | apps/server/src/mastodon/resolve.rs:78-83 | over all interleavings from a fresh resolver, until a flight for a snowflake has failed or its row is reset, at most one search is sent for it |
| ResolverSafety.SuccessIsStored | apps/server/src/mastodon/resolve.rs:238-245 | from any quiet moment to the next failed flight or reset, every call that returns an id returns the one stored in the row |
| ResolverSafety.FlightMatesAgree | apps/server/src/mastodon/resolve.rs:107-134 | calls that joined one flight return the same outcome, in every run |
| ResolverSafety.StoredIdIsFinal | crates/state/src/statuses/mapping.rs:161-176 | a stored id stays until the row is cleared or deleted, failed flights or not |
| ResolverSafety.NoLeak | apps/server/src/mastodon/resolve.rs:122-126 | without cancellation the flight map is empty once every call has returned |
| ResolverRaces.RegisteredUnlessDropped | apps/server/src/mastodon/resolve.rs:122-126 | a step takes a live flight out of later callers' reach exactly if a leaving call drops it |
| ResolverRaces.RegisteredIffNoStaleDrop | apps/server/src/mastodon/resolve.rs:122-126 | over a run, every live flight stays in the map if and only if no leaving call drops a live one |
| ResolverRaces.RegisteredIsUnique | apps/server/src/mastodon/resolve.rs:78-83 | while that holds, a snowflake has at most one live flight |
| ResolverRaces.OneFlightIffNoBlindJoin | apps/server/src/mastodon/resolve.rs:107-120 | over a run, a snowflake never has two live flights at once if and only if no joining call finds the map empty while a flight is live |
| ResolverRaces.UnregisteredIffDropped | apps/server/src/mastodon/resolve.rs:122-126 | a live flight is in the map exactly if no step of the run dropped it |
| ResolverRaces.BlindJoinFollowsDrop | apps/server/src/mastodon/resolve.rs:107-126 | behind every such join there is an earlier removal of a flight that has not landed since |
| ResolverRaces.OneSearchIffNoSecondSearch | apps/server/src/mastodon/resolve.rs:142-159 | over a run, two searches are never under way at once if and only if no flight finds the row unmapped while another is asking |
| ResolverRaces.OneFlightMeansOneSearch | apps/server/src/mastodon/resolve.rs:78-83 | as long as callers share flights, they share searches |
| ResolverRaces.TwoSearchesAtOnce | apps/server/src/mastodon/resolve.rs:122-126 | after a failed flight, a slow waiter can drop its successor, and two searches are under way at once |
| ResolverRaces.TwoSearchesAfterClear | crates/state/src/statuses/mapping.rs:183-192 | so they can, without any failure, after the row is cleared while a waiter has not left yet |
| ResolverAccounting.FlightsAreAccountedFor | apps/server/src/mastodon/resolve.rs:107-126 | in every run, the flights launched for a snowflake are the removals of its entry and the one in the map |
| ResolverAccounting.SearchesAreBounded | apps/server/src/mastodon/resolve.rs:107-159 | whatever fails or is reset, the searches for a snowflake are at most one more than the calls that have left a flight for it |
| ResolverHonesty.KnownSnowflakesStayKnown | apps/server/src/mastodon/resolve.rs:89-126 | whatever fails, a call that arrives when its row is there with a uri, since whenever, never answers not found, and answers only ids from the column or a search |
| Decimal.ParsePrintI64 | apps/server/src/mastodon/translate.rs:20-26 | printing a 64-bit id and parsing it gives the id back |
| Decimal.WaysToWrite | apps/server/src/mastodon/translate.rs:20-22 | signs, leading zeros and the range of the machine types when a number is read |
| Decimal.NotANumber | apps/server/src/mastodon/translate.rs:20-22 | the empty string, a lone sign and anything with another character in it are no numbers |
| Translate.ApplyMap | apps/server/src/mastodon/translate.rs:72-106 | the in-order rewriting of a tree equals looking up every visited id field on its own |
| Translate.CollectIds | apps/server/src/mastodon/translate.rs:57-95 | exactly the visited numeric ids are pushed, in order |
| Translate.TranslateResponse | apps/server/src/mastodon/translate.rs:40-55 | one batched query, early exits included, equals looking up each visited id in the whole table; it fails only if a query is made and fails |
| Translate.PointwiseAgrees | apps/server/src/mastodon/translate.rs:40-55 | only the answers for collected ids matter, so a batched query for those is enough |
| Translate.IdsTranslated | apps/server/src/mastodon/translate.rs:72-106 | the result has the same visited ids in the same places, each translated |
| Translate.PathsStay | apps/server/src/mastodon/translate.rs:72-106 | for every path into the tree: an id field of a status, reblogged or quoted to any depth, is rewritten on its own, every other value stays, and no object gains or loses a field |
| Translate.OtherFieldsStay | apps/server/src/mastodon/translate.rs:72-106 | in one object, ids are rewritten, the reblogged status is translated, and unvisited fields stay |
| Engagements.Apply | apps/server/src/routes/mastodon/engagements.rs:115-177 | by case of the resolver: a found id is sent in place of the snowflake, an unknown or non-numeric id is sent as it is, any other error sends nothing; and which response each answer leads to, pinned only if the snowflake was resolved and the body is about the sent id |
| Engagements.TargetByCase | apps/server/src/mastodon/translate.rs:15-31 | the same three cases for ids in request bodies |
| Engagements.AbsentIdsPassThrough | apps/server/src/routes/mastodon/engagements.rs:124-145 | a number without a row from the call's arrival on goes upstream, and into requests, unchanged |
| Engagements.PinsOnlyTheForwarded | apps/server/src/routes/mastodon/engagements.rs:163-173 | only a body about the forwarded status gets another id, and it keeps all other fields |
| Engagements.ForwardsOnlyKnownIds | apps/server/src/routes/mastodon/engagements.rs:124-145 | a snowflake whose row is there with a uri when the call arrives never goes upstream itself, only an id from the column or a search, in every outcome of the resolver |
| Engagements.CallerSeesOwnSnowflake | apps/server/src/routes/mastodon/engagements.rs:162-173 | the caller sees its own snowflake if and only if the canonical row is its own, absent, or numbered like the Mastodon id |
| Engagements.OtherSnowflakeShown | apps/server/src/routes/mastodon/engagements.rs:162-173 | two rows of one Mastodon id: the caller of the later one is not shown its own snowflake |
| Engagements.TranslatedIdsResolveBack | crates/state/src/statuses/mapping.rs:242-261 | each id put into a response resolves at once to the Mastodon id it replaced |
| HomeFeed.UserFeed.LoadPool | apps/server/src/feeds/home.rs:235-264 | a cached non-empty pool is used, otherwise the rebuilt one is used and cached |
| HomeFeed.UserFeed.ExtendSeen | apps/server/src/feeds/seen.rs:22-34 | new entries are appended and the oldest beyond the cap dropped; no news writes nothing |
| HomeFeed.UserFeed.Serve | apps/server/src/feeds/home.rs:151-216 | the page and the cache after a request, including the rebuild when nothing is left |
| HomeServing.PageIsFirstAdmissible | apps/server/src/feeds/home.rs:151-200 | a page is the first entries of the loaded pool, at least one and at most forty asked for, that are unseen or, on a reload, from the network, none skipped; the pool is rebuilt if and only if it has none |
| HomeHistory.SeenIsWindow | apps/server/src/feeds/seen.rs:22-34 | on every run of mixed requests and expiries the stored list is the last 500 entries served since it last expired |
| HomeHistory.NoRecentRepeats | apps/server/src/feeds/home.rs:169-182 | a continuation repeats none of the last 500 served entries, a reload only network ones |
| HomeHistory.NextPage | apps/server/src/feeds/home.rs:167-193 | a continuation serves the next slice of the unseen entries, and finds the pool exhausted exactly when all were served |
| HomeHistory.PagingIsExhaustive | apps/server/src/feeds/home.rs:167-193 | continuation pages of any limits concatenate to the unseen pool in rank order, each entry once; only then is it rebuilt |
| HomePaging.PagingBetweenRebuilds | apps/server/src/feeds/home.rs:167-193 | with any seen list, continuation pages repeat nothing, show the initially unseen entries in rank order, and lead to a rebuild exactly when all pool entries are among the last 500 seen or shown, by when every unseen one was shown |
| HomePool.HomePipelineIsWellBuilt | apps/server/src/feeds/home.rs:123-143 | the home pipeline, with its deduplication, policy filter and diversity scorer, meets the conditions of the pipeline theorems |
| HomePool.RepeatsArePenalised | crates/feed/src/scorer.rs:35-46 | of each author's posts, the first keeps its score and the others keep 15 percent |
| HomePool.RebuiltPoolIsDistinct | apps/server/src/feeds/home.rs:124-126 | whatever the sources return, the pool that the home pipeline rebuilds has distinct identities and fits under the seen cap |
| HomePool.RebuiltPoolIsPagedExhaustively | apps/server/src/feeds/home.rs:247-264 | so a rebuilt pool is paged without repeats and, of what was unseen, completely, whatever the seen list, and within 300 requests |
| HomePool.HomeSplitIsExact | apps/server/src/feeds/home.rs:131-142 | every ten selections split 6:3:1, or 7:3 without a vector, as long as no group has run out |
| Orbit.UniqueTexts | workers/orbit/src/embed.rs:87-95 | the texts to embed are the non-empty ones, each once |
| Orbit.EmbedEngagements | workers/orbit/src/embed.rs:80-124 | chunking, skipping failed chunks and zipping short replies give each text the embedding at its position, or none |
| OrbitProgress.EmbeddingByChunk | workers/orbit/src/embed.rs:99-121 | a text gets the shortened vector at its offset in the reply to its chunk, or none if that failed or is too short |
| OrbitVectors.ProcessEngagements | workers/orbit/src/vector.rs:101-161 | whatever the order of accounts, each touched account whose write succeeds holds the fold of its engagements, all others are unchanged |
| OrbitFold.StoredTrajectory | workers/orbit/src/vector.rs:130-153 | from the stored vector or zeros, one average per embedded engagement in order, of the vector so far, its embedding and its kind; the last is stored, with the count raised by as many; other accounts are unchanged |
| OrbitVectors.GroupedEqualsInOrder | workers/orbit/src/vector.rs:109-153 | if the writes succeed, grouping by account equals one pass over the engagements in order |
| OrbitVectors.CountGrowsByEngagements | workers/orbit/src/vector.rs:143-144 | an account's count grows by the number of its embedded engagements |
| OrbitWorker.MaxProcessed | workers/orbit/src/main.rs:286-294 | the largest embedded id of a kind; none only if none is embedded |
| OrbitWorker.Worker.PollCycle | workers/orbit/src/main.rs:148-305 | a cycle is a step of the worker relation: which cursors, vectors and applied rows result, and which failures leave all unchanged |
| OrbitProgress.CycleOrder | workers/orbit/src/main.rs:191-219 | a cycle goes through exactly what it polled, by creation time, ties in polling order |
| OrbitProgress.FailuresChangeNothing | workers/orbit/src/main.rs:169-176 | if cursors or vectors cannot be loaded, or nothing gets an embedding, nothing changes |
| OrbitProgress.PolledIsNext | workers/orbit/src/poll.rs:73-77 | polling takes the rows right behind the cursor, as many as the batch size allows |
| OrbitProgress.FlawlessCycleAppliesBatch | workers/orbit/src/main.rs:148-305 | a cycle in which nothing fails applies the next rows of every source up to the batch size, and leaves the cursor on the last |
| OrbitProgress.EverythingIsDelivered | workers/orbit/src/main.rs:148-305 | after n such cycles, the n batches that lay behind the cursor have been applied, or all there are |
| OrbitDelivery.PolledHasNoGap | workers/orbit/src/poll.rs:73-77 | whatever lies between the cursor and a polled row is polled too |
| OrbitDelivery.CycleAppliesOnce | workers/orbit/src/main.rs:280-301 | a cycle applies nothing a second time, leaves nothing applied ahead of a cursor, and moves no cursor back |
| OrbitDelivery.AtMostOnce | workers/orbit/src/main.rs:280-301 | over any run, whatever chunks fail, no row of a source is applied twice and cursors never decrease |
| OrbitReplay.VectorsReplayTheLog | workers/orbit/src/vector.rs:130-153 | over any run, an account's state is the in-order fold of the rows applied to it by the cycles whose write succeeded, each with the embedding of its own cycle |
| OrbitFold.RunTrajectory | workers/orbit/src/vector.rs:130-153 | over any run, an account's vector is the last of a sequence of averages, one per row folded into it, with the embedding of that cycle |
| OrbitReplay.CountsMatchTheLog | workers/orbit/src/vector.rs:143-147 | if its writes succeed, an account's count grows by the number of its rows in the log, each counted once |
| OrbitExact.RetriedIffNothingAbove | workers/orbit/src/main.rs:277-279 | a failed row stays ahead of the cursor if and only if no row of its kind embedded in the same cycle has a larger id |
| OrbitExact.FailedRowIsSkipped | workers/orbit/src/main.rs:277-279 | a cycle after which a failed row lies behind the cursor without having been applied |
| OrbitExact.ExactlyOnceIffNoHoles | workers/orbit/src/main.rs:280-301 | over every run, whatever rows appear, change or vanish, the applied rows of a kind are exactly those that some cycle listed and moved the cursor past if and only if no cycle had a failed row below an embedded one |
| OrbitExact.SettledExactlyOnceIffNoHoles | workers/orbit/src/main.rs:280-301 | if the rows behind the cursors stay as they are, these are the rows between first and last cursor |
| OrbitExact.CompleteRepliesLeaveNoHole | workers/orbit/src/embed.rs:102-121 | if every chunk succeeds and no text is empty, no cycle has such a row |
| Sorting.SortIsStable | crates/feed/src/filter.rs:54 | sorting keeps tied elements in order |
| Dedups.Apply | crates/feed/src/filter.rs:53-57 | sort and retain equal keeping the first candidate per key of the stably sorted input |
| Dedups.DedupKeepsWinners | crates/feed/src/filter.rs:53-57 | one candidate per key of the input, namely the least in priority and among ties the first to arrive, in priority order |
| Dedups.DedupIsIdempotent | crates/feed/src/filter.rs:53-57 | deduplicating again changes nothing |
| Pipelines.Execute | crates/feed/src/pipeline.rs:54-92 | stages run in order on the collected candidates, with the fallback rule, and the sampler has the last word |
| PipelineStages.CollectedInOrder | crates/feed/src/pipeline.rs:94-123 | what the sources returned is collected source by source, in order, and only the prescribed group is changed |
| PipelineStages.PoolByCase | crates/feed/src/pipeline.rs:65-73 | the fallback is added exactly if there is one and the main sources brought less than half the limit |
| PipelineStages.ItemsStageByStage | crates/feed/src/pipeline.rs:75-87 | every filter in turn from the pool on, then every scorer in turn, then the sampler on what the last one left |
| Pipelines.ItemsAreDistinct | crates/feed/src/pipeline.rs:54-92 | for arbitrary sources, with a deduplication anywhere among drop-only filters the result has distinct keys |
| Pipelines.ItemsAreSurvivors | crates/feed/src/pipeline.rs:54-92 | the result holds collected candidates that passed every filter, up to their scores, and min(limit, survivors) of them |
| Pipelines.FallbackOnlyWhenShort | crates/feed/src/pipeline.rs:65-73 | an item from a fallback source only appears if the main sources brought less than half the limit |
| Text.DecodeEscaped | crates/mastodon/src/formatter.rs:197-208 | decoding the entities of escaped text gives the text back |
| Text.EscapedIsInert | crates/mastodon/src/formatter.rs:197-222 | escaped text holds no angle bracket, an escaped attribute no quote either |
| Formatter.PanicsIffStraddled | crates/mastodon/src/formatter.rs:107-118 | cutting a link panics exactly if a character straddles the thirtieth byte behind its prefix |
| Formatter.AsciiIsCuttable | crates/mastodon/src/formatter.rs:107-118 | it never panics on a url of one-byte characters |
| Formatter.SomeUrlPanics | crates/mastodon/src/formatter.rs:107-118 | it does panic on some urls |
| Formatter.LinkPartsAreWhole | crates/mastodon/src/formatter.rs:99-131 | the hidden and shown parts of a link decode to its url, and the shown one has 30 bytes if any of it is hidden behind, and never more |
| Formatter.HiddenPrefix | crates/mastodon/src/formatter.rs:99-110 | what is hidden in front of a link is its scheme and a `www.` |
| LinkDisplay.LinkDisplays | crates/mastodon/src/formatter.rs:107-131 | with the invisible spans left out, a link shows the part behind that prefix, cut to thirty bytes |
| Text.NoBoundaryIffStraddled | crates/mastodon/src/formatter.rs:107-118 | a byte offset is no character boundary exactly if a character straddles it |
| Formatter.WordMatchesAreWords | crates/mastodon/src/formatter.rs:153-180 | every match is an occurrence of the needle that stands alone |
| Formatter.WordsAreMatched | crates/mastodon/src/formatter.rs:153-180 | every occurrence that stands alone is matched, unless it begins inside an earlier occurrence |
| Formatter.PushWordMatches | crates/mastodon/src/formatter.rs:153-180 | the search loop appends exactly those matches |
| Formatter.AcceptedSpans | crates/mastodon/src/formatter.rs:47-53 | accepted spans are in bounds, disjoint and ordered, and every rejected span begins inside an accepted one |
| Anchors.AcceptedIsLongest | crates/mastodon/src/formatter.rs:47-53 | of the spans that start at one place, the longest is accepted, and of equal ones the first: urls before mentions, mentions before hashtags |
| Formatter.Splice | crates/mastodon/src/formatter.rs:55-62 | the splicing loop alternates escaped gaps and anchors up to the end of the text |
| Formatter.ErasedIsUncovered | crates/mastodon/src/formatter.rs:55-62 | erasing the anchors and decoding gives exactly the uncovered text |
| Formatter.SplitIsExact | crates/mastodon/src/formatter.rs:64-65 | splitting at empty lines is undone by joining, and no part holds an empty line |
| Formatter.ParagraphsLoseOnlyNewlines | crates/mastodon/src/formatter.rs:64-68 | the paragraphs hold everything but newlines, in order, and none is empty |
| Formatter.FormatLocal | crates/mastodon/src/formatter.rs:19-74 | it panics exactly if a matched url cannot be cut; otherwise it equals wrapping the text spliced with the accepted ones of all url, mention and tag spans |
| Rendering.LinkShows | crates/mastodon/src/formatter.rs:99-131 | a link reads as its url, however it is shortened |
| Rendering.ParagraphsRead | crates/mastodon/src/formatter.rs:64-73 | wrapping in paragraphs and line breaks changes nothing a reader sees but the newlines |
| Layout.LayoutIsKept | crates/mastodon/src/formatter.rs:64-73 | every non-empty part between empty lines becomes a paragraph, every newline in it a line break; without any, one empty paragraph |
| Layout.LinesAreKept | crates/mastodon/src/formatter.rs:64-73 | text of one paragraph is laid out in its own lines |
| Rendering.AnchorsAreExplained | crates/mastodon/src/formatter.rs:26-45 | every anchor reads as the text it covers, or as the full handle of a mention whose name it covers |
| Anchors.AnchorsLeadRight | crates/mastodon/src/formatter.rs:120-151 | read from the HTML, every anchor leads to the url it covers, the profile of the mention it covers, or the page of the hashtag it covers |
| Anchors.EverythingIsLinked | crates/mastodon/src/formatter.rs:26-53 | every url, and every mention and hashtag that is written out on its own, is covered by an anchor |
| Anchors.MatchedIsWritten | crates/mastodon/src/formatter.rs:163-176 | what is matched is the sigil and the name, with no letter, digit, underscore or sigil touching it |
| Anchors.FullHandleMatched | crates/mastodon/src/formatter.rs:30-39 | a remote account is also matched under its full handle |
| Rendering.FormattedPostReads | crates/mastodon/src/formatter.rs:19-74 | a formatted post reads as its text with the accepted spans replaced by what they stand for, less newlines; without mentions, as its text less newlines |
| CircuitBreaker.CircuitState.RecordFailure | crates/state/src/cache.rs:29-37 | from the fifth consecutive failure on, each one holds the breaker open for 30 seconds |
| CircuitBreaker.GatedGet | crates/state/src/cache.rs:91-131 | an open breaker sends no request and records nothing; otherwise the answer decides the breaker, and only a hit that decodes brings a value |
| CircuitBreaker.CounterIsStreak | crates/state/src/cache.rs:25-37 | the counter is the number of failures since the last success |
| CircuitBreaker.OpenIffRecentTrip | crates/state/src/cache.rs:20-37 | with a monotone clock the breaker is open exactly if some failure within the last 30 seconds was at least the fifth since the success before it |
| CircuitBreaker.OpenIffFiveFailures | crates/state/src/cache.rs:11-37 | from a fresh breaker: open exactly if five requests in a row failed, the last of them less than 30 seconds ago |
| CircuitBreaker.AttemptsAreSpaced | crates/state/src/cache.rs:99-128 | whatever state an outage finds the breaker in, sequential attempts from the tripping one on, the fifth at the latest, are at least 30 seconds apart |
| CircuitBreaker.FirstAttempts | crates/state/src/cache.rs:99-128 | an outage that finds the breaker closed begins with as many attempts as it takes to trip it |
| CircuitBreaker.AttemptsAreBounded | crates/state/src/cache.rs:99-128 | whatever state an outage finds the breaker in, sequential callers make at most m + T/30 attempts up to T seconds after the m-th, if that one trips the breaker |
| CircuitBreaker.AttemptsAfterSuccess | crates/state/src/cache.rs:99-128 | after a success with the breaker closed, at most 5 + T/30 attempts up to T seconds after the fifth call failed |
| Cursors.PagesAgreeIffNoOverflow | apps/server/src/feeds/engine.rs:8-25 | the two offset paginations agree if and only if start plus limit fits the machine word |
| Cursors.OverflowingPages | crates/feed/src/cursor.rs:30-46 | an input on which they differ |
| Cursors.NextCursorAdvances | crates/feed/src/cursor.rs:23-46 | in both paginations, the printed cursor parses to the position just after the page |
| Cursors.WalkIsComplete | apps/server/src/feeds/engine.rs:8-25 | in both paginations, following the cursors terminates, and the pages concatenate to the whole list |
| Cursors.WalkFromStart | apps/server/src/feeds/engine.rs:8-25 | without a cursor, or with one that is no number, a walk enumerates the whole list |
| Cursors.PageContents | apps/server/src/feeds/engine.rs:8-25 | a page holds the items from the parsed cursor on, and says whether and where it goes on |
| Cursors.Paginate | apps/server/src/mastodon/statuses.rs:163-194 | the three retain steps and the truncation, and the ids in the next and prev links |
| Cursors.PageSatisfiesBounds | apps/server/src/mastodon/statuses.rs:172-183 | a page holds the first statuses, in order, that satisfy all three bounds; a bound that is no number is none |
| Cursors.MinIdPage | apps/server/src/mastodon/statuses.rs:175-183 | `min_id` brings the first of what comes before that status, newest first |
| Cursors.KeysetWalkIsComplete | apps/server/src/mastodon/statuses.rs:172-191 | over descending numeric ids, following the next links enumerates the list exactly once |
| Cursors.CursorDecreases | apps/server/src/mastodon/statuses.rs:172-191 | each next link asks for smaller ids than the one before it |
| Statuses.FromPosts | apps/server/src/mastodon/statuses.rs:107-158 | one status per post, in order, under the id that its provenance and the batch upsert of the foreign posts give it; which rows that upsert leaves |
| Statuses.ForeignIdsResolve | apps/server/src/mastodon/statuses.rs:94-106 | if the upsert succeeds, the id a foreign post is shown under is that of its own row, which looking the id up finds |
| StatusIdentity.ShownIdByCase | apps/server/src/mastodon/statuses.rs:142-157 | a post of this instance is shown under its own id, a mapped one under its snowflake, any other under its url, always with its own content |
| StatusIdentity.FailedUpsertShowsUrls | apps/server/src/mastodon/statuses.rs:135-140 | if the upsert fails, foreign posts are shown under their urls and nothing is stored |
| StatusIdentity.NewRowsKeepUris | apps/server/src/mastodon/statuses.rs:111-133 | new rows keep the post's uri, or its url, and known rows only get new data |
| StatusIdentity.LocalIdByCase | apps/server/src/mastodon/statuses.rs:50-74 | a remote item is served locally exactly if its row has a local id, and then under it |
| Statuses.Split | apps/server/src/mastodon/statuses.rs:45-74 | the split loop collects exactly the local ids and the remote posts, with references in input order |
| Statuses.Reassemble | apps/server/src/mastodon/statuses.rs:82-91 | taking statuses out by reference equals showing each item on its own, in input order |
| Statuses.ToStatuses | apps/server/src/mastodon/statuses.rs:19-92 | split, batched fetch and reassembly equal showing each item on its own from what was fetched; it fails exactly if a lookup does |
| Statuses.BatchEqualsSingleLookups | apps/server/src/mastodon/statuses.rs:76-91 | if the database returns the requested rows it has, in any order, what is shown is what single lookups in the database would show |
| Statuses.DropsOnlyMissing | apps/server/src/mastodon/statuses.rs:82-91 | an item is dropped if and only if the database did not return its id |
| Statuses.CompleteAnswerKeepsPlaces | apps/server/src/mastodon/statuses.rs:45-91 | if the database returns every requested id, every item keeps its place and has its own status there |
| StatusIdentity.EachItemInItsPlace | apps/server/src/mastodon/statuses.rs:19-92 | then each item is shown in its place, under the id its own fields and its row give it, and with its own content |
| Statuses.RequestsWhatItServes | apps/server/src/mastodon/statuses.rs:50-74 | the requested ids are exactly the local ids of the items |

## Left out

- IEEE floating point: weights, scores and vectors are reals without rounding, infinities or NaN.
- The vector arithmetic of the orbit worker (moving average, truncation, normalisation) is two function parameters; so is the text template, whose output is a row's `text`.
- SQL, Redis, HTTP, routing, metrics and configuration: tables are maps, and answers, failures and clocks are parameters or events.
- OrbitDelivery.AtMostOnce: assumes that cursor writes succeed, because a failed write lets the next cycle apply the same rows again; `save_cursor` only logs such a failure.
- OrbitDelivery.AtMostOnce: a row counts as applied once it is folded into its account's vector, even if that vector's write then fails, since the source only logs it.
- ResolverSafety.AtMostOneMoreSearch: one process and one resolver, as several instances each have their own flight map; nothing but the resolver writes a local id.
- Cursors.WalkIsComplete: for `Offset`, which tests alone use, the list length plus the limit fits the machine word; overflow is modelled as in a release build. The server's own calls have limits of at most 40.
- ResolverSafety.NoLeak: excludes cancelled calls, which may leave an entry behind until another call removes it.
- HomeHistory.SeenIsWindow: cache failures other than missing or expired keys, and overlapping requests of one user, are not modelled.
- Translate.ApplyMap: JSON trees are values, so rewriting in place and aliasing are not captured; numbers, arrays and other leaves are opaque.
- Samplers.Sample, Dedups.Apply and Pipelines.Execute work on sequences, not on vectors in place; samplers are a datatype, filters and scorers are function values.
- Mapping.StatusTable.MapPosts: the failure on repeated posts is that of the database's upsert statement; cache times and post urls are not columns of the model.
- ResolverHonesty.KnownSnowflakesStayKnown: the row is not deleted in the run, neither before the call nor during it; the id of a deleted row is not used again, as ids are generated from the time.
- Formatter.FormatLocal: url matches are given as positions, and `is_alphanumeric` is a parameter.
- Rendering.FormattedPostReads: assumes that no url panics, that urls, profile urls and tag names hold no newline, and that the instance domain is a plain name; the url pattern rules newlines out, the rest are stored names.
- Sanitising remote HTML (`format_remote`) and the templates of the embedding texts.
- Anchors.AnchorsLeadRight: assumes that the instance domain holds no entity and no quote; of the other attributes of anchors only the `invisible` class is read.
- Network scores, the language filter, and the field-copying conversions between posts, rows and statuses. The diversity scorer is a function.
- CircuitBreaker.OpenIffRecentTrip: fewer than 2^32 events, beyond which the failure counter wraps.
- CircuitBreaker.GatedGet: `set` is gated and recorded in the same way and is not modelled again; concurrent requests that pass the gate together are not covered by the attempt bound.
- Cursors.KeysetWalkIsComplete: lists that are not sorted by descending numeric id, for which the code does not enumerate the list.
