# Memento: proofs about its protocols and algorithms

Memento is a memory server: it stores short text fragments per API key, ranks them for search, compresses old ones,
and serves all of this over authorized sessions. This project models the parts of it that are algorithms, state
machines or protocols, and proves what they promise over every input, every run or every interleaving. The database,
Redis and the clock are state or parameters of the model; embeddings, rerankers, tokenizers and hashes are functions
or replies given from outside.

Code that changes things step by step is modelled imperatively, in the shape of the original: classes with fields for
the stores (`Server`, `SessionStore`, `SlidingWindow`, `RotateLimiter`, `WorkingMemory.Store`, `Compression.Table`,
`FragmentTable`, `Worker`, `Batch`), methods with loops for the algorithms. Each method is proved equal to a function
of the old state or to a property that determines its result, and lemmas about those functions state the promises.

- `Collections`, `Ranking`: sums, filters, concatenation; stable descending sort and order of first appearance.
- `Chunking`: the greedy chunker used by the batch insert and the embedding worker.
- `BatchRemember`: one batch call, with its per-item results, both quota checks and the chunked upsert.
- `QuotaProtocol`: any number of concurrent batch calls and soft deletes on one key, with the row lock.
- `SearchFusion`, `SearchTail`, `SearchText`: rank fusion, duplicate removal, diversification, token budget, superseded
  filter; and a search with a text from end to end.
- `OAuth`, `OAuthRuns`, `OAuthLifetimes`: the code and token store, what holds over every run of it, and when
  credentials work.
- `Sessions`, `SessionRuns`, `SessionLifetimes`: sessions in memory and Redis, their refinement of a single map, and how
  long sessions live under any settings.
- `Compression`, `CompressionGrouping`, `CompressionSeeds`: grouping of old fragments and merging of the groups; what
  gets grouped and when a run compresses anything; and why the fragment a group was gathered around is the one that is
  kept.
- `EmbeddingWorker`, `EmbeddingBlame`: batch embedding in slices, with retries and dead letters; and which rows end up
  as dead letters.
- `WorkingMemory`, `Decay`, `RateLimiter`, `RotateLimit`, `LogTail`, `Csv`, `Backfill`: small stateful or algorithmic
  cores.

`dafny verify dfyconfig.toml` checks the project.

## Where the code departs from its comments, or from what one would expect

The model follows the code.

- `lib/memory/FragmentSearch.js:318` says that the content filter removes fragments only L1 has. It removes every id
  that L1 lists, also those other layers deliver with content (`SearchFusion.ContentFilterDropsWhatL1Lists`).
- `lib/handlers/_rotate-ratelimit.js:5` calls its window sliding. It is fixed: a minute can hold up to `2 * limit - 1`
  requests, and this is reached; only for a limit of one does it behave like a sliding window
  (`RotateLimit.SlidesIff`).
- `lib/memory/FragmentGC.js:89` says that repeated decay only counts the time since the last one. For a row without
  any time stamp the first run counts nothing, so several runs differ from the last one alone
  (`Decay.RunsEqualOneIff`, and for the table `Decay.TableRunsEqualOneIff`).
- `lib/sessions.js:240` closes only sessions in memory. A session that only Redis has survives its close
  (`SessionRuns.CloseIsCompleteIff`, `SessionRuns.CloseAfterRestartIsLost`).
- `lib/sessions.js:168` restores a session without looking at its stored expiry. Restarts therefore go
  unnoticed, in every later answer of every continuation whose closes reach their sessions, if and only if Redis is on,
  the session lifetime and the Redis lifetime are the same whole number of seconds, and they are at least a minute
  (`SessionRuns.RestartsGoUnnoticedIff`). The defaults of `lib/config.js:45` and `lib/config.js:88` are of this kind; a
  `CACHE_SESSION_TTL` set to another value is not. A close that does not reach its session after a restart shows under
  any setting with Redis on (`SessionRuns.UnreachedCloseShows`).
- `lib/memory/EmbeddingWorker.js:231` takes the position in an error for a position in its batch of up to 200 rows. The
  service is sent slices of 100 (`lib/tools/embedding.js:152`) and names a position in the slice, so a row rejected
  beyond the first slice costs good rows: only rejected rows become dead letters if and only if fewer than 100 good
  rows stand before the last rejected one, and each good row beyond the first 99 is dead-lettered too
  (`EmbeddingBlame.OnlyBadRowsDieIff`; with 100 good rows and a bad one, `EmbeddingBlame.AGoodRowDies`).
- `lib/memory/EmbeddingWorker.js:232` retries without checking the index. With a service that repeats its answers the
  retries end if and only if no batch on the way gets an index outside it (`EmbeddingWorker.StopsIff`); one that names
  a position inside the slice it was sent never causes that (`EmbeddingWorker.HonestSettles`). Whatever the service
  answers, at most one reply for each row names an index inside the batch (`EmbeddingWorker.OneInsideReplyPerRow`), so
  retries that never end keep getting indices outside it (`EmbeddingWorker.EndsOnceInside`).
- `lib/memory/EmbeddingWorker.js:289` announces every row of a batch, also those that got no vector when the service
  returned too few (`EmbeddingWorker.ChunkPartition`).
- `lib/memory/BatchRememberProcessor.js:285` reports an item as stored when its hash is known. If that row was
  soft-deleted it stays deleted (`BatchRemember.Process`, `BatchRemember.LiveIffNewOrLive`).
- `lib/memory/ConsolidatorGC.js:543` marks neighbours as assigned before it is known whether their group is large enough;
  the members of a group that is too small can neither join nor seed a later one (`CompressionGrouping.EachTurn`).
- `lib/oauth.js:415` gives the first refresh token 24 access-token lifetimes, later ones get the configured lifetime
  (`lib/oauth.js:323`); `OAuthLifetimes.AnswerIsHonoured` and the step functions keep this difference.

## Model

| member | source | states |
|---|---|---|
| `Chunking.Split` | lib/memory/BatchRememberProcessor.js:189-207 | the chunks are the rows in order, nothing lost or repeated; each is non-empty, within the row cap, and within the byte cap unless it is one row; no order-preserving partition under the same caps has fewer chunks |
| `Chunking.EagerIsMinimal` | lib/memory/EmbeddingWorker.js:189-207 | any partition in which no chunk could have taken the next row is minimal among all partitions under the caps |
| `Chunking.GreedyStaysAhead` | lib/memory/BatchRememberProcessor.js:189-207 | greedy chunks of a suffix never need more chunks than any partition of the whole |
| `Chunking.EagerIsUnique` | lib/memory/BatchRememberProcessor.js:189-207 | there is only one eager partition, so what holds of its chunks depends on the rows alone |
| `BatchRemember.Batch.constructor` | lib/memory/BatchRememberProcessor.js:96-128 | one result per input, in order, a success exactly for the items that pass the checks, which form the batch |
| `BatchRemember.Batch.CheckQuota` | lib/memory/BatchRememberProcessor.js:350-384 | cuts the batch to what the quota leaves, marks exactly the rest as exceeding it, and reports whether nothing is left |
| `BatchRemember.Batch.CutFrom` | lib/memory/BatchRememberProcessor.js:376-383 | the splice: a suffix of the batch becomes quota errors without ids, all other results stay |
| `BatchRemember.Batch.InsertChunk` | lib/memory/BatchRememberProcessor.js:214-287 | one chunk: the upsert continues that of the batch, and exactly its items' results get the ids of their hashes |
| `BatchRemember.Batch.InsertChunks` | lib/memory/BatchRememberProcessor.js:189-287 | inserting chunk by chunk is one upsert of the whole batch; each stored item's result carries the id its hash has in the table; it fails if and only if a chunk repeats a hash, and then leaves the table alone |
| `BatchRemember.Process` | lib/memory/BatchRememberProcessor.js:74-331 | on every return path inserted + skipped is the number of inputs, inserted is the number of successes, and the first admitted items are upserted and reported with the ids of their rows: that of the row that had the hash, or of the first admitted fragment with it; a row is live if and only if the hash was new or live before; it fails exactly for a wrong size, a missing pool with valid items, or a chunk with a repeated hash, and then stores nothing |
| `BatchRemember.ResultsSay` | lib/memory/BatchRememberProcessor.js:96-128 | result by result: a success exactly for an item with content, type and a valid fragment that comes among the first admitted ones; otherwise no id and the error of the first check that fails, or the quota error |
| `BatchRemember.AdmitsAllItCan` | lib/memory/BatchRememberProcessor.js:359-384 | a number of valid items is admitted if and only if neither quota of the key exceeds its limit by it; without a limit all are |
| `BatchRemember.NewRowIsFirst` | lib/memory/BatchRememberProcessor.js:266-285 | the row of a hash new to the table carries the id of the first fragment with it |
| `BatchRemember.QuotaTakesASuffix` | lib/memory/BatchRememberProcessor.js:359-384 | among the valid items those the quota rejects come last; results are indexed by input and have an id exactly if they succeeded |
| `BatchRemember.SuccessesAre` | lib/memory/BatchRememberProcessor.js:282-324 | up to any input, the number of successes is the number of valid items so far, capped by the batch size |
| `BatchRemember.UpsertAllAddsAtMost` | lib/memory/BatchRememberProcessor.js:266-277 | an upsert of n fragments adds at most n live rows, changes no existing row's id or liveness, and leaves a row for every hash |
| `BatchRemember.LiveIffNewOrLive` | lib/memory/BatchRememberProcessor.js:266-277 | after an upsert a row is live if and only if its hash is new to the table or was live before |
| `BatchRemember.InsertStaysWithinLimit` | lib/memory/BatchRememberProcessor.js:411-439 | what the second check admits leaves the key within its limit |
| `QuotaProtocol.StepKeeps` | lib/memory/BatchRememberProcessor.js:153-176 | every step of every client keeps: the lock is held exactly by the client inside a locking transaction, and live rows plus staged plus pending rows of the inserting client fit the limit |
| `QuotaProtocol.QuotaIsNeverExceeded` | lib/memory/BatchRememberProcessor.js:162-301 | under every interleaving of batches and soft deletes the live count never rises above the limit once it is within it |
| `QuotaProtocol.InsertsExcludeEachOther` | lib/memory/BatchRememberProcessor.js:404-409 | no two clients are in the insert phase at the same time |
| `QuotaProtocol.TheHolderCanGoOn` | lib/memory/BatchRememberProcessor.js:301-331 | the lock is never leaked: whoever holds it can proceed without waiting |
| `QuotaProtocol.TheLimitHolds` | lib/memory/BatchRememberProcessor.js:162-301 | from a state with no lock, all clients idle and the table within its limit, no interleaving takes the table above the limit |
| `QuotaProtocol.AloneFillsTheQuota` | lib/memory/BatchRememberProcessor.js:411-439 | the insert transaction of a batch of new fragments that comes alone brings the key exactly to its limit or stores the whole batch; a key at or above its limit stays as it is |
| `QuotaProtocol.CommitStoresAll` | lib/memory/BatchRememberProcessor.js:209-301 | after a commit every hash of the batch has a row |
| `QuotaProtocol.ChecksFit` | lib/memory/BatchRememberProcessor.js:359-384 | either check leaves the longest part of the batch that fits what is live at that time, and gives up if there is none |
| `QuotaProtocol.DeletingMakesRoom` | lib/memory/BatchRememberProcessor.js:353-357 | a soft delete of a live fragment lowers the count of live ones by exactly one and touches no other row |
| `QuotaProtocol.FirstCheckAloneIsNotEnough` | lib/memory/BatchRememberProcessor.js:340-395 | a run in which two clients both pass the first check with batches that fit the limit each, but not together if and only if their hashes differ |
| `SearchFusion.MergeRRF` | lib/memory/FragmentSearch.js:762-781 | the result has exactly the ids of the layers, each with its first payload and the sum of weight/(k+rank+1) over all its occurrences, by descending score, ties by first appearance |
| `SearchFusion.FusedOnce` | lib/memory/FragmentSearch.js:772-776 | each id occurs once |
| `SearchFusion.AheadEverywhereComesFirst` | lib/memory/FragmentSearch.js:765-780 | with duplicate-free layers of non-negative weight, an item ranked ahead of another in every layer that holds the other comes first |
| `SearchFusion.FusedScoreIs` | lib/memory/FragmentSearch.js:765-777 | with duplicate-free layers the score is the sum, over the layers that hold the id, of the weight divided by one more than the constant and the rank |
| `SearchFusion.FirstPayloadIsKept` | lib/memory/FragmentSearch.js:772-776 | a fused fragment is the first occurrence of its id with nothing but the score changed |
| `SearchFusion.ContentFilterDropsWhatL1Lists` | lib/memory/FragmentSearch.js:319-329 | a merged fragment passes the content filter if and only if L1 does not list its id |
| `SearchTail.Deduplicate` | lib/memory/FragmentSearch.js:643-665 | every id once, with the copy that no other copy beats and that beats all earlier ones; by descending rank score, ties by first appearance |
| `SearchTail.KeptIsHighestIff` | lib/memory/FragmentSearch.js:649-654 | over all similarities, also ones the layers do not deliver: the kept copy has the highest one if and only if no zero similarity competes with negative or earlier missing ones only |
| `SearchTail.PositiveKeepsTheHighest` | lib/memory/FragmentSearch.js:649-654 | with positive similarities, as a positive threshold delivers them, the kept copy has the highest one |
| `SearchTail.ApplyMMR` | lib/memory/FragmentSearch.js:671-706 | a permutation: the first fragment with a similarity first, then always one whose gain in relevance over each of the rest outweighs what it overlaps more with those selected before it, ties in their order, those without a similarity last |
| `SearchTail.BestIndex` | lib/memory/FragmentSearch.js:681-697 | the first fragment that outweighs all others: 0.7 times the gain in relevance against 0.3 times the extra overlap |
| `SearchTail.GoesFirstIff` | lib/memory/FragmentSearch.js:677-703 | of two fragments behind the first selection one goes before the other if and only if, when the first of them is selected, its gain in relevance outweighs its extra overlap with the selected ones, or both outweigh each other and it stood first |
| `SearchTail.LeastRedundantFirst` | lib/memory/FragmentSearch.js:683-691 | of two equally relevant fragments the one with the smaller largest overlap is selected first, of two equally redundant ones the more relevant one |
| `SearchTail.MaxOverlapIs` | lib/memory/FragmentSearch.js:687-690 | the redundancy is the overlap with one of the selected fragments that no other exceeds |
| `SearchTail.OverlapBounds` | lib/memory/FragmentSearch.js:708-713 | between 0 and 1; 0 exactly without a common keyword; 1 exactly if all keywords of the second, which are not fewer, are among those of the first |
| `SearchTail.OverlapIsShare` | lib/memory/FragmentSearch.js:708-713 | without repeated keywords the number of common ones over the larger number of keywords, whichever fragment comes first |
| `SearchTail.RelevanceIs` | lib/memory/FragmentSearch.js:686 | the score of the reranker unless it is missing or zero, else the fusion score, else zero |
| `SearchTail.TrimToTokenBudget` | lib/memory/FragmentSearch.js:718-730 | the longest prefix whose tokens fit the budget |
| `SearchTail.EstimatesAddUp` | lib/memory/FragmentSearch.js:735-737 | a token sum adds the stated estimates, and the counted contents where none is stated |
| `SearchTail.UniqueByScore` | lib/memory/FragmentSearch.js:658-663 | the deduplicated results descend by the score of the reranker, and by the rank score where there is none |
| `SearchTail.Finish` | lib/memory/FragmentSearch.js:97-114 | the answer has distinct ids, each the kept copy of its id and, with positive similarities, the one with the highest; nothing superseded unless asked; and a token sum within the reported total, which is within the budget |
| `SearchText.Search` | lib/memory/FragmentSearch.js:89-114 | fusion, content filter, reranking, filters and tail together: each returned id once, with its first payload in the layers; the tail's duplicate removal loses nothing; the reported total is within the budget and the cut maximal |
| `SearchText.NothingToRemove` | lib/memory/FragmentSearch.js:643-665 | on distinct ids duplicate removal is a permutation |
| `SearchText.CombinedFromLayers` | lib/memory/FragmentSearch.js:328-340 | what reaches the tail has distinct ids, content, and the first payload and whole score of each id |
| `SearchText.CombinedIff` | lib/memory/FragmentSearch.js:328-340 | exactly what has content, makes the cut of the reranker and passes the filters reaches the tail |
| `SearchText.RerankKeepsTheBest` | lib/memory/FragmentSearch.js:332-338 | a reranker that answers leaves the best fifteen of the first thirty fragments, best first |
| `SearchText.NothingFromL1` | lib/memory/FragmentSearch.js:319-329 | a search with a text returns no id that L1 lists |
| `OAuth.Server.HandleAuthorize` | lib/oauth.js:117-236 | a code is stored if and only if the request is well formed and its target is registered for the client, if a registered client decides, and otherwise allowed; the binding is an API key exactly if the id is one or the registered name refers to one, and names the key only in the second case; and which error a refused request gets |
| `OAuth.DecideIff` | lib/oauth.js:130-193 | the nested checks as one condition on the request and the lookups, with binding and error |
| `OAuth.RefusalsSay` | lib/oauth.js:272-386 | the error of a token request names a wrong grant type, a missing part, or else an invalid grant |
| `OAuth.RefusalsExplain` | lib/oauth.js:284-386 | which description a code or refresh token on record is refused with: expired first, then the target, then the verifier; an access token is no refresh token |
| `OAuth.Server.HandleToken` | lib/oauth.js:241-436 | the two maps and the answer are those of the token step |
| `OAuth.Server.HandleRefresh` | lib/oauth.js:272-344 | the same for refresh: the old token is replaced by a new pair |
| `OAuth.Server.ValidateAccessToken` | lib/oauth.js:441-467 | the same for validation: exactly the unexpired access tokens are valid, and exactly an expired one is removed |
| `OAuth.Server.Cleanup` | lib/oauth.js:513-535 | exactly the expired codes and tokens are removed |
| `OAuth.CleanupRemovesExpired` | lib/oauth.js:513-535 | what is left of the codes and tokens is everything that has not expired, unchanged |
| `OAuthRuns.CredentialsWorkOnce` | lib/oauth.js:359-367 | over a whole run no code and no refresh token is answered with tokens twice |
| `OAuthRuns.CodeSuccessIsEntitled` | lib/oauth.js:369-386 | tokens for a code are only given if the run has an authorization that was well formed and had an allowed target, with this code, the same redirect target and the challenge of the verifier, no longer ago than a code lives |
| `OAuthRuns.CodeWasGranted` | lib/oauth.js:198-219 | every code on record was stored by an authorization of the run that fulfilled all conditions, and has its client, target, challenge, scope, resource, binding and the lifetime of a code |
| `OAuthLifetimes.CodeWorksIff` | lib/oauth.js:346-436 | an issued code is answered with tokens if and only if it was not presented with a verifier before, rightly or wrongly, has not expired, and target and verifier match, whatever else happened |
| `OAuthLifetimes.GrantedCodeWorksIff` | lib/oauth.js:117-436 | from authorization to exchange: the code of an authorization that fulfilled all conditions is answered with tokens if and only if it was not presented before, at most ten minutes have passed, and target and verifier are those of the authorization |
| `OAuthLifetimes.AnswerTakesOver` | lib/oauth.js:298-324 | both tokens of an answer have the client, scope and API-key flag of their credential; a key from the secret wins over the recorded one, a requested resource over the earlier one; without a secret the flag stays also without a key |
| `OAuthLifetimes.RefreshTokenWorksIff` | lib/oauth.js:272-344 | an issued refresh token works if and only if it was not presented before and has not expired |
| `OAuthLifetimes.AccessTokenValidatesUntilExpiry` | lib/oauth.js:441-467 | an access token validates if and only if it has not expired, whatever else happened |
| `OAuthLifetimes.AnswerIsHonoured` | lib/oauth.js:301-343 | whatever follows an answer, its access token validates with the stated scope for exactly the configured time, which is the stated one to the second, and its refresh token works once within its own lifetime |
| `OAuthRuns.GrantsAreTidy` | lib/oauth.js:301-332 | each grant has at most one live refresh token; every token has the client, the scope and the API-key flag of its code; a key binding implies the flag |
| `OAuthRuns.BindingIsNeverLost` | lib/oauth.js:298-324 | along a refresh chain a key binding never becomes empty |
| `OAuthRuns.OnlyAccessTokensValidate` | lib/oauth.js:441-467 | what validates was issued as an access token, is not expired, and answers with client, scope and binding of its grant |
| `OAuthRuns.NextKeeps` | lib/oauth.js:198-219 | every step of every request keeps: stored is what was issued, used credentials are gone, lineage and one live refresh token per grant |
| `Sessions.SessionStore.CreateStreamableSessionWithId` | lib/sessions.js:36-145 | both tiers after a creation |
| `Sessions.SessionStore.ValidateStreamableSession` | lib/sessions.js:161-230 | both tiers and the answer after a validation: under any settings, what is in memory validates if and only if it has not expired, what only Redis has if and only if Redis is on and shows it; what does not validate is gone from memory |
| `Sessions.SessionStore.CloseStreamableSession` | lib/sessions.js:240-249 | both tiers after a close, which knows only sessions in memory |
| `Sessions.SessionStore.RotateSession` | lib/sessions.js:353-418 | both tiers and the answer after a rotation |
| `Sessions.SessionStore.CleanupExpiredSessions` | lib/sessions.js:492-524 | exactly the expired sessions in memory are closed, in both tiers |
| `SessionRuns.TwoTiersAreOneMap` | lib/sessions.js:161-230 | over every run of creations, validations, rotations, closes, shutdowns, clean-ups and restarts, each answer is that of one map that never restarts |
| `SessionRuns.StepsAgree` | lib/sessions.js:138-142 | each single operation keeps the two tiers and the one map in step |
| `SessionRuns.RestartsGoUnnoticedIff` | lib/sessions.js:168-226 | after every run and every continuation whose closes reach their sessions, the answer to every event is the same with and without a restart at the end of the run, if and only if Redis is on and both lifetimes are the same, at least a minute |
| `SessionRuns.UnreachedCloseShows` | lib/sessions.js:240-243 | with Redis on, under any lifetimes, a run, a continuation whose close does not reach its session, and a later answer that shows the restart |
| `SessionRuns.RunKeepsTied` | lib/sessions.js:138-142 | under such settings every session in memory has a Redis entry with the same content and the same end, after every run |
| `SessionRuns.RotatedNeverValidates` | lib/sessions.js:398-411 | a rotated id never validates again, whatever follows |
| `SessionRuns.RotationMoves` | lib/sessions.js:380-418 | a rotation puts a new session with the old authorization into both tiers and removes the old id from both |
| `SessionRuns.RotationCarriesAuth` | lib/sessions.js:380-400 | the new id validates with the whole authorization of the old one, from either tier |
| `SessionRuns.CloseIsCompleteIff` | lib/sessions.js:240-249 | under any settings a closed id no longer validates if and only if it was in memory, or Redis is off or had nothing to show |
| `SessionRuns.ClosedNeverValidates` | lib/sessions.js:115-135 | after a complete close the id never validates again, whatever follows; a close is complete if the session was in memory, or Redis is off or showed nothing |
| `SessionRuns.CloseAfterRestartIsLost` | lib/sessions.js:240-243 | the run create, restart, close, validate still answers with the session |
| `SessionLifetimes.MemoryAloneIsOneMap` | lib/sessions.js:161-230 | with Redis off, whatever the lifetimes, each answer of every run is that of the one map, which a shutdown and a restart empty |
| `SessionLifetimes.LivesItsTime` | lib/sessions.js:210-216 | under any settings a session validates, with its authorization, exactly for the session lifetime from the last creation, validation or rotation that touched it, whatever else the process does meanwhile |
| `SessionLifetimes.ValidatesIff` | lib/sessions.js:161-213 | what is in memory validates until it expires, what only Redis has as long as it shows there; what does not validate is gone |
| `SessionLifetimes.RotatesIff` | lib/sessions.js:353-418 | under any settings: when a rotation finds nothing, an expired session, or a session to rotate, what it answers, and both tiers after it |
| `SessionLifetimes.NewSurvivesIff` | lib/sessions.js:138-142 | with Redis on a new session survives a restart exactly for the Redis lifetime |
| `SessionLifetimes.ValidatedSurvivesIff` | lib/sessions.js:218-227 | a validated one exactly for the least whole number of seconds that covers the session lifetime and a minute |
| `Compression.FormGroups` | lib/memory/ConsolidatorGC.js:499-550 | the batched loop forms the groups that taking fragments one at a time forms |
| `Compression.OneByOneKeeps` | lib/memory/ConsolidatorGC.js:525-548 | groups are disjoint, of size minGroup to ten, of the given fragments, and gathered around their first member by a similarity of at least 0.80 |
| `CompressionGrouping.EachTurn` | lib/memory/ConsolidatorGC.js:525-548 | grouping is maximal: a fragment that is free at its turn takes its free neighbours with a similarity of at least 0.80, all of them or the nearest up to ten members; the group counts if and only if it has minGroup members, and its members stay taken either way |
| `CompressionGrouping.CompressesIff` | lib/memory/ConsolidatorGC.js:489-592 | the answer of a run is positive if and only if in some topic some fragment is free at its turn and has enough free similar neighbours, at least one |
| `CompressionGrouping.FirstCompresses` | lib/memory/ConsolidatorGC.js:525-548 | in particular if the first candidate of a topic has minGroup - 1 similar neighbours, at least one |
| `Compression.Table.MergeGroup` | lib/memory/ConsolidatorGC.js:552-584 | the most important member stays live with the access counts of all; the others are soft-deleted and linked from it; nothing else changes and the live total of access counts stays |
| `Compression.Table.Compress` | lib/memory/ConsolidatorGC.js:463-592 | exactly the groups of all topics with enough candidates are merged; the live total of access counts is preserved, nothing outside the groups changes, and the answer is the number of soft-deleted fragments |
| `Compression.DeadIsSuperseded` | lib/memory/ConsolidatorGC.js:560-575 | each fragment soft-deleted by the run has a supersedes link from a live keeper at least as important |
| `Compression.KeepersLive` | lib/memory/ConsolidatorGC.js:577-583 | no keeper is soft-deleted in the run, each has the maximum importance and the summed access count of its group |
| `CompressionSeeds.KeepersAreSeeds` | lib/memory/ConsolidatorGC.js:472-554 | candidates come in descending importance within a topic, so every merged group was gathered around its keeper |
| `CompressionSeeds.DeadIsSimilar` | lib/memory/ConsolidatorGC.js:513-575 | each fragment soft-deleted by the run is a neighbour, with a similarity of at least 0.80, of the live keeper that supersedes it |
| `EmbeddingWorker.Worker.EmbedMany` | lib/memory/EmbeddingWorker.js:183-213 | rows with content are cut into as few chunks as the caps allow; a row is embedded or dead-lettered exactly if its chunk says so; each row ends up as one of both exactly once if and only if no final reply is too short, with one event per embedded row if and only if each such reply is empty |
| `EmbeddingWorker.Worker.EmbedChunk` | lib/memory/EmbeddingWorker.js:221-293 | whenever the retries come to an end, terminates with the effects of the chunk function |
| `EmbeddingWorker.Worker.EmbedOne` | lib/memory/EmbeddingWorker.js:300-339 | stores and announces the row if some attempt from the first to the last allowed one succeeds, and only dead-letters it if all of them fail |
| `EmbeddingWorker.GenerateBatchEmbeddings` | lib/tools/embedding.js:138-172 | sends the rows in slices of 100 and returns all vectors or the first error |
| `EmbeddingWorker.BatchOfSlices` | lib/tools/embedding.js:152-171 | a batch gets vectors if and only if every slice of 100 rows does, and otherwise the first other reply; one vector for each row of each slice makes one for each row of the batch |
| `EmbeddingWorker.StopsIff` | lib/memory/EmbeddingWorker.js:229-255 | with a service that repeats its answers, the retries come to an end if and only if no batch on the way gets an index outside it |
| `EmbeddingWorker.OneInsideReplyPerRow` | lib/memory/EmbeddingWorker.js:229-255 | whatever each attempt is answered, the rows left and the replies that named an index inside their batch add up to the rows of the chunk |
| `EmbeddingWorker.EndsOnceInside` | lib/memory/EmbeddingWorker.js:229-255 | whatever each attempt is answered, once indices stay inside their batches the retries end after at most one more attempt for each row |
| `EmbeddingWorker.HonestSettles` | lib/tools/embedding.js:152-171 | a service that names positions inside the slice it was sent lets the retries of every chunk end |
| `EmbeddingWorker.ChunkIsLettersAndOutcome` | lib/memory/EmbeddingWorker.js:229-293 | a chunk's effects are the dead letters of the named rows, in order, and then the outcome of the batch that is left: all of it, or each row as its own attempts decide |
| `EmbeddingWorker.ChunkIsDecided` | lib/memory/EmbeddingWorker.js:229-293 | what became of a chunk, in order: dead letters are the named rows and, if the final batch fails, those rows of it for which every attempt fails; embedded are as many of its first rows as there are vectors, or, if it fails, the rows for which an attempt succeeds; and the events |
| `EmbeddingWorker.LettersAreNamed` | lib/memory/EmbeddingWorker.js:229-255 | the n-th dead letter is the row that the reply to the n-th retry names, and the final batch is what the last retry leaves |
| `EmbeddingWorker.LettersAndRest` | lib/memory/EmbeddingWorker.js:233-234 | the dead letters of the named rows and the batch that is left make up the chunk |
| `EmbeddingWorker.ChunkPartition` | lib/memory/EmbeddingWorker.js:221-293 | every row is embedded or dead-lettered exactly once if and only if the final reply is not too short; the events are those of the embedded rows if and only if it is not, or is empty |
| `EmbeddingWorker.ChunksPartition` | lib/memory/EmbeddingWorker.js:209-213 | the same over all chunks, in both directions |
| `EmbeddingWorker.SucceedsIff` | lib/memory/EmbeddingWorker.js:303-325 | a row succeeds if and only if one of the allowed attempts does |
| `EmbeddingBlame.BatchOfRejecting` | lib/tools/embedding.js:152-164 | for a service that rejects bad rows the index is the position of the first bad row counted from the start of its slice |
| `EmbeddingBlame.OnlyBadRowsDieIff` | lib/memory/EmbeddingWorker.js:231-253 | for such a service only bad rows are dead-lettered for a named index if and only if fewer than 100 good rows stand before the last bad one; the number of letters is that of the bad rows plus the good rows beyond 99; no bad row is left |
| `EmbeddingBlame.AGoodRowDies` | lib/memory/EmbeddingWorker.js:231-253 | of 100 good rows followed by a bad one, the first good row and the bad row are dead-lettered |
| `WorkingMemory.Store.Add` | lib/memory/FragmentIndex.js:241-264 | the session's list is the enforced list with the new entry, defaults filled in; other sessions stay |
| `WorkingMemory.EntryIs` | lib/memory/FragmentIndex.js:247-255 | id, content and given numbers are kept; missing tokens are a quarter of the length rounded up; an entry is protected if and only if the given importance is above 0.8 |
| `WorkingMemory.Store.EnforceBudget` | lib/memory/FragmentIndex.js:290-315 | evicts the unprotected entries of the shortest prefix that reaches the budget |
| `WorkingMemory.CutFrom` | lib/memory/FragmentIndex.js:298-302 | the cut is the shortest that reaches the budget, or the whole list if none does |
| `WorkingMemory.IncrementalEqualsOneShot` | lib/memory/FragmentIndex.js:241-315 | evicting after every addition leaves what one eviction over everything ever added leaves |
| `WorkingMemory.RunKeepsProtectedAndNewest` | lib/memory/FragmentIndex.js:290-315 | after any run no protected entry was lost, order is kept, the newest unprotected entries stay, and the list is within the budget or all protected |
| `Decay.FragmentTable.DecayImportance` | lib/memory/FragmentGC.js:102-126 | no decaying row ends below the floor, permanent and anchored rows stay, and a stamped table is on the same course as before: decaying it later gives what decaying the old table then would have given |
| `Decay.TableRunsEqualOneIff` | lib/memory/FragmentGC.js:89-126 | any schedule of runs leaves the whole table as its last run alone would if and only if every row is stamped, does not decay, is at the floor, or no time passes |
| `Decay.RunsEqualOneIff` | lib/memory/FragmentGC.js:89-91 | the same for one row |
| `Decay.TwoRunsEqualOneIff` | lib/memory/FragmentGC.js:89-91 | the same for two runs |
| `Decay.PathIndependent` | lib/memory/FragmentGC.js:104-121 | any schedule of runs, at any real times, leaves a stamped row as one run at the last time would |
| `Decay.HalfLivesHalve` | lib/memory/FragmentGC.js:105-118 | n effective half-lives, whatever their length, since the last decay, else the last access, else the creation, halve the importance of a row that is neither permanent nor anchored n times, down to the floor |
| `Decay.HalfLifeInDays` | lib/memory/FragmentGC.js:108-117 | 30, 60, 90, 45, 120, 90 or 60 days by type; activation up to zero leaves them, from two on doubles them, in between stretches them in proportion |
| `Decay.ActiveKeepsMore` | lib/memory/FragmentGC.js:103-118 | of two rows that are otherwise the same the more active one never keeps less |
| `Decay.RowBounds` | lib/memory/FragmentGC.js:105-124 | a run never lowers a row below the floor, and lowers every decaying row above it for which time has passed |
| `RateLimiter.SlidingWindow.Allow` | lib/rate-limiter.js:24-44 | admits if and only if fewer than the maximum were admitted in the window that ends now, counted over the full history |
| `RateLimiter.SlidingWindow.Cleanup` | lib/rate-limiter.js:46-56 | changes no history, hence no later answer |
| `RateLimiter.AnyWindowHoldsAtMost` | lib/rate-limiter.js:24-44 | an admitted history holds at most the maximum in every interval of the window's length, wherever it starts |
| `RateLimiter.SlidingWindow.NoWindowOverflows` | lib/rate-limiter.js:24-44 | the same for every key after every sequence of calls |
| `RateLimiter.DropExpired` | lib/rate-limiter.js:34-36 | drops exactly the leading hits at or before the cutoff |
| `RateLimiter.DualRateLimiter.Allow` | lib/rate-limiter.js:86-91 | a request is decided by and counted in one limiter only |
| `RateLimiter.DualRateLimiter.Cleanup` | lib/rate-limiter.js:93-96 | changes neither history |
| `RotateLimit.RotateLimiter.Check` | lib/handlers/_rotate-ratelimit.js:50-72 | allows a request if and only if fewer than the limit were allowed in the window it falls into, which is that of the last allowed request until 60 seconds after its start; in the resulting history every minute of every address holds less than twice the limit |
| `RotateLimit.RetryAfterIsExact` | lib/handlers/_rotate-ratelimit.js:61-66 | a refused caller is allowed again exactly once the window is over, and retryAfter is the least number of whole seconds for that |
| `RotateLimit.RunHoldsLessThanTwiceTheLimit` | lib/handlers/_rotate-ratelimit.js:50-72 | over every run, every interval of 60 seconds holds at most 2 * limit - 1 allowed requests |
| `RotateLimit.TheBoundIsReached` | lib/handlers/_rotate-ratelimit.js:56-71 | for every limit a run with a minute that holds exactly that many |
| `RotateLimit.SlidesIff` | lib/handlers/_rotate-ratelimit.js:5 | every minute of every run stays within the limit if and only if the limit is one |
| `LogTail.ReadTail` | lib/admin/admin-logs.js:89-107 | the backward reads give exactly the last non-empty lines of the whole file, for every file and every chunk size |
| `LogTail.ReadLog` | lib/admin/admin-logs.js:83-107 | the same with the chunk size and margin of the server: a requested number from 1 to 1000 is taken as it is, others are cut to these bounds, and without one 200 lines are returned |
| `LogTail.LinesOfSuffix` | lib/admin/admin-logs.js:100-107 | the last n lines of a file are those of any suffix that has more than n lines |
| `LogTail.LinesOfText` | lib/admin/admin-logs.js:100-106 | a text reads as the non-empty lines it was made of |
| `Csv.RoundTrip` | lib/cli/_format.js:106-118 | a reader for section 2 of RFC 4180 recovers the header and every cell text, whatever they contain |
| `Csv.RoundTripIff` | lib/cli/_format.js:106-118 | the whole text reads back as its records if and only if there is a column |
| `Csv.ReadsEscaped` | lib/cli/_format.js:107-113 | an escaped cell followed by a separator or the end reads as the cell |
| `Csv.EscapeIff` | lib/cli/_format.js:107-113 | a cell is printed unchanged if and only if it has no comma, quote or line break; all others stand in quotes |
| `Csv.CellTexts` | lib/cli/_format.js:107-114 | a missing column or value prints nothing, any other value its text |
| `Ranking.SortIsStable` | lib/memory/FragmentSearch.js:780 | the sort is by descending key and keeps the order of ties |
| `Ranking.SortPermutes` | lib/memory/ConsolidatorGC.js:554 | the sort loses and adds nothing |
| `Ranking.OrderByFirstAppearance` | lib/memory/FragmentSearch.js:763-776 | the keys of the map are the distinct ids in order of first appearance |
| `Backfill.Backfill` | scripts/backfill-claims.js:247-283 | for every page size the rows visited are the first LIMIT rows of the tenants one after another, each once |
| `Backfill.VisitTenant` | scripts/backfill-claims.js:251-279 | keyset pages visit the same rows as a full scan in descending id order |
| `Backfill.NextPage` | scripts/backfill-claims.js:163-188 | the page below the last id seen is the rows that follow it |

## Left out

- The Redis path of OAuth: it reads and deletes in two steps, so single use holds there only without concurrent requests.
- OAuth details outside the store: `state`, redirect URLs, metadata, consent page, client registration; the answers of
  key, client and redirect lookups and the SHA-256 challenge are parameters.
- Session details outside the two tiers: SSE connections, heartbeats, legacy sessions, automatic reflection. Redis writes
  succeed and operations do not interleave: the code swallows Redis errors, so nothing holds then.
- `SessionRuns.TwoTiersAreOneMap`: is stated for settings whose lifetimes agree, rotations to another id, and closes
  that reach the session; what happens without the first and the last of these is stated exactly by
  `RestartsGoUnnoticedIff`, `MemoryAloneIsOneMap` and `CloseIsCompleteIff`.
- `BatchRemember.Process`: does not model progress events, the column values of the insert, the quota numbers in the
  answer, or the queueing after the commit; a hash repeated inside one chunk aborts, as PostgreSQL requires.
- `QuotaProtocol.QuotaIsNeverExceeded`: concerns one key with a limit; other writers than the batch path and soft
  deletes are not part of this model.
- `EmbeddingWorker.Worker.EmbedChunk`: requires that the retries come to an end, and assumes that the service repeats its
  answers and that stores and dead-letter pushes succeed; which vector a row gets when a slice returns a wrong number of
  them, polling, backoff and shutdown are not modelled.
- `Compression.Table.Compress`: links and deletes succeed; neighbour queries are a function that returns candidates of the
  same topic, as their filter does, and for `CompressionGrouping` in descending order of similarity, as they are ordered.
- `SearchText.Search`: the reranker's scores, the rank score and the workspace, case and affect filters are parameters;
  explanations, field selection and access counting are not modelled, nor are searches without a text before they
  reach `SearchTail.Finish`.
- `Decay.FragmentTable.DecayImportance`: `POWER(2, x)` is any function with its laws: exponents add up, a half at minus
  one, positive and at most one for exponents up to zero.
- Floating point everywhere: scores, importances and similarities are real numbers.
- `LogTail.ReadTail`: works on bytes; the code decodes each chunk on its own, which can break a character at a chunk
  boundary. Parsing and filtering of log entries is not modelled.
- `Backfill.VisitTenant`: ids are not empty (an empty cursor starts over) and the table does not change meanwhile.
- Expiry of the working-memory list, extraction of the client address, table rendering, SQL text, HTTP handlers,
  configuration and metrics: plumbing.
