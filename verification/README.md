# Verified model of the API discovery daemon

The daemon folds observed HTTP traffic into a table of discovered APIs, keeps a
second table of the operations declared in API Manager, labels the difference
(`drift`, `shadow`), and serves the result behind a token cache. This project
models that logic in Dafny and proves what the parts promise, one by one and
together.

`dafny verify dfyconfig.toml` checks everything.

## How it is organised

| modules | what they cover |
|---|---|
| `Strings`, `Sequences`, `Ordering`, `Options`, `Arithmetic`, `Clock` | splitting and joining paths, Go's string order, filtering, sorting |
| `Normalizer`, `Expander` | the segment normaliser and the two-pass template expander whose results phase 3 joins by equality |
| `Classifier`, `Counting`, `MergedRows`, `Callers`, `Merger`, `MergeResults` | decoded signals, the merge loop over nested maps, running averages, samples, the top-20 callers |
| `DiscoveredTable`, `SampleColumns`, `History`, `ManagedTable` | the history-preserving upsert and when its batch is rolled back; many cycles against one merge; the sync transaction |
| `Governance`, `GovernanceRuns`, `ViewRuns`, `AnchorRuns`, `Scenarios`, `Database` | all tables as one state machine: upsert, sync, classify, anchor, view, retention, time; what holds over whole runs; and the repositories as methods that update the tables in place |
| `Breaker`, `Scheduler`, `Serialisation` | the circuit breaker and the cycle loop with its goroutines and mutexes |
| `RecencyList`, `TokenCache`, `Auth`, `Requests`, `Revocation`, `Middleware` | the LRU cache as a sequence, the same cache as a map into a linked ring, bearer tokens and scopes, concurrent requests, revoked tokens, one request |
| `Publisher`, `FetchDetails`, `Pipeline` | the paging loop, the bounded concurrent fetches, a whole phase 2 cycle |
| `EndToEnd` | from an observed request to its label |

Code that loops or updates fields is a method or a class, proved against a
function or a predicate; the lemmas then say what that function means.
Concurrent code is a transition system whose steps are single atomic actions,
and the theorems speak of every run. The clock is a parameter. Regular
expressions are arbitrary predicates on a path segment. Floating point numbers
are reals.

## Where the code differs from what it says

Each of these is proved, with the exact condition where there is one.

- `Normalize` is idempotent exactly for paths that do not end in a doubled
  slash, "//" itself excepted (`Normalizer.NormalizeIdempotentIff`): only one
  trailing slash is trimmed.
- A template and a request that fills it normalise alike exactly when every
  filled-in value is one the normaliser replaces
  (`Expander.TemplateMatchesRequestIff`). Otherwise the call to a declared
  operation is reported, unless its path happens to be another declared path
  of that method (`EndToEnd.DeclaredRowReportedIff`).
- An update that would leave one of the array columns `raw_path_samples`,
  `distinct_clients_sample` or `status_codes` empty makes it NULL, which the
  table forbids, so the whole batch of the cycle is rolled back. All batches of
  a history commit exactly if the first two cycles that see a key always bring
  it a URL, a client address and a status (`History.AllCommitIff`), and exactly
  then the table mirrors one merge over the whole history
  (`History.HistoryMirroredIff`). Otherwise it mirrors a merge over the batches
  that committed (`History.HistoryPreserved`). A key that has
  only calls without a client address is counted once and from then on stops
  every cycle that sees it (`History.AnonymousCountedOnce`,
  `History.StuckForever`).
- Even so the average becomes NULL for good if the first two committed cycles
  of a key counted no rows (`History.AverageLost`). Row counts of at least one
  rule this out (`History.NeverEmptyWithRows`).
- The caps on the samples hold for each cycle, not for the row
  (`History.SamplesAreUnions`, `History.CapExceeded`), because the function
  that unites them applies its LIMIT to the one row of the aggregate.
- `Classify` is two statements. A row matched by the first is anchored by the
  second exactly when it was an anchor before, or no soft delete in between
  left it switched off and the last sync in between still declares it
  (`AnchorRuns.AnchoredAfterRaceIff`); with a retention run in between, exactly
  when it was an anchor or was seen in the last week
  (`AnchorRuns.AnchoredAfterRetentionIff`). There are runs in which it is not
  (`AnchorRuns.MatchedRowNotAnchored`).
- Becoming managed does not take a row out of the view. An active row is shown
  exactly when some classify statement ever found it unmatched
  (`ViewRuns.ShownIff`), under the label of the last one that did
  (`ViewRuns.ShownLabel`).
- Caching active answers only is meant to keep revocations visible. Once a
  token is revoked it is admitted for at most one more ttl, exactly unless a
  usable answer is waiting to be stored at that moment (`Revocation.MaskedIff`,
  with a run in `Revocation.RevocationMasked`).
- The "previous still running" branch of phase 3 cannot be taken
  (`Scheduler.Phase3LockIsFree`).
- A detail fetch that fails makes the following sync switch off all operations
  of that API (`Pipeline.FailedFetchRetires`).
- If the server caps its pages below the 200 asked for, the listing is complete
  exactly when nothing published was skipped (`Publisher.ListsPublishedIff`).

## Model

| member | source | states |
|---|---|---|
| Strings.LessTotal | internal/discovery/merger.go:200-208 | Go's string order, by which rows and callers are sorted, is total |
| Strings.LessTransitive | internal/discovery/merger.go:200-208 | and transitive |
| Strings.LessExact | internal/discovery/merger.go:200-208 | one string is before another exactly if at the first difference it has the smaller character or ends |
| Strings.JoinOfSplit | internal/discovery/normalizer.go:66-77 | splitting a path at '/' and joining it gives the path back |
| Strings.SplitOfJoin | internal/discovery/normalizer.go:66-77 | joining slash-free segments and splitting gives the segments back |
| Normalizer.NormalizeInPlace | internal/discovery/normalizer.go:55-78 | overwriting the segments one by one computes the specified normal form |
| Normalizer.NormalizeSegmentwise | internal/discovery/normalizer.go:66-99 | the segment count is kept, empty segments stay, and a segment becomes "{id}" exactly when a built-in or user pattern and no exclude pattern matches it |
| Normalizer.NormalizeIdempotentIff | internal/discovery/normalizer.go:55-78 | normalising twice equals normalising once exactly when the query-free part is "//" or does not end in "//" |
| Normalizer.DoubledSlashTakesTwoPasses | internal/discovery/normalizer.go:59-61 | "/a//" is an input on which it does not |
| Normalizer.NormalizeEqualIff | internal/discovery/normalizer.go:55-99 | any two paths normalise alike exactly when they have as many segments and differ only where both segments are replaced |
| Normalizer.NormalizeOfJoin | internal/discovery/normalizer.go:55-78 | the normal form of a joined path is the join of its normalised segments, less one trailing empty segment |
| Expander.Expand | internal/managed/expander.go:66-91 | one managed operation per API operation, in order, each field from the API or the operation, the paths through both passes |
| Expander.GatewayConventionsAgree | internal/managed/expander.go:108-117 | a context that already ends in the version and one that does not give the same gateway path; without a version nothing is added |
| Expander.BackendBaseExact | internal/managed/expander.go:130-139 | the base path is the path of the URL less all slashes at its end, and empty without a URL or for one that cannot be parsed |
| Expander.CollapsesLeftmost | internal/managed/expander.go:18-18 | pass A replaces the leftmost placeholder and goes on behind it |
| Expander.CollapseKeeps | internal/managed/expander.go:18-18 | text without a placeholder stays as it is |
| Expander.CollapseSegmentwise | internal/managed/expander.go:18-18 | no placeholder match reaches across a '/': pass A works segment by segment |
| Expander.PassAOnly | internal/managed/expander.go:97-99 | without a normaliser a template is collapsed and nothing else |
| Expander.TemplateMatchesRequestIff | internal/managed/expander.go:95-101 | a template of whole-segment placeholders and a request that fills them normalise to the same path exactly when every filled-in value is dynamic |
| Expander.TemplateMeetsPathIff | internal/managed/expander.go:95-101 | which requests join a declared path at all, false matches included |
| Expander.StaticValueMissed | internal/managed/expander.go:95-101 | without patterns every value in place of a placeholder is a failing input |
| Classifier.ClassifyAndDrop | internal/discovery/classifier.go:190-200 | the loop returns the classified signals that are not skipped |
| Classifier.DirectionExact | internal/discovery/classifier.go:171-186 | by peer type: 1, 10 and 14 are internal under every tap, 255 is external under every tap, any other peer is external exactly under "c" or "c-p" |
| Classifier.ServiceExact | internal/discovery/classifier.go:127-137 | kept exactly if served by a labelled pod or node or by a tracked host; the name says by which |
| Classifier.ServiceIsUnique | internal/discovery/classifier.go:127-137 | signals with one service name come from one address and port, or from one namespace and service |
| Classifier.ClientExact | internal/discovery/classifier.go:157-169 | a caller is named by its pod labels, else by its address, else not at all |
| Classifier.KeptExactly | internal/discovery/classifier.go:124-200 | the raw signals behind the result are those with such a server, as often and in the order they came, each with its direction and kind |
| Classifier.IdentityTellsKind | internal/discovery/classifier.go:202-209 | the kind read back from the identity prefix is the kind that was decided, and exactly anonymous callers have an empty identity |
| Counting.TotalsAreSums | internal/discovery/merger.go:98-126 | the folded counters are the plain sums over the signals, split by direction |
| Counting.TotalConcat | internal/discovery/merger.go:98-126 | totals of two stretches of signals combine to the totals of both |
| Counting.TotalPermutation | internal/discovery/merger.go:98-126 | totals do not depend on the order of the signals |
| Counting.TimesMeaning | internal/discovery/merger.go:109-116 | first and last seen are attained bounds over all signals |
| Counting.UnixToTimeExact | internal/discovery/merger.go:262-267 | seconds since the epoch; an unknown time is the first day of year 1 and before all known ones |
| MergedRows.AppendUniqueCapped | internal/discovery/merger.go:271-281 | appends exactly a new, non-blank value below the limit |
| MergedRows.AppendUniqueStatus | internal/discovery/merger.go:284-291 | appends exactly a status not listed yet |
| MergedRows.SamplesExact | internal/discovery/merger.go:128-133 | within a merge the samples are distinct, seen, non-blank and capped; a list below its cap misses nothing |
| MergedRows.SamplesAreFirst | internal/discovery/merger.go:128-133 | a value missing from a full list first came up after all that are in it |
| MergedRows.StatusesExact | internal/discovery/merger.go:134-136 | the codes listed are exactly the positive statuses, modulo 2^16 if they do not fit |
| MergedRows.PreferredMeaning | internal/discovery/merger.go:138-146 | the sample pod is the last one a server-process tap reported, else the first reported at all |
| MergedRows.RunningAverageExact | internal/discovery/merger.go:118-126 | the running weighted average equals the weighted mean of all signals so far |
| MergedRows.FoldSignal | internal/discovery/merger.go:82-146 | one loop iteration turns the row of the signals before into the row of the signals including this one |
| Callers.FoldClient | internal/discovery/merger.go:151-174 | one iteration keeps the caller map equal to the callers of all signals so far |
| Callers.ResolveTopClients | internal/discovery/merger.go:178-194 | the list resolved from the map does not depend on the order in which the map is walked |
| Callers.TopClientsExact | internal/discovery/merger.go:148-194 | the exact top 20 by observations descending and identity ascending: each with the sum of its row counts, with what its first call says of it and with its first known port; whoever is omitted ranks below all that are kept |
| Callers.TopClientsIgnoreOrder | internal/discovery/merger.go:151-194 | identities, ranks and observations are unchanged under any permutation of the signals |
| Merger.MergeAndNormalize | internal/discovery/merger.go:64-210 | the two nested maps, folded, resolved and sorted, give exactly one full row per key that occurs, in strictly ascending key order |
| Merger.MergeUnique | internal/discovery/merger.go:196-209 | there is only one such result, so map iteration order cannot show |
| MergeResults.MergeExact | internal/discovery/merger.go:75-209 | ascending by service, method and path; every signal is in the row of its key and no other; of each row the sums, mean, times, samples, status codes, kind, domain, pod, workload and top callers, in terms of the raw signals |
| MergeResults.FlowsByOrigin | internal/discovery/merger.go:101-107 | the external flows of a row are the rows of its calls from outside, told by peer and tap |
| MergeResults.RowsConserved | internal/discovery/merger.go:98-99 | the merge neither loses nor invents observations |
| MergeResults.MergeIgnoresSignalOrder | internal/discovery/merger.go:64-210 | keys, counts, times, averages and ranked callers are the same for every order of the input |
| MergeResults.CollectServices | internal/discovery/merger.go:214-240 | one candidate per service that occurs, in ascending order, spanning the times of all its rows |
| DiscoveredTable.UpsertAllAt | internal/store/discovered_repo.go:55-102 | the statements of a batch with distinct keys, if all succeed, update or insert each key once and touch nothing else |
| DiscoveredTable.CommitsIff | internal/store/migrations/002_phase1_normalization_version.sql:9-16 | a batch commits exactly when the table as it was accepts each row by itself: a known key must not end up with an empty array column |
| SampleColumns.ColumnsOf | internal/discovery/merger.go:128-133 | a merged row has a path, client or status sample exactly when some signal of its key has one |
| SampleColumns.CycleCommitsIff | internal/store/discovered_repo.go:81-88 | in terms of the signals: a cycle commits exactly when every key it sees, if known, has or gets a URL, a client address and a status |
| SampleColumns.CycleSamples | internal/store/migrations/006_capped_array_union.sql:6-11 | a cycle adds exactly its own samples to those of a row |
| History.AllCommitIff | internal/store/discovered_repo.go:106-157 | all batches of a history commit exactly if of no key the first two cycles that saw it leave an array column empty |
| History.HistoryPreserved | internal/store/discovered_repo.go:73-101 | however a history is split into cycles and whichever batches are rolled back, the table has the keys, counts, flows and times of one merge over the signals of the committed batches, and its averages unless the first two of them counted no rows |
| History.HistoryMirroredIff | internal/store/discovered_repo.go:73-101 | it mirrors one merge over all signals exactly if of no key the first two cycles leave an array column empty |
| History.SamplesAreUnions | internal/store/discovered_repo.go:81-97 | the samples of a row are the union of those of each committed cycle that saw it; its top callers are those of the last one |
| History.LatestColumns | internal/store/discovered_repo.go:80-99 | the last pod, workload and domain known, the most clients of one cycle, and version, window and top callers of the last one |
| History.UnionElements | internal/store/migrations/006_capped_array_union.sql:6-11 | a sample is in that union exactly if it is among the capped samples of one of the cycles |
| History.CapExceeded | internal/store/migrations/006_capped_array_union.sql:6-11 | any number of different URLs, one a cycle, all end up in the row, whatever the cap |
| History.StuckForever | internal/store/migrations/002_phase1_normalization_version.sql:9-16 | upserts never change a row with an empty array column that no later signal of its key fills, and no cycle that sees it commits |
| History.AnonymousCountedOnce | internal/store/migrations/002_phase1_normalization_version.sql:15-15 | a key with only calls without a client address keeps the counts of its first one |
| History.NeverEmptyWithRows | internal/store/discovered_repo.go:89-91 | with at least one row behind every signal no key starts with two cycles without rows, so no average is lost |
| History.AverageLost | internal/store/discovered_repo.go:89-91 | two committed cycles without rows make the average NULL |
| ManagedTable.SyncedExact | internal/store/managed_repo.go:88-153 | a committed sync activates exactly the batch, with the values of the last duplicate, and switches off what was synced before |
| ManagedTable.SyncReplacesIff | internal/store/managed_repo.go:141-153 | the batch becomes the whole active set exactly when every other active row was synced before this start |
| ManagedTable.LastExists | internal/store/managed_repo.go:105-129 | every key of a batch has a last occurrence, so its values are determined |
| Governance.StepKeepsInv | internal/store/classification_repo.go:39-122 | every statement keeps: anchors are active, findings belong to existing rows, no managed row is newer than the last sync |
| Governance.RunKeepsInv | internal/store/retention_repo.go:29-106 | and so does every run |
| Governance.AnchorIsForever | internal/store/retention_repo.go:66-93 | an anchored row stays active and is never deleted, in any interleaving and however long it is idle |
| Governance.ClassifyExact | internal/store/classification_repo.go:39-101 | exactly one finding per active unmatched row; drift exactly when the service has a matched active row; internal exactly when nothing came from outside |
| Governance.AnchorPreventsShadow | internal/store/classification_repo.go:56-122 | while an operation matches an anchor, no row of its service is labelled shadow |
| Governance.ClassifyAnchorsMatched | internal/store/classification_repo.go:106-136 | without it, the two statements anchor exactly the matched active rows, beside the old anchors |
| Governance.NoTrafficIff | internal/store/bff_repo.go:437-451 | all active operations are listed as untrafficked exactly when a classify statement reports all active rows; then each of them is labelled shadow |
| GovernanceRuns.SyncReplacesAll | internal/store/managed_repo.go:52-70 | after every run that ends in a sync, the active operations are exactly the keys of that batch with the values of the last duplicate |
| GovernanceRuns.CountsOverRun | internal/store/discovered_repo.go:73-101 | over a run of any statements, a row that is not deleted gains exactly the totals of the signals of its key in the batches that committed, and its average stays the mean of all of it (or NULL, if it was) |
| GovernanceRuns.LifeCounts | internal/store/discovered_repo.go:73-101 | from its birth on a row counts exactly the signals of the committed batches that brought it and came for it later, whatever became of its key before |
| GovernanceRuns.SamplesOverRun | internal/store/discovered_repo.go:81-88 | and its array columns gain exactly the samples of these batches |
| GovernanceRuns.FilledForever | internal/store/migrations/002_phase1_normalization_version.sql:9-16 | so a row that once has a value in each array column never makes a batch fail again |
| GovernanceRuns.StuckWhileItLives | internal/store/migrations/002_phase1_normalization_version.sql:9-16 | a row with an empty array column that no later signal fills takes part in no upsert of the run, as long as it is not deleted |
| GovernanceRuns.ReportsFollowSync | internal/comparison/pipeline.go:65-73 | in a run that begins unsynced and without findings, none is older than the first committed sync |
| GovernanceRuns.GoneForever | internal/store/retention_repo.go:85-92 | a deleted row never comes back under its old identity |
| GovernanceRuns.CleanupAndView | internal/store/retention_repo.go:52-64 | any view result possible after the cleanup was possible before, and one possible before stays so exactly when the findings it shows were kept |
| GovernanceRuns.CleanupInvisible | internal/store/retention_repo.go:52-64 | with distinct times per row the cleanup never changes the view, for any retention period |
| GovernanceRuns.RunKeepsDistinctTimes | internal/store/migrations/008_top_clients.sql:27-57 | one insert per row and cycle at increasing times keeps these times distinct |
| GovernanceRuns.ManagedRowKeepsOldLabel | internal/store/classification_repo.go:87-100 | one classify statement leaves the shown finding of a matched row as it was |
| ViewRuns.FindingsOverRun | internal/store/retention_repo.go:52-93 | over every run, a row that exists at the end has findings exactly if it had some or a classify statement found it active and unmatched |
| ViewRuns.ShownIff | internal/store/migrations/008_top_clients.sql:27-57 | after every run an active row is in the view exactly when some classify statement of the run found it active and unmatched |
| ViewRuns.ShownLabel | internal/store/migrations/008_top_clients.sql:27-57 | and it carries what the last such statement wrote, given classify statements at increasing times |
| ViewRuns.ServedExactly | internal/store/classification_repo.go:138-165 | what readers get is the state of the last refresh: the rows active then that had been found unmatched until then, with their label; nothing before the first |
| ViewRuns.ViewExists | internal/store/migrations/008_top_clients.sql:27-57 | the view query always has a result |
| ViewRuns.ManagedRowIsShown | internal/store/migrations/008_top_clients.sql:27-57 | for every request there is a run from the start, classifying only after a sync, after which an operation matches its row and every view result still shows it |
| AnchorRuns.ActiveOverRun | internal/store/retention_repo.go:74-84 | over every run a row is active at the end exactly when it was or came in with a batch that committed, and no soft delete left it switched off |
| AnchorRuns.MatchedOverRun | internal/store/managed_repo.go:52-70 | over every run a row is matched at the end exactly when the last sync declares a matching operation, or none ran and it was matched before |
| AnchorRuns.AnchoredAfterRaceIff | internal/store/classification_repo.go:127-136 | whatever runs between the two statements: an active row is anchored exactly when it was, or it was not left switched off (a soft delete without a later batch that brings the row and commits) and the last sync declares a matching operation |
| AnchorRuns.AnchoredAfterRetentionIff | internal/store/retention_repo.go:29-44 | with a whole retention run in between, a matched row is anchored exactly when it was or was seen within seven days |
| AnchorRuns.MatchedRowNotAnchored | internal/store/classification_repo.go:103-136 | for every request there is a run from the start in which it is seen on time, declared after more than a week of silence, matched when classified, and not anchored |
| Database.Tables.BatchUpsert | internal/store/discovered_repo.go:106-157 | all rows are upserted in order, or none: the batch fails exactly if some row would be left with an empty array column or fails for another reason |
| Database.Tables.Sync | internal/store/managed_repo.go:52-70 | a sync takes effect as a whole; whatever fails, nothing changes |
| Database.Tables.Classify | internal/store/classification_repo.go:127-136 | inserts the findings, then marks anchors; a failure keeps what came before it |
| Database.Tables.RunRetention | internal/store/retention_repo.go:29-44 | the four cleanup statements and the time stamp run in order and stop at the first failure |
| Database.RetentionExact | internal/store/retention_repo.go:52-106 | what one retention run leaves: which rows, with which activity, which findings (a latest one per remaining row among them), which operations |
| Breaker.CooldownFormula | internal/engine/breaker.go:128-138 | capping the exponent changes nothing: the cooldown is min(3600, 60 * 2^(failures-3)) seconds |
| Breaker.CooldownBounds | internal/engine/breaker.go:128-138 | it is monotone in the failures and stays between 60 and 3600 seconds |
| Breaker.ConsistencyKept | internal/engine/breaker.go:53-108 | closed exactly while there are fewer than three failures, whatever is called |
| Breaker.AllowExact | internal/engine/breaker.go:53-70 | only an open breaker says no, until min(3600, 60 * 2^(failures-3)) seconds after it was opened; then it is half-open |
| Breaker.RecordExact | internal/engine/breaker.go:76-108 | a success closes it and forgets the failures; the third failure in a row and every later one opens it anew; the transition time is that of the last change of state |
| Breaker.CircuitBreaker.Allow | internal/engine/breaker.go:53-70 | yes unless open and within the cooldown; half-opens the breaker when the cooldown has passed |
| Breaker.CircuitBreaker.RecordSuccess | internal/engine/breaker.go:76-87 | the state after a success |
| Breaker.CircuitBreaker.RecordFailure | internal/engine/breaker.go:90-108 | the state after a failure |
| Scheduler.StepKeepsInv | internal/engine/engine.go:241-323 | every atomic action of every goroutine keeps the lock, breaker and phase 3 invariants |
| Scheduler.MutualExclusion | internal/engine/engine.go:266-320 | at most one run per phase; phase 3 only inside the goroutine that holds the phase 1 mutex and whose phase 1 succeeded |
| Scheduler.Phase3LockIsFree | internal/engine/engine.go:243-248 | the TryLock of phase 3 never fails |
| Scheduler.BreakerIsPrivate | internal/engine/engine.go:271-289 | between Allow and Record nobody else changes the breaker |
| Scheduler.BreakerStatesSeen | internal/engine/breaker.go:53-108 | Allow never finds it half-open, Record never finds it open, half-open means a probe is in flight |
| Scheduler.FailuresAreSpread | internal/engine/breaker.go:94-103 | from the 3rd to the n-th failure without a success at least the sum of the cooldowns passes |
| Scheduler.GoroutineEnds | internal/engine/engine.go:270-320 | in every run a goroutine takes at most eight steps of its own; once done it holds none of the three mutexes |
| Scheduler.CanFinishAlone | internal/engine/engine.go:270-320 | from every state of every run each goroutine can finish and free its locks without any other one moving |
| Scheduler.Phase3Follows | internal/engine/engine.go:289-291 | from every reachable state a phase 1 that succeeded goes on to phase 3 |
| Scheduler.Phase3Exactly | internal/engine/engine.go:270-292 | in every run a finished phase 1 goroutine has run phase 3 once if its own run succeeded and never if not; phase 2 never does |
| Scheduler.AllowedWithinTheHour | internal/engine/breaker.go:53-70 | whoever holds the mutex and asks the breaker an hour later runs; with a closed breaker at once |
| Scheduler.SkippedCycle | internal/engine/engine.go:271-281 | with the mutex taken or the breaker open a cycle does nothing |
| Scheduler.WholeCycle | internal/engine/engine.go:270-292 | with the mutex free and the breaker willing, a cycle runs its phase once, records the outcome, runs phase 3 exactly after a successful phase 1, and frees the mutex |
| Serialisation.RunsDoNotOverlap | internal/engine/engine.go:270-320 | a run of a phase begins only after the one before has ended, so starts increase if runs take time |
| RecencyList.CacheExplained | internal/bff/token_cache.go:53-95 | after any gets and puts: no token twice, at most max entries, most recently used first, each entry what the latest put of its token stored |
| RecencyList.GetAnswers | internal/bff/token_cache.go:53-69 | get answers exactly when the token is held and its latest put is at most ttl old, with what that put stored |
| RecencyList.GetLeaves | internal/bff/token_cache.go:53-69 | a token it answers for comes first; one it does not is held no more, so an expired entry is dropped at once; the others stay |
| RecencyList.EvictsLeastRecent | internal/bff/token_cache.go:72-95 | only a new token in a full cache evicts, and then exactly the entry used least recently |
| RecencyList.RecentExact | internal/bff/token_cache.go:53-95 | the reference order: accessed tokens, none twice, the latest access first |
| RecencyList.HoldsMostRecent | internal/bff/auth.go:46-61 | sequential accesses leave exactly the min(max, distinct) most recently accessed tokens in recency order, even when entries expire |
| TokenCache.Ring.Remove | internal/bff/token_cache.go:61-66 | unlinking a node leaves the ring of the other nodes |
| TokenCache.Ring.PushFront | internal/bff/token_cache.go:93-94 | a new node becomes the first of the ring |
| TokenCache.Ring.MoveToFront | internal/bff/token_cache.go:67-67 | a node moves to the front, the others keep their order |
| TokenCache.Ring.Back | internal/bff/token_cache.go:85-86 | the last node, or none |
| TokenCache.Tokens.constructor | internal/bff/token_cache.go:39-49 | an empty cache; a capacity that is not positive becomes 1000 |
| TokenCache.Tokens.Get | internal/bff/token_cache.go:53-69 | the map and the linked ring do what the sequence does on a get: same answer, same contents |
| TokenCache.Tokens.Put | internal/bff/token_cache.go:72-95 | and on a put, with the map always holding exactly the cached tokens, each with its own node |
| TokenCache.Tokens.Size | internal/bff/token_cache.go:98-102 | the length of the contents, never above the capacity |
| Auth.ParseBearerExact | internal/bff/auth.go:33-44 | a header carries a token exactly when it is "Bearer ", spaces, the token without spaces at its ends, spaces |
| Auth.FieldsExact | internal/apim/introspect.go:30-35 | the granted scopes are exactly the maximal runs without white space |
| Auth.HasAnyScope | internal/bff/auth.go:77-87 | true exactly when some wanted scope stands in the scope string as a whole word |
| Auth.RequiredScopes | internal/bff/auth.go:14-17 | the scopes asked for are exactly these two words |
| Requests.StepKeepsInv | internal/bff/auth.go:46-72 | every step of every request keeps all entries and requests vouched for |
| Requests.AdmittedOnlyIfVouched | internal/bff/auth.go:46-72 | in every interleaving a request is handled only with a required scope from an introspection of the same token that answered active: its own, or one stored at most ttl before the lookup |
| Requests.CacheUnderConcurrency | internal/bff/token_cache.go:17-20 | inactive answers are never stored, and the cache stays explained by its gets and puts |
| Revocation.RevocationHonoured | internal/bff/token_cache.go:17-20 | over every run in which all introspections of a token are inactive or fail: without a pending usable store at its start, no request is admitted on a read later than one ttl after the last usable entry was stored, and none by a new introspection |
| Revocation.RevocationMasked | internal/bff/token_cache.go:17-20 | a run from the start in which a request is admitted after an inactive answer, because an earlier active one was stored late |
| Revocation.MaskedIff | internal/bff/token_cache.go:17-20 | a revocation can be masked for longer than one ttl exactly if a usable store is pending when it takes effect |
| Middleware.Authenticate | internal/bff/auth.go:46-61 | a get, and a put exactly when a miss is followed by an active answer |
| Middleware.Serve | internal/bff/auth.go:31-75 | verdict and cache of one request: unauthorized, forbidden or admitted, decided by what is known of the token |
| Middleware.ServesAsRun | internal/bff/auth.go:31-75 | that is what the concurrent machine does when the others pause: same cache, 401 without an active answer, 403 without a scope, else handled |
| Publisher.ListPublishedAPIs | internal/apim/publisher.go:115-139 | against every server: fails exactly if some page it asks for does not arrive, else collects what is published on all pages up to the first that announces no other |
| Publisher.ListsExactly | internal/apim/publisher.go:115-139 | there always is such a page or such a failure, and it decides the listing |
| Publisher.ListsPublishedIff | internal/apim/publisher.go:115-139 | against a server that pages honestly the listing is complete exactly when no published entry was skipped by short pages; with full pages it always is |
| FetchDetails.StepKeepsInv | internal/apim/publisher.go:157-189 | every action keeps semaphore, wait group, mutex and results accounted for |
| FetchDetails.BoundedAndExclusive | internal/apim/publisher.go:158-184 | at most as many fetches in flight as the semaphore has slots; the shared slices have one writer at a time |
| FetchDetails.EveryIdOnce | internal/apim/publisher.go:159-189 | on return every id is exactly once in the results or in the errors, and the call fails exactly when a fetch failed |
| FetchDetails.NeverStuck | internal/apim/publisher.go:165-184 | until the call returns some action is enabled |
| FetchDetails.ReturnsAfter | internal/apim/publisher.go:157-189 | every interleaving returns after exactly nine actions per id and one more |
| FetchDetails.Concurrency | internal/apim/publisher.go:100-102 | a positive setting is the capacity of the semaphore, any other one means five |
| Pipeline.CollectItems | internal/managed/pipeline.go:75-106 | the loops turn the fetched details into one row per operation |
| Pipeline.KeysOfItems | internal/managed/pipeline.go:75-106 | the keys of that batch are exactly the operations of the fetched APIs |
| Pipeline.StoredExactly | internal/managed/pipeline.go:75-106 | after a sync every active row holds, column by column, what a fetched API says of one of its operations |
| Pipeline.RunCycle | internal/managed/pipeline.go:51-113 | a whole cycle: a failed listing or sync changes nothing; otherwise the active rows are exactly the operations of the APIs fetched from a complete listing |
| Pipeline.SyncMirrorsFetches | internal/managed/pipeline.go:51-113 | after a cycle the active operations are exactly those of the APIs whose details were fetched, in whatever order and however many failed |
| Pipeline.FailedFetchRetires | internal/managed/pipeline.go:67-70 | an API whose fetch failed has no active operation after the sync |
| EndToEnd.SyncDeclares | internal/managed/expander.go:70-89 | after a sync the operations of its batch are declared, under the path seen at the gateway and the path seen at the backend |
| EndToEnd.SeenIsActive | internal/store/discovered_repo.go:100-100 | after the cycle that saw it the row of a request is in the table and active exactly if the batch committed or it was before |
| EndToEnd.InternalExactly | internal/store/classification_repo.go:47-92 | after every run a new finding is internal exactly if no call from outside has ever been counted for its row |
| EndToEnd.PathsMeetIff | internal/managed/expander.go:11-17 | the path of a request is the declared path exactly when every filled-in value is dynamic |
| EndToEnd.DeclaredCallIsGoverned | internal/store/classification_repo.go:56-101 | a request to a declared operation with dynamic values is matched and yields no finding, and once its row is in the table makes the rest of its service drift |
| EndToEnd.DeclaredRowReportedIff | internal/store/classification_repo.go:56-101 | the row of a request to a declared operation is reported exactly when it is active, some filled-in value is not dynamic and its path is no other declared path of that method |
| EndToEnd.DeclaredCallReportedIff | internal/store/classification_repo.go:56-101 | the same for every request after the cycle that saw it, active meaning that the batch committed or the row was there before |

## Left out

- SampleColumns.CycleSamples: the array columns are sets; the sorted order in which the SQL stores their values is not modelled.
- History.StuckForever: speaks of upserts alone; a run with deletions is `GovernanceRuns.StuckWhileItLives`, where a row that is deleted may come back under a new identity and be filled.
- MergedRows.RunningAverageExact: averages are reals; rounding of float64 is not modelled.
- Counting.TotalsAreSums: counters are unbounded; a 64-bit overflow is not modelled.
- Publisher.ListPublishedAPIs: the offset is unbounded; a total within one page of the largest 64-bit integer is not modelled. What the server answers is a function of the offset.
- Pipeline.RunCycle: what `FetchDetails` returned is a function of the ids; `FetchDetails.EveryIdOnce` and `Pipeline.SyncMirrorsFetches` say what that can be.
- Scheduler.Phase3Exactly: whether a run of phase 3 succeeds only matters to the health endpoints and is left out.
- Auth.FieldsExact: white space is ASCII white space; the Unicode spaces of Go's `unicode.IsSpace` are not modelled.
- Auth.ParseBearerExact: likewise for the spaces that `strings.TrimSpace` removes.
- Revocation.RevocationHonoured: an introspection is one atomic step, so an active answer computed before the revocation and received after it is excluded.
- GovernanceRuns.ReportsFollowSync: the guard of phase 3 is modelled as "some sync has committed"; that it must also be recent is left out, so the model has more runs than the daemon.
- Expander.Expand: the URL parser is a parameter, and upper-casing is that of ASCII letters.
- MergedRows.FoldSignal: the rows and caller entries are values replaced in the maps, where the source mutates them through references; nothing else holds a reference to them.
- Merger.MergeAndNormalize: `sort.Slice` is an insertion sort; only the order matters, and no two elements compare equal.
- TokenCache.Ring.MoveToFront: the list of Go's standard library is modelled with entries stored in its nodes.
- Database.Tables.Sync: that a failed transaction changes nothing is what PostgreSQL guarantees; the model writes to a copy and says where an error may come.
- Database.Tables.BatchUpsert: likewise, the implicit transaction of a batch is taken from PostgreSQL. The NOT NULL columns decide from the data which row fails; any other failing row is a parameter. In `Governance` a batch that fails for any other reason is a step that is not taken. Transport, isolation levels, several replicas and clock skew are not modelled; each statement or transaction is atomic.
- GovernanceRuns.RunKeepsDistinctTimes: that classify statements come at increasing times, and in `Governance.Enabled` that syncs start at increasing times, is a hypothesis; `Serialisation.RunsDoNotOverlap` proves the order of the runs it rests on, on the monotonic clock of the daemon, while the tables carry wall-clock times.
- Governance.ClassifyExact: the id arrays of matched operations are always empty in the inserted rows and are left out.
- Regular expression engines, and the lists of built-in, user and exclude patterns: any predicates will do.
- HTTP, TLS, JSON, OAuth2 registration, the introspection transport and retries.
- DeepFlow query text and row decoding; signals start decoded.
- The noise filters and the switch that drops internal traffic: they only remove signals before or after they are classified.
- The table of services: a service stands for its id.
- Configuration, logging, health endpoints, metrics and the REST handlers behind the middleware.
- Cancellation of contexts: a fetch or a phase always ends, with a result or an error.
- Migrations, apart from the view, the array function, and the uniqueness and NOT NULL constraints the statements rely on.
