# Flaketriage: a verified model

The decision logic of the flaky-test triage tool, from result files to quarantine, in Dafny. What
the tool does step by step is a method or a class method proved against a specification function;
what it promises is a lemma about those functions.

| part | files |
|---|---|
| names and renames | Levenshtein, Truncation, Similarity, Renames, Alias, DistanceFacts |
| run store, alias groups, ingest | Tables, TopK, AliasGraph, Store, Reconcile, Ingest, IngestLaws, RenameLaws, StoredFacts |
| streaming JUnit parser | JunitTree, Junit, JunitParser, JunitCases |
| diff ranges | Ranges, Hunks, HunkFacts, DiffMeaning, LineBreaks, DiffText |
| detection | History, HistoryLaws, HistoryFacts, Rates, RateLaws, Detector, Verdicts, DetectAll |
| quarantine | Quarantine, Records, RecordLaws, Policy, PolicyLaws, Expiry, ApplyAgain, LogicalTests |
| classification | Guardrails, EvidenceFacts, Reasons, Remembered, Cache, Classifying, Classifier, SpendLaws, SpendTight, CacheLaws, Transparency, Sharing |

Models, Sorting and Picking are shared. `dafny verify dfyconfig.toml` checks everything.

Conventions: distances, rates and costs are exact reals; times are integers (seconds); fingerprints
and commit shas are naturals, ordered as the fixed-width hexadecimal strings they stand for;
thresholds and MAX_COMPARE_LENGTH are parameters. A table is a sequence whose positions are the row
ids, or a map. The model client is a function of the number of calls made before and the request, so
it may answer and charge as it likes; "functional" means that it ignores the number.

Where the code and its comments or documentation disagree, the model follows the code:

- Truncation can make two strings look less similar (identity/similarity.py:16-18 says it cannot).
  It at most doubles the distance, and the lengths at which it can increase it are stated exactly.
- The spending guarantee of classify/classifier.py:208-218 (the ceiling plus at most one call) does
  not hold with the gate on, because the budget is not checked between the gate and the classifier. It
  holds exactly when the gate is off, or one kind of call, or everything, is free.
- Added lines that begin with "++" and removed lines that begin with "--" are not collected
  (ingest/diff.py:199-208); every claim about ranges says exactly when that matters. When only such
  changes were in the body, the header is committed from where the cursors stopped, not from its start.
- `text.splitlines()` (ingest/diff.py:89) ends a line at a form feed, a vertical tab, U+001C to U+001E, U+0085,
  U+2028, U+2029 and a lone carriage return too, so a changed line with one of these inside is read as several
  lines. DiffMeaning speaks of edits read as one line each; LineBreaks says when that is so, and DiffText when the
  ranges are right although it is not.
- policy/quarantine.py:15 promises no second open quarantine for a test. The table is unique per identity only, and
  detection names a test by its latest identity, so a test renamed while quarantined can be quarantined again.
- `record_alias` reports true for an update as well as an insertion.
- `policy --apply` expires overdue records before it evaluates. Repeating it at one instant is not
  always a fixpoint: a test that is condemned and clean at once is recorded and released every time,
  and one failure followed by one pass at the same commit is enough for that.
- A response whose text is missing altogether is not treated as malformed, so it is not repaired.
- The confidence floor is not part of the cache key: after it was raised, an entry below it is still served. An
  answer meets the floor in force exactly when the cache did not begin with such an entry for its subject.
- Cache keys of different models and prompt versions differ only as long as the names of neither, as the key writes
  them, begin with those of the other, which a separator in a model name can bring about.

## Model

| member | source | states |
|---|---|---|
| Levenshtein.LevIsShortest | src/flaketriage/identity/similarity.py:22-50 | The row recurrence equals the length of a shortest insert/delete/replace script, and no other number does |
| Similarity.NextRow | src/flaketriage/identity/similarity.py:39-49 | One pass over a row turns the distances of a prefix to every prefix of the other string into those of the prefix one character longer |
| Similarity.RollingRow | src/flaketriage/identity/similarity.py:38-50 | The rolling row ends at the full distance of the two strings |
| Similarity.EditDistance | src/flaketriage/identity/similarity.py:22-50 | Through truncation, early returns and operand swap, the result is the length of a shortest script between the truncated strings |
| Similarity.MeasureNormalized | src/flaketriage/identity/similarity.py:53-64 | The distance over the longer compared length, zero when nothing is compared |
| Similarity.DistanceIsMetric | src/flaketriage/identity/similarity.py:22-50 | Zero exactly on equal truncations, symmetric, triangle inequality |
| Similarity.NormalizedDistanceLaws | src/flaketriage/identity/similarity.py:53-64 | Symmetric, between 0 and 1, zero exactly on equal truncations |
| DistanceFacts.NormalizedIs | src/flaketriage/identity/similarity.py:53-64 | The shortest script of the compared parts over the longer of them, zero if both are empty |
| DistanceFacts.UnlikeIsFarthest | src/flaketriage/identity/similarity.py:53-64 | Texts without a common character are at distance one |
| Truncation.TruncationAtMostDoubles | src/flaketriage/identity/similarity.py:14-26 | For all strings and every bound, the truncated distance is at most twice the real one |
| Truncation.DoublingIsReached | src/flaketriage/identity/similarity.py:14-26 | For every bound from two on, some strings at distance one are at distance two when cut, so the comment that truncation only makes strings more similar is false |
| Truncation.DoublingIsReachedIff | src/flaketriage/identity/similarity.py:14-26 | The factor two is attained if and only if the bound is at least two |
| Truncation.TruncationCanIncreaseIff | src/flaketriage/identity/similarity.py:14-26 | Truncation can increase the distance for some strings of given lengths if and only if a stated condition on the two lengths and the bound holds |
| Renames.CombinedDistanceLaws | src/flaketriage/identity/alias.py:61-65 | The weighted distance is symmetric and within 0 and 1 |
| Renames.RankMonotone | src/flaketriage/identity/alias.py:143-149 | Rounding to nine places never reverses an order of distances |
| DistanceFacts.CombinedIs | src/flaketriage/identity/alias.py:61-65 | Half the distance of the names plus half that of the suite paths |
| DistanceFacts.RankIs | src/flaketriage/identity/alias.py:143-149 | The rank is the nearest billionth, the even one if two are equally near |
| DistanceFacts.ScoredIff | src/flaketriage/identity/alias.py:83-92 | Exactly the pairs of one test from each side with equal parameters, different fingerprints and a distance within the ceiling are scored |
| Alias.CombinedDistanceOf | src/flaketriage/identity/alias.py:61-65 | Half the name distance plus half the path distance |
| Alias.Score | src/flaketriage/identity/alias.py:83-92 | The double loop scores exactly the pairs with equal parameters, different fingerprints and a distance within the ceiling |
| Alias.MarkContested | src/flaketriage/identity/alias.py:109-120 | Adds exactly the endpoints of pairs sharing an endpoint with another live pair of the tie group |
| Alias.AcceptFree | src/flaketriage/identity/alias.py:122-133 | The second pass over a tie group accepts, in order, the pairs whose endpoints are still free |
| Alias.ConflictedIff | src/flaketriage/identity/alias.py:109-113 | The two endpoint counters flag a live pair exactly when another live pair shares an endpoint with it |
| Alias.AcceptedIff | src/flaketriage/identity/alias.py:122-124 | Inside a tie group, what the second pass accepts are exactly the isolated pairs of the live graph |
| Alias.MatchGroups | src/flaketriage/identity/alias.py:96-135 | The loop over tie groups yields a matching in ascending rank that is exactly the order-free outcome |
| Alias.DetectRenames | src/flaketriage/identity/alias.py:68-135 | For distinct fingerprints and disjoint sides, the list is exactly the accepted pairs by rank then fingerprints; for any input it is a matching of scored pairs with non-decreasing ranks |
| Renames.AcceptedIsMatching | src/flaketriage/identity/alias.py:122-133 | Two accepted pairs that share an endpoint are the same pair |
| Renames.AcceptedIsStrictlyBest | src/flaketriage/identity/alias.py:96-133 | Any other scored pair that shares an endpoint at rank no larger had lost its other endpoint at a strictly smaller rank |
| Renames.RejectedIff | src/flaketriage/identity/alias.py:96-133 | A scored pair is rejected exactly when a live pair of rank no larger touches it |
| Renames.AcceptedRespectsRules | src/flaketriage/identity/alias.py:84-92 | Accepted pairs come from the two sides, have equal parameters and are within the ceiling |
| Renames.OutcomeForgetsOrder | src/flaketriage/identity/alias.py:68-135 | Reordering either input gives the identical list |
| Renames.OutcomeFlips | src/flaketriage/identity/alias.py:68-135 | Swapping the two inputs gives the same pairs reversed, sorted by the key they then have |
| DistanceFacts.AcceptedApart | src/flaketriage/identity/alias.py:96-135 | No test is in two accepted pairs, as old or as new |
| DistanceFacts.AloneIsAccepted | src/flaketriage/identity/alias.py:96-135 | A pair that shares no test with another scored pair is accepted |
| DistanceFacts.ClosestIsAccepted | src/flaketriage/identity/alias.py:96-135 | A pair that outranks every scored pair it shares a test with is accepted |
| DistanceFacts.OutcomeOrder | src/flaketriage/identity/alias.py:94-135 | The list runs by rank, and by old fingerprint among equals |
| AliasGraph.GroupsPartition | src/flaketriage/store/repositories.py:362-391 | Two groups with a common member are the same group |
| AliasGraph.GroupsGrow | src/flaketriage/store/repositories.py:330-360 | Adding and strengthening edges never splits a group |
| AliasGraph.Expand | src/flaketriage/store/repositories.py:362-391 | One worklist step: both ends of every row seen, new ones queued, doubt noted |
| AliasGraph.SearchEnd | src/flaketriage/store/repositories.py:362-391 | When the worklist is empty, what was seen is the connected component, sorted, and the flag says whether one of its edges is uncertain |
| Store.RunStore.RecordRun | src/flaketriage/store/repositories.py:178-210 | Inserts a run once and returns the row that stands for it, which has the run id, attempt and shard given |
| Store.RunStore.UpsertIdentity | src/flaketriage/store/repositories.py:212-250 | Finds or appends the identity by fingerprint, refreshing the file path, and says whether it was new |
| Store.RunStore.RecordExecutions | src/flaketriage/store/repositories.py:252-289 | Appends the executions whose (run, identity) is not there yet; inserted plus skipped is the number given |
| Store.RunStore.RecordDiff | src/flaketriage/store/repositories.py:291-328 | Keeps the first row per (run, path) and counts every file given |
| Store.RunStore.RecordAlias | src/flaketriage/store/repositories.py:330-360 | Inserts an edge or strengthens the one there, and reports true in both cases |
| Store.RunStore.IdentityGroup | src/flaketriage/store/repositories.py:362-391 | The loop terminates with exactly the connected component, and the flag is true exactly when one of its edges is uncertain |
| Store.RunStore.ExecutionsForGroup | src/flaketriage/store/repositories.py:393-406 | Reading each member with the limit, merging and cutting gives the newest records of the whole merged history |
| Store.RunStore.RecentOutcomes | src/flaketriage/store/repositories.py:466-476 | The pass flags of the newest records of the group, skips dropped after the limit |
| Store.GroupLimitPushdown | src/flaketriage/store/repositories.py:393-406 | For every limit, group and store, the limit may be applied to each member first |
| TopK.LimitPushdown | src/flaketriage/store/repositories.py:557-578 | The best k of the parts' best k are the best k of all, for any total order without ties |
| Store.IdentitiesBeforeAre | src/flaketriage/store/repositories.py:419-439 | The query returns each identity seen in a strictly earlier run once, and no other, the most recently started first, then by id |
| Store.LastStartedIs | src/flaketriage/store/repositories.py:426-434 | The start an identity is ordered by is its latest among the strictly earlier runs |
| Tables.UpsertAllTwice | src/flaketriage/store/repositories.py:212-250 | Upserting a batch of identities again changes no row |
| Tables.AddExecutionsUnique | src/flaketriage/store/repositories.py:252-289 | There is never more than one execution per (run, identity) |
| Tables.AddAliasesTwice | src/flaketriage/store/repositories.py:330-360 | Writing edges that the table already absorbs changes nothing |
| Reconcile.IdsAre | src/flaketriage/identity/reconcile.py:48-60 | The disappeared identities are those seen before and not now, the appeared ones those seen now and not before; each is listed once |
| Reconcile.SidesAreSeparate | src/flaketriage/identity/reconcile.py:48-60 | The two sides have distinct fingerprints and are disjoint, which is what the matching relies on |
| Reconcile.RecordCandidates | src/flaketriage/identity/reconcile.py:62-89 | Every candidate with two identity rows is written as an edge and reported, in order; the others are passed over |
| Reconcile.CandidatesAreKnown | src/flaketriage/identity/reconcile.py:69-71 | No candidate of a reconciliation is ever passed over |
| Reconcile.ReconcileRenames | src/flaketriage/identity/reconcile.py:36-89 | The edges written are exactly those of the matching between the disappeared and the appeared |
| Reconcile.ReconciledKeeps | src/flaketriage/identity/reconcile.py:36-89 | Reconciliation keeps the store's constraints and equal parameters along edges, and only strengthens edges |
| Reconcile.GroupSharesParameters | src/flaketriage/identity/alias.py:84-86 | All members of a group share one parameters value |
| Ingest.ResolveCases | src/flaketriage/ingest/pipeline.py:60-87 | Each case is resolved to its identity in order, new identities counted |
| Ingest.Persist | src/flaketriage/ingest/pipeline.py:60-87 | Run, identities and executions are written in that order; inserted plus skipped is the number of cases |
| Ingest.Ingest | src/flaketriage/ingest/pipeline.py:60-119 | The whole composition: run, identities, executions, reconciliation, diff, and a summary that counts inserted and skipped cases, new identities, diff files, aliases and uncertain aliases |
| IngestLaws.IngestTwice | src/flaketriage/ingest/pipeline.py:60-87 | Ingesting a batch twice in a row leaves runs, identities, executions, edges and diff rows exactly as once, and the second reconciliation finds the same pairs |
| IngestLaws.IngestKeeps | src/flaketriage/ingest/pipeline.py:60-87 | Every ingest keeps the constraints, shared parameters, and every earlier row |
| IngestLaws.EveryRunIsSound | src/flaketriage/ingest/pipeline.py:60-87 | After any sequence of ingests the constraints hold and parameters are shared along edges |
| IngestLaws.GroupsOverRuns | src/flaketriage/identity/reconcile.py:48-89 | Over any sequence of ingests: one execution per run and identity, one parameters value per group, groups only grow, certain edges stay certain |
| IngestLaws.RenameKeepsHistory | src/flaketriage/identity/reconcile.py:36-89 | If the store holds only one test and a new run holds only another within the ceiling, the new one's group history is every execution of both |
| RenameLaws.HistoryIs | src/flaketriage/store/repositories.py:393-406 | The merged history of an identity holds exactly the executions of the identities connected to it, once each |
| RenameLaws.AcceptedIsConnected | src/flaketriage/identity/reconcile.py:48-89 | Every pair that any ingest accepts joins two distinct stored identities in one group |
| RenameLaws.RenamedForGood | src/flaketriage/identity/reconcile.py:36-89 | Over any sequence of ingests: from the ingest that accepts a pair on, its two identities share one merged history with every execution of both in it, once each |
| StoredFacts.RunsAreKeyed | src/flaketriage/store/repositories.py:178-210 | Two metadata are given one row exactly when run id, attempt and shard agree, an absent shard being the empty one |
| StoredFacts.EveryCaseIsStored | src/flaketriage/store/repositories.py:252-289 | After an ingest every case of the batch has an execution, under its own identity and a run with the batch's run id, attempt and shard |
| StoredFacts.NewRunIsReported | src/flaketriage/store/repositories.py:178-289 | A run not stored before keeps its commit, branch, worker and start, and the history of each test has the first result the batch gives for it, as given |
| StoredFacts.SeenAgain | src/flaketriage/store/repositories.py:212-250 | A test seen again keeps its row and takes the new path if there is one; one seen first gets a row as it is |
| StoredFacts.EdgeAgain | src/flaketriage/store/repositories.py:330-360 | A known edge is strengthened exactly by what is new and keeps the run it was first seen in |
| StoredFacts.CertainIff | src/flaketriage/identity/alias.py:122-133 | An edge is certain exactly when it was before or an accepted pair within the certain distance says so |
| StoredFacts.NewGroupInDoubtIff | src/flaketriage/store/repositories.py:362-391 | A group that an ingest newly forms is in doubt exactly when some accepted pair in it is farther apart than the certain distance |
| StoredFacts.UncertainAre | src/flaketriage/identity/reconcile.py:31-33 | The uncertain aliases a summary counts are the accepted pairs farther apart than the certain distance |
| StoredFacts.DiffIsStored | src/flaketriage/store/repositories.py:291-328 | The first change of each path of a run is kept, and what was there stays |
| StoredFacts.NewestIs | src/flaketriage/store/repositories.py:557-578 | A limited read lists the latest started executions first and leaves out only what is no newer |
| StoredFacts.SidesMean | src/flaketriage/identity/reconcile.py:38-60 | Gone are the tests that ran in a run started before this one and not in it, new those that ran in it and in none started before |
| JunitTree.OutcomeMeaning | src/flaketriage/ingest/junit.py:33-263 | The first failure-like child decides by its tag: failure gives FAIL, error ERROR, skipped SKIP; none means PASS |
| JunitTree.RerunMeaning | src/flaketriage/ingest/junit.py:267-272 | Any rerun child is noticed, wherever it stands |
| JunitTree.OwnOutputMeaning | src/flaketriage/ingest/junit.py:273-276 | The last output child of each kind is the case's own output |
| JunitTree.CutIsPrefix | src/flaketriage/ingest/junit.py:162-211 | Every prefix of a document's events is the event sequence of a partial tree |
| JunitTree.CutWhole | src/flaketriage/ingest/junit.py:162-219 | Cutting after the last event leaves the whole document |
| JunitParser.SuiteFrame.AttachOutput | src/flaketriage/ingest/junit.py:222-234 | Sets the frame's output of that kind and leaves the other |
| JunitParser.BuildCase | src/flaketriage/ingest/junit.py:247-293 | A closed case with its path, inherited file, outcome by the tag of the first failure-like child, failure details and own output |
| JunitParser.Emit | src/flaketriage/ingest/junit.py:157-160 | A closed suite fills its output into cases that lack it and hands them to the enclosing suite or the result |
| JunitParser.HandleEvent | src/flaketriage/ingest/junit.py:166-192 | One event moves the stack, the buffers and the case depth as the machine's step does |
| JunitParser.DrainAll | src/flaketriage/ingest/junit.py:198-199 | The stack left open is emitted innermost first |
| JunitParser.ParseStream | src/flaketriage/ingest/junit.py:148-219 | The result is what the machine recovers from the events, with the warning the ending calls for |
| Junit.RunElement | src/flaketriage/ingest/junit.py:162-192 | Running over any complete element delivers exactly its recursive reading to the enclosing suite |
| Junit.EveryPrefixIsRead | src/flaketriage/ingest/junit.py:148-219 | On every truncated prefix of every document the machine recovers the top-down reading of the partial tree: own output, else that of the nearest enclosing suite declaring some by then |
| Junit.WholeDocumentIsRead | src/flaketriage/ingest/junit.py:148-219 | On the whole document that is the recursive reading of the tree |
| Junit.ExactlyTheClosedCases | src/flaketriage/ingest/junit.py:180-211 | For any event sequence, the result is exactly the cases that closed, once each, in document order, never replacing output a case has |
| JunitCases.EveryCaseIsRecovered | src/flaketriage/ingest/junit.py:148-305 | Every testcase of a document that stands in no other is recovered with its own attributes, the innermost declared file, its outcome and details by its children, and its own output or else that of the innermost suite declaring some |
| JunitCases.DetailsMeaning | src/flaketriage/ingest/junit.py:256-272 | Type, message and trace are those of the deciding child, or of the first rerun with a message while there is none |
| JunitCases.PathSegments | src/flaketriage/ingest/junit.py:281 | With no slash in a name, the path splits back into the named suites, outermost first |
| Ranges.CanonicalUnique | src/flaketriage/ingest/diff.py:246-253 | A sorted, disjoint, non-adjacent range list is determined by the lines it covers |
| Ranges.MergeRanges | src/flaketriage/ingest/diff.py:246-253 | Merging gives the canonical list of the covered lines |
| Ranges.MergingForgets | src/flaketriage/ingest/diff.py:246-253 | Merging is idempotent and depends only on the covered lines |
| Ranges.RangesFromLines | src/flaketriage/ingest/diff.py:236-243 | Runs of consecutive lines become ranges covering exactly those lines |
| Hunks.HunkState.Consume | src/flaketriage/ingest/diff.py:199-212 | One body line moves the cursors and is collected as the hunk's grammar says |
| Hunks.HunkState.Commit | src/flaketriage/ingest/diff.py:214-228 | Adds exactly the lines collected, or those of the header when no change was seen |
| HunkFacts.LineKinds | src/flaketriage/ingest/diff.py:199-212 | A plus that is not three is an addition, a minus that is not three a removal; a blank, a tab or nothing is context |
| HunkFacts.CursorIs | src/flaketriage/ingest/diff.py:185-212 | A cursor starts at the header's line or at one and has moved once for each line of its side |
| HunkFacts.HeaderAlone | src/flaketriage/ingest/diff.py:220-228 | A header alone stands for as many lines as it counts, from where it starts, on each side |
| HunkFacts.HunksAreRead | src/flaketriage/ingest/diff.py:145-158 | What is written hunk by hunk, after any lines before the first header, is read as those hunks |
| Hunks.FileAccumulator.Finish | src/flaketriage/ingest/diff.py:53-63 | The finished ranges are the merged ones |
| Hunks.ParseFile | src/flaketriage/ingest/diff.py:149-158 | Over a file's lines, the finished ranges are canonical and cover exactly what the hunks commit |
| DiffMeaning.HunkExactIff | src/flaketriage/ingest/diff.py:199-228 | A hunk contributes exactly the changed lines of a side if and only if no change of that side is hidden by a "++" or "--" start, or, when none is visible, it has no context |
| DiffMeaning.HeaderExactIff | src/flaketriage/ingest/diff.py:214-228 | Without visible changes the header gives the changed lines exactly when the hunk has no context |
| DiffMeaning.ZeroContextHeader | src/flaketriage/ingest/diff.py:214-228 | A zero-context hunk gives the same lines from its header alone as from its body |
| DiffMeaning.HiddenAddition | src/flaketriage/ingest/diff.py:199-203 | A concrete hunk that loses an added line beginning with "++" |
| DiffMeaning.FileRangesAreChangedLines | src/flaketriage/ingest/diff.py:170-253 | For hunks of which the parser sees each edit as one line, the finished ranges are the one canonical list of exactly the changed lines, if the condition holds of every hunk |
| DiffMeaning.FileExactIff | src/flaketriage/ingest/diff.py:170-253 | For such hunks with an unchanged line between any two, the ranges are exactly the changed lines if and only if no hunk hides a change, all-hidden context hunks included |
| DiffMeaning.ExtraInFile | src/flaketriage/ingest/diff.py:220-228 | A context hunk whose changes are all hidden makes the line after it look changed |
| DiffMeaning.LostInFile | src/flaketriage/ingest/diff.py:199-218 | A hunk that shows one change and hides another loses a changed line |
| DiffMeaning.AdjacentHunksCanCancel | src/flaketriage/ingest/diff.py:214-228 | With nothing between two hunks a hidden change can go unnoticed, so the separation is needed |
| LineBreaks.SplitIs | src/flaketriage/ingest/diff.py:89 | Splitting gives lines without a break that, with a break after each, are the text again; a return and its feed are one break |
| LineBreaks.OneLineEachIff | src/flaketriage/ingest/diff.py:89-90 | The parser sees one line for each written line if and only if none has a break character inside; then it sees them without a final carriage return |
| DiffText.TextHunkExactIff | src/flaketriage/ingest/diff.py:199-228 | Whatever its lines hold: unless a stray piece makes up for a hidden change, a hunk contributes exactly the changed lines of a side if and only if nothing is hidden, no piece is counted and no change follows a piece taken for context; or, when no change is visible, it has no line of the side or no context |
| DiffText.FormFeedShifts | src/flaketriage/ingest/diff.py:89 | Adding a form-feed line and then a line: lines 1 and 3 are collected for 1 and 2 |
| DiffText.BreakMakesUpForHidden | src/flaketriage/ingest/diff.py:89 | A hidden change and a piece counted in its stead come out right, so that case is excluded |
| DiffText.TextFileRanges | src/flaketriage/ingest/diff.py:89-253 | Whatever the lines hold, if the condition holds of every hunk the finished ranges are the one canonical list of exactly the changed lines |
| DiffText.TextFileExactIff | src/flaketriage/ingest/diff.py:89-253 | The condition is necessary too if no hunk takes a line another changed and no piece makes up for a hidden change |
| DiffText.UnbrokenFileExactIff | src/flaketriage/ingest/diff.py:89-253 | For text with no break inside a written line and an unchanged line between any two hunks, the exact condition is that of the edits alone |
| History.GroupRecords | src/flaketriage/detect/history.py:193-206 | The loop splits the records into infrastructure failures and one group per commit in order of first appearance, counting skips |
| History.BuildHistory | src/flaketriage/detect/history.py:187-210 | The windows are the groups of the kept records, ordered by start then commit |
| HistoryLaws.SummariesForgetOrder | src/flaketriage/detect/history.py:187-210 | Any reordering, and any insertion of infrastructure failures, leaves the sequence of commits, starts, statuses and counts as it was |
| HistoryLaws.NothingLost | src/flaketriage/detect/history.py:187-210 | Every record is excluded or in exactly one window; observations are the records neither excluded nor skipped |
| HistoryFacts.WindowsAre | src/flaketriage/detect/history.py:187-211 | One window for each commit with a record not put down to the platform, holding just those records of the commit in their order; windows by first start and then sha; platform errors and skips counted |
| Rates.ComputeEwma | src/flaketriage/detect/rates.py:32-39 | The smoothing loop evaluates the recursive average, zero on nothing |
| Rates.EwmaIsWeightedSum | src/flaketriage/detect/rates.py:32-39 | It equals a closed weighted sum of all the values |
| Rates.WeightsAreConvex | src/flaketriage/detect/rates.py:32-39 | The weights are non-negative and sum to one |
| Rates.EwmaStaysBetween | src/flaketriage/detect/rates.py:32-39 | It never leaves the range of its inputs |
| Rates.TrailingZeros | src/flaketriage/detect/rates.py:32-39 | k trailing zeros scale it by the k-th power of one minus alpha |
| Rates.ComputeIntermittency | src/flaketriage/detect/rates.py:63-80 | The loop over consecutive statuses computes the smoothed flips |
| Rates.RatesAreFractions | src/flaketriage/detect/rates.py:42-88 | All three rates are between 0 and 1 |
| Rates.Recovery | src/flaketriage/detect/rates.py:83-88 | After k passing data windows the flake rate is at most the (k-1)-th power of one minus alpha, whatever came before |
| RateLaws.IntermittencyMeaning | src/flaketriage/detect/rates.py:63-80 | The flip rate is positive exactly if two data windows in a row differ or one diverged, one exactly if all do, and at least alpha or at most one minus alpha by the last two |
| RateLaws.DivergenceMeaning | src/flaketriage/detect/rates.py:42-60 | The divergence rate is positive exactly if a commit diverged, one exactly if all did, and at least alpha or at most one minus alpha by the latest |
| RateLaws.DataInOrder | src/flaketriage/detect/rates.py:57-70 | The windows that count are those with an observation or a rerun, in their order |
| RateLaws.FlakeRateIs | src/flaketriage/detect/rates.py:83-88 | The headline rate is that of divergence as soon as some commit was observed twice |
| Detector.ComputeRegression | src/flaketriage/detect/detector.py:88-126 | The two counting loops find the trailing streaks |
| Detector.RegressionIff | src/flaketriage/detect/detector.py:88-126 | A regression is found exactly when nothing diverged and the data ends in enough passes then a maximal block of enough failures, and the pivot is the first of that block |
| Detector.DivergenceWins | src/flaketriage/detect/detector.py:282-315 | One diverged commit decides FLAKY, whatever else |
| Detector.RegressionVerdictIff | src/flaketriage/detect/detector.py:238-315 | The verdict is REGRESSION exactly when a regression is found |
| Detector.SignalsForgetOrder | src/flaketriage/detect/detector.py:56-126 | Rates, divergence and regression do not change under reordering or insertion of infrastructure failures |
| Detector.ReportedObservations | src/flaketriage/detect/detector.py:218-275 | The counts a detection reports add up to the records it was made from |
| Verdicts.VerdictIff | src/flaketriage/detect/detector.py:282-315 | Each of the five verdicts holds exactly under its own condition on the windows and their records |
| Verdicts.ConfidenceIff | src/flaketriage/detect/detector.py:195-215 | The confidence of each verdict follows from diverged commits, the length of the break, and the data behind it |
| Verdicts.DetectionReports | src/flaketriage/detect/detector.py:218-275 | The rates, counts, signals and pivot a detection reports are those of its windows |
| Verdicts.EvidenceCounts | src/flaketriage/detect/detector.py:56-195 | A signal counts the observations of the diverged commits, the commits that passed on the main branch, or all observations |
| Verdicts.SummaryOf | src/flaketriage/detect/history.py:48-120 | What a window's summary says of its records: observations, passes, failures, reruns, attempts and first start |
| DetectAll.DetectOne | src/flaketriage/detect/detector.py:345-375 | A group gives the report on its merged history, or none exactly when there is nothing to report |
| DetectAll.Scan | src/flaketriage/detect/detector.py:334-375 | The loop reports each logical test at most once, from the candidates, and misses none |
| DetectAll.Detect | src/flaketriage/detect/detector.py:318-378 | So does the whole operation, whose list runs from the highest flake rate down, then by name |
| DetectAll.SinceIs | src/flaketriage/detect/detector.py:353-354 | The evidence is the windowed records started at or after the cutoff, all of them and in order |
| DetectAll.ReportOrder | src/flaketriage/detect/detector.py:370 | A report lists higher rates first and equal ones by displayed name |
| Quarantine.RecommendedIff | src/flaketriage/policy/quarantine.py:168-203 | A recommendation is made exactly when the deterministic conditions hold and the model does not veto |
| Quarantine.RefusalIff | src/flaketriage/policy/quarantine.py:168-188 | Each refusal reason is reported exactly when it is the first that applies |
| Quarantine.ModelOnlyVetoes | src/flaketriage/policy/quarantine.py:168-203 | Whatever is recommended with a classification is recommended, with the same limits, without one |
| Quarantine.RegressionIsNeverQuarantined | src/flaketriage/policy/quarantine.py:168-177 | A regression found in the history is refused, as a regression, for every classification |
| Quarantine.RecoveredIsNeverQuarantined | src/flaketriage/policy/quarantine.py:181-188 | Once the recovery bound is at or below the threshold, no quarantine is recommended |
| Quarantine.ConsecutiveCleanRuns | src/flaketriage/policy/quarantine.py:206-218 | Counts the passes before the first failure, newest first |
| Records.QuarantineStore.RecordRecommendation | src/flaketriage/policy/records.py:59-100 | Appends an open row unless not recommended or one is open for the identity |
| Records.QuarantineStore.Record | src/flaketriage/policy/records.py:188-195 | Records each in turn and counts the rows added |
| Records.QuarantineStore.Close | src/flaketriage/policy/records.py:131-147 | Closes the row if it is open, else changes nothing |
| Records.QuarantineStore.ExpireOverdue | src/flaketriage/policy/records.py:150-168 | Closes exactly the open rows whose expiry has passed |
| Records.QuarantineStore.Release | src/flaketriage/policy/records.py:207-214 | Closes the row as released if it is open |
| Records.ListingIs | src/flaketriage/policy/records.py:113-128 | The listing holds every open row exactly once, by expiry and then by id |
| RecordLaws.RecordAllKeeps | src/flaketriage/policy/records.py:59-100 | Recording keeps one open row per identity and every earlier row |
| RecordLaws.ExpireKeeps | src/flaketriage/policy/records.py:150-168 | Expiring keeps the table sound and leaves nothing overdue |
| Policy.ReleaseOne | src/flaketriage/cli.py:480-485 | One listed record is released exactly when its test's clean runs suffice |
| Policy.ReleaseEarned | src/flaketriage/cli.py:480-485 | The release loop closes exactly the open rows whose tests earned it |
| Policy.RunPolicy | src/flaketriage/cli.py:454-487 | Expire, evaluate against what is still open, record, release; without --apply nothing changes |
| PolicyLaws.EveryLifecycleIsSound | src/flaketriage/policy/records.py:59-214 | Over every sequence of record, expire, release and apply steps: one open row per identity, closed rows say why, expired ones were overdue when closed |
| PolicyLaws.ClosedIsForever | src/flaketriage/policy/records.py:131-147 | From any point of any sequence on, closed rows never change and open ones keep what they recorded |
| PolicyLaws.ReleaseIff | src/flaketriage/policy/quarantine.py:206-228 | The release rule holds exactly when the newest records hold enough passes before any failure, skips ignored |
| PolicyLaws.RecommendIff | src/flaketriage/policy/quarantine.py:168-203 | A test is recommended exactly when the evidence condemns it, its classification does not veto, and its identity has no open row |
| PolicyLaws.ReleasesAreEarned | src/flaketriage/cli.py:480-485 | Every row an apply releases had that history, and records the count |
| PolicyLaws.NeverReleased | src/flaketriage/store/repositories.py:466-476 | A row whose requirement exceeds the 50 executions looked at is left as it is |
| PolicyLaws.ReleasableIff | src/flaketriage/store/repositories.py:466-476 | Some valid store releases some open row if and only if the requirement is at most the 50 executions looked at |
| PolicyLaws.LimitHidesIff | src/flaketriage/store/repositories.py:466-476 | The limit is applied before skips are dropped: a stretch that is clean on the whole history counts exactly when the newest 50 executions hold enough passes |
| PolicyLaws.NothingOverdue | src/flaketriage/cli.py:454-485 | After an apply no open record is overdue |
| Expiry.AddedRows | src/flaketriage/policy/quarantine.py:190-203 | Each row an apply adds records one of its detections and expires ttlDays times 24 * 60 * 60 seconds after its creation |
| Expiry.NeverExpiredEarly | src/flaketriage/policy/records.py:150-167 | Whatever is done, such a row is never expired before its days are over |
| Expiry.ExpiresIff | src/flaketriage/policy/records.py:150-167 | An expiry closes it exactly when its days are over by then |
| Expiry.ApplyExpiresIff | src/flaketriage/cli.py:454-485 | So does an apply, which otherwise leaves it alone or releases it |
| PolicyLaws.ApplyTwiceIff | src/flaketriage/cli.py:454-485 | Repeating an apply at the same instant changes nothing if and only if no test is both condemned and clean, whatever the table held |
| PolicyLaws.ReleasedNothingIsFixpoint | src/flaketriage/cli.py:454-485 | An apply that released nothing is a fixpoint |
| ApplyAgain.ApplyingAgainChanges | src/flaketriage/cli.py:454-485 | A valid store with a failure and a newer pass at one commit, under one name or two, and the detection made of it: repeating an apply always changes the table |
| ApplyAgain.IsReported | src/flaketriage/detect/detector.py:334-368 | With a window of at least two executions the detector does report that test, whatever the patterns, thresholds and branch context |
| LogicalTests.DoubledIff | src/flaketriage/policy/quarantine.py:10-15 | After an apply a logical test has two open quarantines if and only if its clean runs do not release it and it had two that did not expire, or is condemned while one is open under another of its identities |
| LogicalTests.ReleasedTogether | src/flaketriage/cli.py:478-485 | The open rows of one logical test are released together or not at all |
| LogicalTests.NoRenamesNoDoubles | src/flaketriage/policy/quarantine.py:10-15 | Without renames an apply never leaves two open quarantines for a test |
| LogicalTests.QuarantinedTwice | src/flaketriage/policy/records.py:59-99 | A valid store whose quarantined test was renamed, with the detection made of it: an apply quarantines it a second time |
| Guardrails.StripIs | src/flaketriage/classify/schema.py:262-270 | Stripping leaves nothing exactly of a blank text, else starts with a visible character |
| Guardrails.CleanEvidence | src/flaketriage/classify/schema.py:262-270 | The loop with its early exit keeps the first six visible items, stripped and clipped |
| Guardrails.CleanedIsCitable | src/flaketriage/classify/schema.py:262-270 | Kept items are short and never blank, and none is kept exactly when all were blank |
| Guardrails.GuardrailsIff | src/flaketriage/classify/schema.py:207-259 | A cause survives exactly when the model committed to it, cited something visible and met the floor; every result is trusted |
| Guardrails.ParsedIsTrusted | src/flaketriage/classify/schema.py:156-204 | Every parse result is trusted, and malformed text always abstains |
| EvidenceFacts.EvidenceIs | src/flaketriage/classify/schema.py:262-270 | The evidence kept is that of the first six items with something visible, in order, each stripped and cut to 300 characters |
| EvidenceFacts.StripBoth | src/flaketriage/classify/schema.py:265 | Stripping takes the blanks off both ends and nothing else |
| Reasons.GuardrailReasons | src/flaketriage/classify/schema.py:207-259 | Each downgrade of a shaped answer is made exactly when it is the first that applies |
| Cache.KeyIsInjective | src/flaketriage/classify/cache.py:35-38 | Requests of which neither name holds a separator share a key only if they are the same |
| Cache.KeysMeetIff | src/flaketriage/classify/cache.py:35-38 | Exact condition: requests under two pairs of model and version can have one key if and only if the names of one, as the key writes them, begin with those of the other |
| Cache.SeparatorCollides | src/flaketriage/classify/cache.py:35-38 | With one prompt version and a separator in a model name, two different requests have one key |
| Cache.ModelIdIsInjective | src/flaketriage/classify/classifier.py:186-196 | Gated and ungated runs, and different gates, share no entry, unless one classifier is named like another with a gate marked on |
| Cache.IdsCollideIff | src/flaketriage/classify/classifier.py:186-196 | Two choices of classifier and gate can share an identity if and only if one classifier's name starts with the other and the gate mark |
| Cache.ContextIsInKey | src/flaketriage/classify/cache.py:35-38 | Within one configuration equal keys mean equal contexts, whatever the names hold |
| Cache.ClassificationCache.Get | src/flaketriage/classify/cache.py:63-81 | Finds the entry when enabled, counting hits and misses |
| Cache.ClassificationCache.Put | src/flaketriage/classify/cache.py:83-104 | Stores unless disabled or transient, counting writes |
| Classifier.Classifier.Call | src/flaketriage/classify/classifier.py:410-455 | One call appends one record with its cost |
| Classifier.Classifier.Prefilter | src/flaketriage/classify/classifier.py:391-408 | Turns away only on a readable negative answer |
| Classifier.Classifier.ClassifyWithRepair | src/flaketriage/classify/classifier.py:314-389 | One classification, and one repair if the answer was malformed and the budget allows |
| Classifier.Classifier.Ask | src/flaketriage/classify/classifier.py:290-312 | Budget check, gate, classification, in that order, with no check between the last two |
| Classifier.Classifier.ClassifyOne | src/flaketriage/classify/classifier.py:263-312 | Cache, then asking, then storing |
| Classifier.Classifier.ClassifyMany | src/flaketriage/classify/classifier.py:224-261 | The batch in order of priority, cut at the cap, by identity |
| Reasons.BudgetIff | src/flaketriage/classify/classifier.py:198-222 | A call is refused exactly when the ceiling is reached or the mean paid call would go beyond it; the gate does not count as paid |
| Reasons.AskedReasons | src/flaketriage/classify/classifier.py:288-312 | Refusal for the budget, being turned away by the gate, and being asked, each exactly when it applies, with the calls recorded |
| Reasons.AnswerReasons | src/flaketriage/classify/classifier.py:314-389 | Each reason of an answer exactly when the replies call for it, the repair with its quoted 800 characters, the calls and the counters |
| Reasons.Counted | src/flaketriage/classify/classifier.py:263-312 | Hits, misses, writes and entries after one classification |
| Reasons.KeyIs | src/flaketriage/classify/cache.py:35-38 | The key is format, model identity with its gate, prompt version and context, one separator between any two |
| SpendLaws.SpendIsBounded | src/flaketriage/classify/classifier.py:205-222 | For any client over any run, spend is zero or below the budget plus one gate call and one other call, or plus one call with the gate off |
| SpendLaws.SpendAtOnePrice | src/flaketriage/classify/classifier.py:198-222 | With the gate off and one price, spend is at most the larger of budget and price |
| SpendTight.BoundIsTight | src/flaketriage/classify/classifier.py:290-312 | Some client within the caps comes as close to that bound as wanted |
| SpendTight.OneCallIsNotEnough | src/flaketriage/classify/classifier.py:205-218 | The ceiling plus any one call is not a bound when the gate is on |
| SpendTight.OneCallBoundsIff | src/flaketriage/classify/classifier.py:205-222 | The documented guarantee, ceiling plus one call for every client and run, holds if and only if the gate is off or a kind of call, or everything, is free |
| SpendTight.ExhaustedStaysPut | src/flaketriage/classify/classifier.py:219-220 | Once the budget is spent no run makes another call |
| CacheLaws.EveryResultIsTrusted | src/flaketriage/classify/schema.py:207-270 | Over any run every fresh or cached result is trusted, transient abstentions are never stored, and entries never change |
| Remembered.NoPassingEntries | src/flaketriage/classify/cache.py:83-104 | After any run no entry has an API error, a spent budget or a missing model as its reason |
| Remembered.ServedAgain | src/flaketriage/classify/cache.py:63-104 | Any other answer is given again without a call, whatever is asked of whomever in between |
| Remembered.AskedAgain | src/flaketriage/classify/cache.py:83-104 | An answer with one of those reasons leaves the entries as they were |
| CacheLaws.MeetsFloorIff | src/flaketriage/classify/classifier.py:263-312 | For any cache, client and run: an answer within the cap meets the confidence floor in force if and only if the cache did not begin with an entry for its subject that does not |
| CacheLaws.RaisedFloorServesStale | src/flaketriage/classify/classifier.py:279-288 | A result stored at confidence 0.6 is served unchanged after the floor was raised to 0.8 |
| CacheLaws.EverySubjectSettlesOnce | src/flaketriage/classify/classifier.py:263-389 | Each subject is served, refused, turned away or put to the classifier, exactly once; repairs are counted with their calls |
| CacheLaws.BatchIsComplete | src/flaketriage/classify/classifier.py:241-252 | A batch answers every identity given and no other |
| CacheLaws.UrgentFirst | src/flaketriage/classify/classifier.py:238-252 | What the cap leaves out abstains explicitly, and has no higher flake rate, nor more observations at an equal one, than what was asked |
| CacheLaws.TiesKeepOrder | src/flaketriage/classify/classifier.py:239 | Equally urgent detections are asked in the order they came |
| CacheLaws.WithinCapIsAsked | src/flaketriage/classify/classifier.py:241-250 | Every subject within the cap is classified in the state the ones before it left |
| CacheLaws.AnswersByIdentity | src/flaketriage/classify/classifier.py:241-252 | The batch gives each identity the answer to the last detection that has it |
| Transparency.AskedIsIdeal | src/flaketriage/classify/classifier.py:290-389 | With a functional client and room in the budget, the answer and its cost depend on the prompts alone |
| Transparency.CacheIsTransparent | src/flaketriage/classify/classifier.py:263-312 | Then any sequence is answered the same with the cache as without, at no greater cost, if the gate decides by the context |
| Transparency.PairIff | src/flaketriage/classify/classifier.py:300-310 | For two detections with one context the answers agree exactly when the gate treats both alike or the first answer was transient |
| Sharing.RunIsServed | src/flaketriage/classify/classifier.py:279-312 | With room in the budget each answer of a run is the entry the cache began with, or else the first kept answer on the same context, or else what asking gives |
| Sharing.SharingIff | src/flaketriage/classify/classifier.py:263-312 | For any sequence from an empty cache the answers are those without a cache if and only if the gate treats each detection like the first one on its context whose answer was kept |

## Left out

- SQLite, files, git, subprocesses, the network client, Typer and Rich: the store is tables of rows, the cache a map, the client an oracle.
- XML tokenising, attribute cleaning, numbers and durations in attributes, the DOCTYPE screen: the parser starts from events whose attributes are already cleaned.
- Event streams that end without closing every element yet without a parse error: well-formed XML has none.
- JSON parsing, code fences and schema validation: a response text carries what the validators make of it.
- Regular expressions and file headers of diffs (paths, renames, binary markers): the diff model starts from the text of the hunks of one file, headers already matched. A piece of a broken line that looks like a file or hunk header, which the parser would take for one, is not modelled.
- Prompt, evidence and reasoning wording, latencies and token counts: no decision reads them. Contexts are given texts.
- Infrastructure patterns and footprint matching: uninterpreted predicates of a record and of a history.
- `ShaWindow.branch`, `latest_failure` and failing shards: they depend on the order records arrive in and feed wording or the branch signal only; the branch signal is a parameter.
- Parse-warning rows, `last_seen` and `created_at` stamps: re-ingesting repeats the first and refreshes the others, so they are outside the idempotence claim, and a summary's warnings are left out.
- Float rounding: reals are exact, except the ninth-decimal rank that decides ties, which is rounded half to even.
- Collisions of SHA-256: a key stands for the text it digests. Unreadable and unwritable cache files.
- Owners, CODEOWNERS, `is_expiring` and the wording of close reasons: plumbing around the decisions.
- Timestamps taken separately within one command: an apply happens at one instant, and expiry times are always readable.
- Renderers, Prometheus output, pricing lookup, configuration loading, migrations, eval scoring: easy members only.
- Truncation.TruncationCanIncreaseIff: decides by the two lengths whether some strings of those lengths are affected, not which ones.
- DiffMeaning.FileExactIff: supposes an unchanged line between any two hunks; DiffMeaning.AdjacentHunksCanCancel shows why. Sufficiency (DiffMeaning.FileRangesAreChangedLines) supposes nothing.
- DiffText.TextFileExactIff: supposes that no hunk takes a line that another one changed; sufficiency (DiffText.TextFileRanges) supposes nothing.
