# Verified models of the RenderDoc command-line tools

A Dafny project about the algorithmic parts of this repository: how captured API calls are projected and
paged, how an Android device is prepared and cleaned up, how recent artifacts are kept, how arguments are
checked and extracted, how files are published, and how ELF and APK files are read. Verify everything with
`dafny verify dfyconfig.toml`.

## What is modelled

**Captured calls** (`StructuredObject.dfy`, `ProjectionOrder.dfy`, `CallQueries.dfy`, `Crawl.dfy`). A structured object is a finite
tree. `StructuredObject` is the recursive method with its shared one-cell node budget, its depth cap of 12
and its string windows of 4096 characters; it is proved equal to the function `Project`, of which the budget
laws, the resume tokens and the exactly-once law are proved; `ProjectionOrder` says which nodes a reply holds,
namely the first ones in preorder. `QueryCalls` is the explicit-stack search, the
path walk and the paged row loop. `Crawl` is a client that asks again at every reported path and offset; it
reads no tree itself (its tree parameters are ghost), and what it collects is the original tree.

**Android preparation** (`AndroidInstall.dfy`, `AndroidTrace.dfy`, `AndroidBootstrap.dfy`, `AdbFrames.dfy`).
Devices and the ADB server answer nondeterministically, cancellation may strike whenever the remaining time is
asked for, the helper's processes come and go after a launch, and the connection delivers bytes in any
segmentation. A trace records every command, every look and every change on the device, and `faults` every answer that is an
error, so the guards ("only after such an observation"), the leftovers and the causes of every failure are
statements about whole runs.

**Recent artifacts** (`Sorting.dfy`, `RecentArtifacts.dfy`, `RetentionHistory.dfy`, `RetentionAgreement.dfy`,
`RetentionExamples.dfy`). Trimming is a stable sort, a deduplication by path, a quota per type and a total quota. A
run of merges is compared with one trim of the full history, on any clock; `RetentionAgreement` says exactly when
the two agree.

**Arguments** (`SchemaValidation.dfy`, `JsonAgreement.dfy`, `ArgsScanner.dfy`). The validator is compared with a
declarative semantics of its keywords, that semantics with JSON Schema's own equality and integers, and the
scanner with a grammar of JSON texts that leaves a printer all of its freedom in white space and escapes.

**Publishing** (`AtomicSwap.dfy`, `RuntimePublish.dfy`, `ReleaseAcceptance.dfy`). Each rename may fail or be
interrupted, before or after it took effect.

**Binary identities** (`Bytes.dfy`, `ElfNotes.dfy`, `ApkSigners.dfy`). Readers in the source's loops, proved
equal to functions, and those proved to undo encoders: notes in program-header order as in the System V gABI
("Note Section"), the APK Signature Scheme v2/v3 block, and the end record of section 4.3.16 of PKWARE APPNOTE.

**Small cores** (`PreorderSlice.dfy`, `Durations.dfy`, `FitBounds.dfy`). Subtree slices of a flattened forest,
interpolated percentiles, and fitting a rectangle into bounds.

`Wrappers.dfy`, `PythonText.dfy` and `Forests.dfy` hold options and results, Python's white-space classes, and
preorder.

## Where the code differs from what one might expect

The models follow the code. Each of these differences is a theorem with its exact condition:

- A page of one node never advances a branch, so a crawl needs two: `OneNodePageIsStuck`.
- Incremental retention and the full history can part ways. On any clock and for any types, batches and limits, a
  merge agrees exactly when `KeepsUp` holds of the deduplicated history, the merge and the limits before it:
  `MergeAgreesIff`; and a run agrees after every merge exactly when every merge keeps up: `RunAgreesIff`. Types that
  stay and reports no older than their path's entries are enough: `RunAgreesWithHistory`. A path that changes its
  type on an advancing clock can break agreement, with limits that drop something (`ArrivalAgreesIff`,
  `BatchAgreesIff`, `SlackAgrees`); `TypeChangeBreaksAgreement` is an instance.
- So can a clock that steps back. A single report agrees, when no entry of its path is newer, exactly if no dropped
  entry that is no newer than it finds a place after it; and when one is newer, exactly if that entry was dropped and
  the report finds no place among those kept: `ReportAgreesIff`. Under a limit that drops nothing of the list before,
  it agrees exactly when no entry of its path is newer: `UntrimmedReportAgreesIff`; `ClockStepsBack` is an instance.
- `enum` counts booleans as numbers, at any depth. It accepts what JSON Schema accepts exactly when every variant
  of a listed value is listed: `EnumAgreesIff`; for scalars, when `True` is listed iff 1 is and `False` iff 0 is:
  `ScalarEnumAgreesIff`. `EnumConfusesTrueWithOne` and `EnumConfusesNestedTrue` are instances.
- `integer` excludes exactly the floats without a fractional part: `IntegerDiffersIff`.
- A total limit below one, set directly on a policy, keeps one entry: `ZeroTotalKeepsOne`.
- A read outside an ELF image happens exactly for a supported 64-bit image shorter than 58 bytes: `StructErrorIff`.
- A forward that took effect although its command was reported as failed is not recorded, so cleanup leaves it:
  `Prepare`, where a clean cleanup leaves the port mapped iff it was mapped before or `lost` says just that.
- A failed preparation with a clean cleanup leaves a helper process behind exactly when it appeared, or was there
  before, and no readable probe looked after that: `Prepare` and `UnseenIff`; `HelperStaysBehind` is such a run.
- Runtime publishing loses the previous tree when it is stopped right after the rename into the backup took
  effect (`lateStop`) and the stage is then removed; if that removal fails, the tree stays in the stage, whole or
  damaged: `PublishRuntime`.
- Release acceptance keeps a file whose move raised after taking effect (`late`), and, where a rename replaces
  files, its rollback removes a package that had appeared meanwhile (`replaced`): `AcceptRelease`.

## Model

| member | source | states |
|---|---|---|
| CaptureTree.StructuredObject | rdc_tool/core/capture_queries.py:25-70 | the budgeted recursion and its child loop return the projection that `Project` defines and leave exactly its budget, error cases included |
| CaptureTree.ProjectFailsIff | rdc_tool/core/capture_queries.py:29-56 | which of the three errors a projection ends with, and exactly when; a failed one takes its own node only |
| CaptureTree.BudgetConserved | rdc_tool/core/capture_queries.py:29-47 | one projection emits exactly as many nodes as it takes from the budget, which never goes negative |
| CaptureTree.ChildBudgetConserved | rdc_tool/core/capture_queries.py:40-44 | the same for a run of children |
| CaptureTree.FillIsFaithful | rdc_tool/core/capture_queries.py:32-47 | every projection agrees with the tree at its path, field by field: name, type, base type, size and value as the object holds them, text windows of at most 4096 characters, a contiguous run of children with their own paths, and omission counts and resume tokens that name exactly the rest |
| CaptureTree.ChildrenAreFaithful | rdc_tool/core/capture_queries.py:40-44 | each emitted child is such a projection of the child with its index |
| CaptureTree.BranchAdvancesIff | rdc_tool/core/capture_queries.py:41-47 | a branch with children left moves its resume token exactly when the page holds two nodes or more |
| CaptureTree.TextAdvances | rdc_tool/core/capture_queries.py:54-60 | a resumed string always yields characters, whatever the budget |
| CaptureTree.ShownOnceOrInOneGap | rdc_tool/core/capture_queries.py:36-47 | every node of the requested tree is emitted once or lies in exactly one emitted node's skipped or omitted child range, never both |
| CaptureTree.NothingElsewhere | rdc_tool/core/capture_queries.py:43-44 | a projection neither shows nor omits anything outside its own path |
| ProjectionOrder.FillIsPreorderPrefix | rdc_tool/core/capture_queries.py:29-47 | a projection emits exactly the first nodes, in preorder, of those down to depth 12 from the child offset on, as many as the budget allows |
| ProjectionOrder.ChildrenArePreorderPrefix | rdc_tool/core/capture_queries.py:40-44 | the same for a run of children |
| CallQueries.FindEvent | rdc_tool/core/capture_queries.py:83-95 | the explicit-stack search returns the answer of the first matching action in recursive preorder, or none |
| CallQueries.PopAndPush | rdc_tool/core/capture_queries.py:85-86 | one pop with its reversed push visits the top and leaves the rest of the preorder pending, with strictly less left to visit |
| CallQueries.FirstAnswerIsEarliest | rdc_tool/core/capture_queries.py:87-95 | nothing is found iff no action matches by own id or contained event; otherwise the first that matches decides |
| CallQueries.AnswerIs | rdc_tool/core/capture_queries.py:88-93 | an action that matches by its own id answers with all its events' chunks; one that matches through its events only with those of that event, and with at least one |
| CallQueries.EventsWithAppends | rdc_tool/core/capture_queries.py:90-91 | exactly the events with the asked id are taken, in order |
| CallQueries.AssociationsAre | rdc_tool/core/capture_queries.py:79-95 | the chunks of a query are the listed ones without an event, or what the search finds |
| CallQueries.Walk | rdc_tool/core/capture_queries.py:106-110 | following an object path can fail in one way only |
| CallQueries.WalkPath | rdc_tool/core/capture_queries.py:107-110 | the loop over the path reaches the object that the recursive walk reaches, or fails with it |
| CallQueries.WalkExtends | rdc_tool/core/capture_queries.py:107-110 | each step of a path leads to the child with its index, and fails iff there is none |
| CallQueries.WalkedPathIsNat | rdc_tool/core/capture_queries.py:107-109 | a path that can be followed holds no negative index |
| CallQueries.CollectRows | rdc_tool/core/capture_queries.py:101-113 | the row loop under the shared budget returns the rows of the specification and leaves its budget; what those rows show is `RowsShowLinks` |
| CallQueries.QueryCalls | rdc_tool/core/capture_queries.py:73-118 | the whole query in order: missing data, unknown event, chunk out of range, continuation over several chunks, rows, next offset, exhaustion flag |
| CallQueries.QueryShowsLinks | rdc_tool/core/capture_queries.py:98-116 | for every row of every successful reply: it carries the chunk and the event of the association at its place, and is the faithful projection of that chunk's object at the path, with the first nodes in preorder that the budget left by the rows before it allows |
| CallQueries.RowsShowLinks | rdc_tool/core/capture_queries.py:103-113 | the same for the rows of any list of associations and any budget |
| CallQueries.RowsStopForBudget | rdc_tool/core/capture_queries.py:103-105 | rows end before the associations only when the budget is used up |
| CallQueries.QueryFrames | rdc_tool/core/capture_queries.py:98-118 | every successful reply gives its offset and the number of associations, at most `limit` rows, and fewer than asked for and there are only when it is exhausted |
| CallQueries.QueryRefusesIff | rdc_tool/core/capture_queries.py:76-102 | exactly when a query ends with missing data, an unknown event, a chunk outside the file, or a continuation over more than one chunk |
| CallQueries.ContinuationFailsIff | rdc_tool/core/capture_queries.py:101-113 | exactly when a continuation ends with a path, a child offset or a value offset outside the object |
| CallQueries.RowsConserveBudget | rdc_tool/core/capture_queries.py:103-113 | nodes emitted over all rows equal the budget spent, and the inner exhaustion error never comes out of a row |
| CallQueries.QueryConservesBudget | rdc_tool/core/capture_queries.py:101-118 | emitted nodes plus unspent budget equal `max_nodes`; the flag is set iff all of it was emitted; the inner error is unreachable |
| CallQueries.PlainRowsNeverFail | rdc_tool/core/capture_queries.py:103-113 | without continuation no row can fail |
| CallQueries.QuerySucceedsIff | rdc_tool/core/capture_queries.py:76-113 | a query succeeds iff there is structured data, something to show, every chunk exists, and a continuation names one chunk, a path inside it and offsets inside the object |
| CallQueries.RowsFollowLinks | rdc_tool/core/capture_queries.py:103-113 | the rows are a prefix of the wanted associations, not empty when anything is wanted and the budget is positive |
| CallQueries.PageAdvances | rdc_tool/core/capture_queries.py:103-116 | a page shows a non-empty run of the associations from its offset and reports where the next one starts, or none at the end |
| CallQueries.NextPage | rdc_tool/core/capture_queries.py:103-116 | a page shows the associations up to its next offset, where the same query succeeds again, or all that are left |
| CallQueries.PagesConcatenate | rdc_tool/core/capture_queries.py:103-116 | following `next_offset` yields the associations from the first offset on, without loss or repetition, for every limit and budget |
| Crawl.Fetch | rdc_tool/core/capture_queries.py:73-118 | re-querying one chunk at a reported path returns one row, the faithful projection of the object there with a fresh depth and budget |
| Crawl.Finish | rdc_tool/core/capture_queries.py:43-47 | completing a reply by its own tokens yields the whole object |
| Crawl.FinishAll | rdc_tool/core/capture_queries.py:40-47 | completing the emitted children yields exactly those children |
| Crawl.Resume | rdc_tool/core/capture_queries.py:45-47 | asking at every `next_child_offset` terminates and yields exactly the remaining children |
| Crawl.ResumeText | rdc_tool/core/capture_queries.py:54-60 | asking at every `next_value_offset` terminates and yields exactly the rest of the string |
| Crawl.CrawlChunk | rdc_tool/core/capture_queries.py:25-118 | crawl completeness: for every finite tree and `max_nodes` of two or more the crawl terminates, and what it collects has, node by node, the name, type, size, children, text and value of the original tree |
| Crawl.ViewRecovers | rdc_tool/core/capture_queries.py:25-70 | a complete view of an object recovers it, field by field and with its value as the object holds it |
| Crawl.OneNodePageIsStuck | rdc_tool/core/capture_queries.py:41-47 | a branch page repeats its own token iff `max_nodes` is one, so the bound of two is exact |
| RecentArtifacts.Coerce | rdc_tool/context_snapshot.py:196-211 | absent and zero limits become 32 in total and 8 of each type, negative ones become one, and positive ones stay |
| Sorting.SortedIsStable | rdc_tool/context_snapshot.py:338-346 | sorting by a key orders, permutes, and keeps the input order of equal keys |
| RecentArtifacts.NewestFirstIsStableSort | rdc_tool/context_snapshot.py:338-346 | the order is descending in time, a permutation, and keeps the input order of equal stamps |
| RecentArtifacts.TrimArtifacts | rdc_tool/context_snapshot.py:335-364 | sorting, the loop with its seen set and the loop with its counters compute the trim |
| RecentArtifacts.DropOlderPaths | rdc_tool/context_snapshot.py:336-351 | the seen-set loop keeps the first entry of each path |
| RecentArtifacts.ApplyQuotas | rdc_tool/context_snapshot.py:353-364 | the counting loop with its early stop keeps what the type quota admits, up to the total |
| RecentArtifacts.CandidateIffNewest | rdc_tool/context_snapshot.py:336-351 | whatever the entries, one is dropped as a duplicate iff another of its path is newer, or as new and earlier in the list |
| RecentArtifacts.KeptIff | rdc_tool/context_snapshot.py:335-364 | whatever the entries, one of those left is dropped iff its type quota or the total is already full before it |
| RecentArtifacts.QuotaKeepsIff | rdc_tool/context_snapshot.py:353-364 | the same for any list with one entry per path |
| RecentArtifacts.TrimIsIdempotent | rdc_tool/context_snapshot.py:335-364 | whatever the entries, trimming twice is trimming once, and adds nothing |
| RecentArtifacts.TrimIsBounded | rdc_tool/context_snapshot.py:353-364 | at most the total limit, counted as one when it is less, and at most the type limit of each type |
| RecentArtifacts.ZeroTotalKeepsOne | rdc_tool/context_snapshot.py:361-363 | a total limit below one keeps the newest entry, unless the type limit admits nothing |
| RecentArtifacts.GreedyKeepsIff | rdc_tool/context_snapshot.py:355-363 | an entry passes both quotas iff fewer than its type limit of its type and fewer kept ones than the total stand before it |
| RecentArtifacts.TrimOfRanked | rdc_tool/context_snapshot.py:335-364 | sorting and deduplicating leave a newest-first list with one entry per path alone, and its quotas are idempotent |
| RecentArtifacts.MergeRecentArtifacts | rdc_tool/context_snapshot.py:511-540 | normalising, filtering, moving each report to the front and trimming compute one merge |
| RecentArtifacts.NormalizeIs | rdc_tool/context_snapshot.py:321-332 | loaded entries without a path are left out and the others kept in order, with "file" for a missing type |
| RecentArtifacts.PromoteIs | rdc_tool/context_snapshot.py:525-537 | each report with a path goes to the front under the merge's tool and stamp, and takes away what had its path |
| RecentArtifacts.ArrivalForgets | rdc_tool/context_snapshot.py:530-538 | entries a trim dropped could not have been kept after one more arrival |
| RecentArtifacts.BatchForgets | rdc_tool/context_snapshot.py:526-538 | the same for a whole batch |
| RetentionAgreement.DroppedDoNotMatter | rdc_tool/context_snapshot.py:353-364 | leaving out entries that the quotas drop anyway changes nothing |
| RetentionAgreement.ChoiceAgreesIff | rdc_tool/context_snapshot.py:353-364 | the quotas choose the same from fewer entries iff those include all that is chosen from more |
| RetentionAgreement.ArrivalAgreesIff | rdc_tool/context_snapshot.py:530-538 | one arrival of whatever type: the trimmed list and the full one keep the same iff no entry of another path that the quotas drop before passes them afterwards |
| RetentionAgreement.BatchAgreesIff | rdc_tool/context_snapshot.py:526-538 | the same for a batch, with the condition computed from the list, the reports and the limits before the merge |
| RetentionAgreement.SlackAgrees | rdc_tool/context_snapshot.py:353-364 | limits that drop nothing never break the agreement |
| RetentionHistory.DistinctInsert | rdc_tool/context_snapshot.py:338-351 | sorted in by time and deduplicated, a report is dropped as stale or replaces its path's older entry |
| RetentionHistory.CandidatesOfPile | rdc_tool/context_snapshot.py:335-351 | on any clock, the deduplicated history after a batch is the one before it with its timely reports sorted in |
| RetentionHistory.CandidatesOfPromote | rdc_tool/context_snapshot.py:525-537 | a merge sorts in every report, stale or not |
| RetentionHistory.MergeIntoTrimmed | rdc_tool/context_snapshot.py:518-538 | on any clock, a merge into a trimmed list is the quotas on the list with its reports sorted in |
| RetentionHistory.AdmittedByMultiset | rdc_tool/context_snapshot.py:353-363 | what the quotas leave for an entry depends on what stands before it, not on its order |
| RetentionHistory.ArrivedPlace | rdc_tool/context_snapshot.py:338-351 | what stands before an untouched entry after a batch: the same as before if it is newer, otherwise that with the reports |
| RetentionAgreement.ArrivalsAgreeIff | rdc_tool/context_snapshot.py:511-540 | a merge into the trimmed list and the trim of the longer history choose alike iff `KeepsUp`, which is computed before the merge: no newer entry of a reported path is kept, the dropped older entries of other paths stay out, and reports that come too late find no room |
| RetentionAgreement.MergeAgreesIff | rdc_tool/context_snapshot.py:511-540 | the same for one merge against the trim of the whole history: on any clock, for all types, batches and limits |
| RetentionAgreement.InOrderKeepsUpIff | rdc_tool/context_snapshot.py:525-538 | when no report comes too late, only the dropped entries that are no newer than the batch matter |
| RetentionAgreement.ReportAgreesIff | rdc_tool/context_snapshot.py:525-538 | for a single report, in terms of the list before it: with no newer entry of its path, iff no dropped older entry of another path is admitted after it; with one, iff that one is dropped and the report is not admitted at its place among the kept |
| RetentionAgreement.UntrimmedReportAgreesIff | rdc_tool/context_snapshot.py:525-538 | under each limit that drops nothing of a list, a single report agrees iff no entry of its path is newer |
| RetentionAgreement.RunAgreesIff | rdc_tool/context_snapshot.py:511-540 | for whole runs on any clock, of any types, batches and limits: the list agrees with the trim of the full history after every merge iff every merge keeps up with the history before it |
| RetentionAgreement.KeptTypesKeepUp | rdc_tool/context_snapshot.py:511-540 | with types that stay and no report older than an entry of its own path, a merge keeps up |
| RetentionAgreement.RunAgreesWithHistory | rdc_tool/context_snapshot.py:511-540 | any sequence of merges whose reports are no older than the earlier entries of their own path, with paths that keep their types, ends with the trim of the full history, and agrees with it throughout |
| RetentionAgreement.ClockPutsInOrder | rdc_tool/context_snapshot.py:525-535 | a clock that does not run backwards puts all reports in order |
| RetentionAgreement.RunIsPartOfHistory | rdc_tool/context_snapshot.py:511-540 | with reports in order, a run's list holds only what the deduplicated history holds, in its order |
| RetentionExamples.TypeChangeBreaksAgreement | rdc_tool/context_snapshot.py:353-364 | an instance of disagreement on an advancing clock: three concrete merges |
| RetentionExamples.ReportIsCandidateIff | rdc_tool/context_snapshot.py:525-537 | a report is what the history keeps of its path iff no older entry of it has a newer stamp |
| RetentionExamples.ClockStepsBack | rdc_tool/context_snapshot.py:525-538 | an instance: after a report at 5 and one at 3, merging keeps the second and the history the first |
| SchemaValidation.ValidatorIsExact | rdc_tool/runtime_catalog.py:42-90 | a value is accepted iff it satisfies the declarative semantics, with `oneOf` and `not` nested to any depth; otherwise the first failing demand is reported with its place |
| SchemaValidation.EntriesAreExact | rdc_tool/runtime_catalog.py:84-86 | the walk over object entries accepts iff every known property satisfies its schema |
| SchemaValidation.ItemsAreExact | rdc_tool/runtime_catalog.py:87-89 | the walk over items accepts iff every item satisfies `items`, or anything when it is absent |
| SchemaValidation.FirstFailingIsFirst | rdc_tool/runtime_catalog.py:50-83 | the checks on the value itself are reported in the order of the code, which `Rank` spells out, and none is missed |
| SchemaValidation.PassesIffHolds | rdc_tool/runtime_catalog.py:50-83 | each coded check agrees with its keyword's meaning |
| SchemaValidation.OneOfIffUnique | rdc_tool/runtime_catalog.py:50-51 | counting matches to one agrees with the existence of a unique satisfied candidate |
| SchemaValidation.CountsVerdicts | rdc_tool/runtime_catalog.py:43-50 | the number of candidates that validate is the number that are satisfied |
| SchemaValidation.MatchesTypeIff | rdc_tool/runtime_catalog.py:54-61 | the type check passes iff one of the listed types fits |
| SchemaValidation.MatchesChoiceIff | rdc_tool/runtime_catalog.py:62-63 | the enum check passes iff an equal choice is listed, under Python's equality |
| SchemaValidation.MissingIff | rdc_tool/runtime_catalog.py:77-79 | nothing is missing iff every required key is present |
| SchemaValidation.UnknownIff | rdc_tool/runtime_catalog.py:80-83 | nothing is unknown iff every key is a declared property |
| SchemaValidation.EqualIs | rdc_tool/runtime_catalog.py:62 | Python's equality in full: numbers and booleans by value, texts, lists item by item, dictionaries key by key |
| SchemaValidation.AnyIsSatisfied | rdc_tool/runtime_catalog.py:87-89 | items without a schema of their own are free |
| SchemaValidation.Describe | rdc_tool/runtime_catalog.py:31-35 | the first operation of that name, or none when no operation has it |
| SchemaValidation.OperationArgumentsAreExact | rdc_tool/runtime_catalog.py:31-90 | a call is judged by the first operation of its name: unknown iff there is none, passed iff its arguments satisfy that schema, and otherwise refused with the first demand that fails |
| JsonAgreement.IntegerDiffersIff | rdc_tool/runtime_catalog.py:57 | `integer` differs from section 6.1.1 of JSON Schema Validation 2020-12 exactly at floats with a zero fractional part |
| JsonAgreement.VariantsAreEqual | rdc_tool/runtime_catalog.py:62-63 | writing some booleans as 0 or 1, or the reverse, at any depth, makes an equal value for Python |
| JsonAgreement.RecastIsVariant | rdc_tool/runtime_catalog.py:62-63 | whatever is equal for Python is, as JSON, one of those finitely many variants |
| JsonAgreement.JsonEqualIsEqual | rdc_tool/runtime_catalog.py:62-63 | equal JSON values are equal for Python |
| JsonAgreement.EnumAgreesIff | rdc_tool/runtime_catalog.py:62-63 | `enum` accepts what JSON equality accepts, for every value, iff every variant of a listed value is listed |
| JsonAgreement.ScalarEnumAgreesIff | rdc_tool/runtime_catalog.py:62-63 | for scalar choices: iff `True` is listed exactly when 1 is and `False` exactly when 0 is |
| JsonAgreement.EnumConfusesTrueWithOne | rdc_tool/runtime_catalog.py:62-63 | an instance: `True` passes an enum that lists only 1 |
| JsonAgreement.EnumConfusesNestedTrue | rdc_tool/runtime_catalog.py:62-63 | and `[True]` one that lists only `[1]` |
| ArgsScanner.ExtractRawArgsJson | rdc_tool/cli.py:141-183 | the flag search, the skipping loop and the scan compute the extraction |
| ArgsScanner.ScanFrom | rdc_tool/cli.py:155-183 | the loop over `idx`, `depth`, `in_string` and `escaped` computes the scan of the rest of the line |
| ArgsScanner.DriveConcat | rdc_tool/cli.py:164-182 | the automaton's run over two texts is the run over the second from the state after the first, unless it closed |
| ArgsScanner.BodyStaysInside | rdc_tool/cli.py:166-172 | a string body, escapes included, never leaves the string and ends unescaped |
| ArgsScanner.QuotedIsNeutral | rdc_tool/cli.py:166-175 | a string leaves depth and string state as they were |
| ArgsScanner.ValueIsNeutral | rdc_tool/cli.py:164-182 | every inner value leaves depth and string state as they were, and the depth does not reach zero in it, although one bracket kind only is counted |
| ArgsScanner.BracketsAreNeutral | rdc_tool/cli.py:176-180 | so does a bracketed content, of the counted kind or of the other |
| ArgsScanner.ContainerCloses | rdc_tool/cli.py:158-181 | on a JSON object or array the scan ends exactly with its last character |
| ArgsScanner.ScanInvertsPrinter | rdc_tool/cli.py:155-183 | for every JSON object or array text and every suffix the scan returns exactly that text |
| ArgsScanner.ScanRejectsTruncation | rdc_tool/cli.py:164-183 | no strict prefix of such a text yields anything |
| ArgsScanner.FlagIsFound | rdc_tool/cli.py:146-150 | the first flag at the start or after white space is found at its place |
| ArgsScanner.SearchReachesTail | rdc_tool/cli.py:146 | text without the flag is passed over |
| ArgsScanner.FlagIsLeftmost | rdc_tool/cli.py:146-148 | the search ends after the leftmost --args-json that stands at the start or after white space and is no part of a longer word, and fails iff there is none |
| ArgsScanner.AfterFlag | rdc_tool/cli.py:150-154 | white space and at most one quote after the flag are skipped |
| ArgsScanner.ExtractFindsArgument | rdc_tool/cli.py:141-183 | on a whole command line the first --args-json's JSON comes back exactly, quoted or not, whatever follows |
| ArgsScanner.ExtractMeans | rdc_tool/cli.py:146-155 | on any line, what is scanned begins after the first flag, white space and one quote |
| ArgsScanner.NoFlagNoArgument | rdc_tool/cli.py:146-149 | a line without the flag yields nothing |
| AtomicSwap.Attempt | rdc_tool/io_utils.py:94-100 | one attempt promotes, or keeps the old content at the final path or in the backup, whatever fails; the first rename is the one that the two contents call for, and the outcome is the last rename's |
| AtomicSwap.MoveAside | rdc_tool/io_utils.py:95-97 | the old content goes to the backup exactly when a directory is to replace something |
| AtomicSwap.Promote | rdc_tool/io_utils.py:98-99 | the rename that puts the new content in place, whatever becomes of it |
| AtomicSwap.Restore | rdc_tool/io_utils.py:103-109 | the handler loses neither the old nor the new content; the backup stays in use only when its renaming back was tried and refused |
| AtomicSwap.AtomicSwapPath | rdc_tool/io_utils.py:79-126 | for every schedule of failures: promoted with the new content at the final path, or failed, after exactly the allowed number of attempts with a pause between each two, with the old content there, or untouched in the backup when its last restoration was refused; an abort has an interrupt behind it, leftovers were tried to be removed, and nothing else is touched |
| RuntimePublish.Swap | scripts/package_runtime.py:484-506 | success means the new tree is in place; any failure leaves the new tree, the previous tree, or the previous tree in a retained backup, unless a stop landed just after the backup rename; the steps taken and the exit follow from how each step went |
| RuntimePublish.PublishRuntime | scripts/package_runtime.py:471-509 | the previous tree is gone only when the new one is in place, except exactly for a late stop: it is then lost with the stage, or in it, whole or damaged, if removing the stage fails; a failed assembly or an existing separate output changes nothing; which steps are tried and which exit follows is determined by how they went |
| ReleaseAcceptance.MoveAll | scripts/package_release.py:269-275 | the files accepted so far are the prefix that was moved, plus possibly one whose move raised late; where a rename does not replace files the package was new |
| ReleaseAcceptance.Rollback | scripts/package_release.py:277-286 | the reverse loop goes on after failures; complete, it restores every accepted file |
| ReleaseAcceptance.UndoAll | scripts/package_release.py:276-293 | the handler tries every accepted file, newest first; each whose undoing worked is restored under every verdict; rolled back iff none failed, incomplete iff one failed and the metadata was saved, and failed iff saving it failed too |
| ReleaseAcceptance.OverlayTouchesOnly | scripts/package_release.py:270-275 | moving files replaces exactly those names by their staged content |
| ReleaseAcceptance.PreviousIsExact | scripts/package_release.py:265-271 | the recorded originals are those of every accepted file, except a package that was there before |
| ReleaseAcceptance.FirstIsOverlaid | scripts/package_release.py:270 | what a replaced package was no longer shows once it is replaced |
| ReleaseAcceptance.UndoFirst | scripts/package_release.py:276-293 | the same after any number of accepted files: rolled back to what was there, less a replaced package and plus one late file |
| ReleaseAcceptance.AcceptRelease | scripts/package_release.py:264-293 | the files are moved in turn, only the package without overwriting; accepted iff every move worked, with all files new; otherwise every accepted file was tried, newest first, and restored if that worked; rolled back, with the folder as before, iff no undoing failed, and else with all previous metadata saved, unless that failed too; the only deviations of a rollback are one file whose move raised after taking effect and a package that a rename replaced |
| AndroidInstall.Session.WaitForInstall | rdc_tool/remote_bootstrap.py:271-304 | polling terminates, commands nothing, and returns at the first clear observation or, when asked for the target, at the first matched identity after one; it gives up only on a fault, as "unconfirmed" once it has looked |
| AndroidInstall.Session.Command | rdc_tool/remote_bootstrap.py:325-358 | at most one install with the asked-for flags, only after its APK was read and a clear observation made; its receipt decides the outcome, a timed-out or unclear one counts as done only on device proof, and a failure has a fault behind it |
| AndroidInstall.Session.Settle | rdc_tool/remote_bootstrap.py:340-359 | a plain receipt is taken as it is; without one, or with an unclear one, the device is asked |
| AndroidInstall.Session.ReadyToInstall | rdc_tool/remote_bootstrap.py:325-338 | what precedes every install: the APK is read, then no session blocks, then the remaining time is asked for |
| AndroidInstall.Session.RemoveConflicting | rdc_tool/remote_bootstrap.py:360-373 | at most one uninstall, only after a clear observation and the identity snapshot, and recorded when confirmed |
| AndroidInstall.Session.InstallHelper | rdc_tool/remote_bootstrap.py:324-386 | the recursion over update and downgrade has a strict measure; its commands and receipts follow the declared strategy exactly, the install mode says which branch succeeded, success is claimed only after a clean receipt or a matched identity with no blocking session, with the remaining time asked for before and after the command, and failure only after a fault or a refusal with nothing left to try |
| AndroidInstall.Session.ReplaceHelper | rdc_tool/remote_bootstrap.py:360-375 | a conflicting helper is replaced by one uninstall and one fresh install, each possibly the last command, and success means both happened |
| AndroidInstall.Session.RetryDowngrade | rdc_tool/remote_bootstrap.py:376-380 | a refused downgrade is tried once more with permission, after the identity was asserted again |
| AndroidInstall.StrategyIsJustified | rdc_tool/remote_bootstrap.py:324-386 | in every run at most three installs and one uninstall, a downgrade retry only after a downgrade refusal, an uninstall only after a conflicting update, a fresh install only after an uninstall, and success only on a clean or unsettled last reply |
| AndroidInstall.Session.EnsureInstalled | rdc_tool/remote_bootstrap.py:389-408 | what the package probe found decides: a missing helper is installed afresh; one of another version than the expected one is updated, with a downgrade iff it is newer; every other one is kept, without a command; success means just that, and failure has a fault or a final refusal behind it, with the same bounds and reasons for the commands |
| AndroidInstall.Session.UpdateHelper | rdc_tool/remote_bootstrap.py:407-408 | an update starts from an asserted identity; success is an update, or a replacement exactly when the old helper was removed |
| AndroidInstall.GuardedExtends | rdc_tool/remote_bootstrap.py:325-373 | a guarded trace stays guarded when every new command is |
| AndroidInstall.WatchingIsHarmless | rdc_tool/remote_bootstrap.py:284-293 | a trace extended by observations only holds the same commands and stays guarded |
| AndroidInstall.CommandIsGuarded | rdc_tool/remote_bootstrap.py:326-338 | an install right after a clear observation, with its APK read and, for an update, the identity looked at since the last command, keeps the trace guarded and adds itself and its receipt to the commands |
| AndroidInstall.RemovalIsGuarded | rdc_tool/remote_bootstrap.py:361-367 | an uninstall after a clear observation and a snapshot keeps the trace guarded and adds itself to the commands |
| AndroidBootstrap.Preparation.ReleaseForward | rdc_tool/remote_bootstrap.py:1088-1116 | without an error the ownership is dropped and the last listing holds no mapping for the port; with one it is kept, and the error is what ADB answered or what the last listing showed; removal is guarded by a listing that held exactly the recorded mapping |
| AndroidBootstrap.Preparation.RemoveListed | rdc_tool/remote_bootstrap.py:1098-1114 | a removal is issued right after a listing of exactly the recorded mapping, so it is guarded |
| AndroidBootstrap.Preparation.RemoveAndConfirm | rdc_tool/remote_bootstrap.py:1099-1114 | a removal is believed only after a second listing without the port |
| AndroidBootstrap.Preparation.ReleaseHelper | rdc_tool/remote_bootstrap.py:1118-1139 | without an error the ownership is dropped and nothing runs; with one it is kept, and the device failed to answer or to stop it or showed other processes; a stop follows a probe that saw exactly the recorded processes |
| AndroidBootstrap.Preparation.StopHelper | rdc_tool/remote_bootstrap.py:1125-1137 | the stop itself, right after the probe: ownership ends iff it is confirmed |
| AndroidBootstrap.Preparation.ReleaseBoth | rdc_tool/remote_bootstrap.py:1088-1139 | the helper's turn comes whatever became of the forward, and each is kept only for a reason of its own |
| AndroidBootstrap.Preparation.Cleanup | rdc_tool/remote_bootstrap.py:1086-1147 | no error means that nothing is recorded, an owned mapping, owned processes and the local configuration are gone, and what was not owned is not touched; whatever is kept was tried, and kept for a reason of its own: an answer that failed, a port still taken, or other processes |
| AndroidBootstrap.Preparation.TakeOwnership | rdc_tool/remote_bootstrap.py:924-925 | ownership is what the probe saw, and an unreadable probe changes none |
| AndroidBootstrap.Preparation.LaunchAndLook | rdc_tool/remote_bootstrap.py:903-927 | a launch that is not barred is issued, then a readable look takes ownership of what runs, and an unreadable one raises and takes none |
| AndroidBootstrap.Preparation.StartHelper | rdc_tool/remote_bootstrap.py:895-940 | success means exactly a recorded owner, and failure is the last fault answered; a launch is left out only when the budget had failed, and after a failed launch only the first look can succeed; any helper the last look saw is owned |
| AndroidBootstrap.Preparation.AwaitHelper | rdc_tool/remote_bootstrap.py:931-938 | the polling loop terminates with an owner or with the fault that ended it |
| AndroidBootstrap.Preparation.BringUp | rdc_tool/remote_bootstrap.py:950-958 | a borrowed helper is neither installed nor started nor recorded; an own one is, on success, in the state that the probe and the expected version call for, configured iff it was just installed and that is asked for, and started; failure has a fault or a final refusal behind it |
| AndroidBootstrap.Preparation.InstallAndConfigure | rdc_tool/remote_bootstrap.py:950-955 | its first half, up to the configuration |
| AndroidBootstrap.SelectPortIsSafe | rdc_tool/remote_bootstrap.py:759-775 | a chosen port is listed, and is the requested one or the only one; no choice is refused that would be safe; "missing" means that nothing is listed |
| AndroidBootstrap.Preparation.FindSocket | rdc_tool/remote_bootstrap.py:960-970 | polling terminates; a port found is safe with respect to the last socket listing; failure is a fault, or an ambiguous listing in which no port is safe to choose |
| AndroidBootstrap.Preparation.Connect | rdc_tool/remote_bootstrap.py:960-990 | from a safe socket to the recorded mapping and the last look at the installed APK; every stop on the way has its cause and leaves the mapping recorded, absent, or in the one case of an effect reported as failure |
| AndroidBootstrap.Preparation.OpenForward | rdc_tool/remote_bootstrap.py:974-987 | the mapping is recorded when its command succeeded, also when cancellation is seen right after it, and success has asked for the remaining time once more |
| AndroidBootstrap.Preparation.Steps | rdc_tool/remote_bootstrap.py:944-990 | success means mapped to a safely chosen socket and, unless borrowed, started; every stop on the way leaves the mapping recorded, absent, or in the one case of an effect reported as failure |
| AndroidBootstrap.Preparation.Prepare | rdc_tool/remote_bootstrap.py:875-892 | the transaction: success means mapped to a safely chosen socket with the helper installed, configured and started as called for; failure has a fault, a final refusal or an ambiguous socket listing behind it; a failed preparation with a clean cleanup ends with no ownership, the local port mapped iff it was mapped before or the forward failed after taking effect, and a helper process left iff no readable probe looked after it appeared; what an unclean cleanup keeps it had a reason to; a borrowed helper is never installed, launched or stopped; every removal, stop, install and uninstall is guarded, and the last two are bounded and justified |
| AndroidBootstrap.Preparation.UndoSteps | rdc_tool/remote_bootstrap.py:878-884 | the handler: the guards of the steps and of the cleanup together, and the reasons for what is kept |
| AndroidBootstrap.HelperStaysBehind | rdc_tool/remote_bootstrap.py:875-927 | a run that leaves its helper behind: a launch, an unreadable probe, and a cleanup without work or errors |
| AndroidTrace.RunningIsSeenOrNot | rdc_tool/remote_bootstrap.py:923-925 | what runs was either seen by the last word on it or has not been looked at since it appeared |
| AndroidTrace.UnseenIff | rdc_tool/remote_bootstrap.py:923-938 | not looked at means: it appeared or was there before, and neither a readable probe nor a change came later |
| AndroidTrace.ForwardRemovalIsGuarded | rdc_tool/remote_bootstrap.py:1091-1107 | a removal after a listing of exactly the recorded mapping is guarded, with or without the listing after it |
| AndroidTrace.GuardsJoin | rdc_tool/remote_bootstrap.py:1086-1147 | guards of consecutive stretches of a run hold for the whole run |
| AdbFrames.Connection.ReadExact | rdc_tool/remote_bootstrap.py:1048-1057 | the loop returns exactly the next bytes, reports the end only when fewer remain, and is lost exactly when the connection was dropped |
| AdbFrames.Connection.ReadPayload | rdc_tool/remote_bootstrap.py:1059-1064 | a payload read is determined by the bytes, unless the connection was dropped |
| AdbFrames.Connection.ListForwards | rdc_tool/remote_bootstrap.py:1046-1083 | unless the connection was dropped, the reply is a function of the byte stream alone, for every segmentation, and means what the protocol says: rows of three fields only after OKAY, the server's reason after FAIL, and its own error for each way to be wrong |
| AdbFrames.DecodeMeans | rdc_tool/remote_bootstrap.py:1059-1080 | for every stream: a complete OKAY frame is its table, one error for an unterminated row and one for a malformed one; a complete FAIL frame is the server's reason, or bad text; another status, a length that is not four hexadecimal digits, and a stream that ends early are told exactly when they are so |
| AdbFrames.LengthIsWritten | rdc_tool/remote_bootstrap.py:1060-1064 | the length read is the number that four hexadecimal digits of either case write |
| AdbFrames.ParseLists | rdc_tool/remote_bootstrap.py:1075-1080 | a text is accepted iff every line ends and has three fields |
| AdbFrames.DecodeUndoesEncode | rdc_tool/remote_bootstrap.py:1066-1080 | a frame of well-formed rows decodes to those rows, whatever follows it |
| AdbFrames.FrameIsRead | rdc_tool/remote_bootstrap.py:1059-1074 | any frame decodes to the rows of its text, or fails on bad UTF-8 |
| AdbFrames.HexRoundTrip | rdc_tool/remote_bootstrap.py:1060-1064 | four hexadecimal digits read back as the length |
| AdbFrames.RowsRoundTrip | rdc_tool/remote_bootstrap.py:1075-1080 | rows written one per line split back into the same rows |
| AdbFrames.StrictPrefixHasEnded | rdc_tool/remote_bootstrap.py:1048-1064 | no strict prefix of a frame yields rows: it is always reported as ended |
| ElfNotes.ElfBuildId | rdc_tool/runtime_identity.py:58-95 | the identification checks, the header loop and the note loop compute the build id or the first error |
| ElfNotes.ScanTable | rdc_tool/runtime_identity.py:72-95 | the loop over program headers, in order |
| ElfNotes.FindInNotes | rdc_tool/runtime_identity.py:85-94 | the loop over notes, with the rest of the segment shrinking by at least a note header each time |
| ElfNotes.ReadNote | rdc_tool/runtime_identity.py:86-94 | an accepted note moves on by at least 12 bytes and its descriptor and successor stay inside the segment |
| ElfNotes.StructErrorIff | rdc_tool/runtime_identity.py:59-71 | a read outside the image happens iff it is a supported 64-bit image shorter than 58 bytes |
| ElfNotes.HeadersReadInside | rdc_tool/runtime_identity.py:72-94 | after the header check every read is inside the image |
| ElfNotes.NotesReadInside | rdc_tool/runtime_identity.py:85-94 | note reads stay inside their segment |
| ElfNotes.NoteIsRead | rdc_tool/runtime_identity.py:86-94 | an encoded note is read as itself, with its padding |
| ElfNotes.NotesUndoEncoding | rdc_tool/runtime_identity.py:85-94 | a segment of 4-byte-padded notes scans to its first GNU type-3 note with a non-empty descriptor, or to none |
| ElfNotes.HeaderIsRead | rdc_tool/runtime_identity.py:73-84 | a program header in either class and byte order is read as its segment |
| ElfNotes.HeadersUndoEncoding | rdc_tool/runtime_identity.py:72-95 | a table of headers scans to the first build id in header-then-note order, or to what the headers after it come to |
| ElfNotes.BuildIdUndoesEncoding | rdc_tool/runtime_identity.py:58-95 | an image that holds these segments, anywhere and in either class and byte order, yields that build id or none |
| ElfNotes.HeaderErrorsIff | rdc_tool/runtime_identity.py:59-71 | an image is no supported ELF exactly when a check on its identification fails, and its headers are truncated exactly when they are too small or reach beyond the file |
| ElfNotes.SegmentFailsHere | rdc_tool/runtime_identity.py:78-90 | a note segment that reaches beyond the file, or whose notes break off, ends the search with that error |
| ElfNotes.BreakIsTold | rdc_tool/runtime_identity.py:86-90 | a note that reaches beyond its segment is reported |
| ElfNotes.OtherNotesArePassed | rdc_tool/runtime_identity.py:86-94 | notes that are no build ids lead to what comes after them |
| ElfNotes.StrippedIsGnuIff | rdc_tool/runtime_identity.py:92 | a name counts iff it is GNU followed by zero bytes only |
| ApkSigners.LengthPrefixed | rdc_tool/runtime_identity.py:98-105 | an accepted value is what its length says right after that length; it is refused exactly when the length or the value reaches beyond the data |
| ApkSigners.LastIndex | rdc_tool/runtime_identity.py:111 | the end record found is an occurrence of its signature in the last 65557 bytes, and no later place holds one |
| ApkSigners.LocateBlock | rdc_tool/runtime_identity.py:111-122 | an accepted block lies inside the file |
| ApkSigners.ReadEntry | rdc_tool/runtime_identity.py:124-130 | an accepted entry lies inside the block and moves on by at least 12 bytes; it is refused only when its size is missing, below four, or beyond the block |
| ApkSigners.ApkSignerCertificates | rdc_tool/runtime_identity.py:108-146 | locating the block and both loops over entries and signers compute the certificates or the first error |
| ApkSigners.CollectEntries | rdc_tool/runtime_identity.py:121-143 | the loop over entries collects what the entries contribute together |
| ApkSigners.CollectEntry | rdc_tool/runtime_identity.py:131-142 | one entry contributes its signers if it is of scheme v2, v3 or v3.1, and nothing otherwise |
| ApkSigners.CollectSigners | rdc_tool/runtime_identity.py:133-142 | the loop over signers adds each first certificate's digest |
| ApkSigners.AcceptedEntriesTile | rdc_tool/runtime_identity.py:122-143 | whatever block is accepted, its entries tile exactly the span between the two size fields; a block that begins past its end has none |
| ApkSigners.PrefixedAt | rdc_tool/runtime_identity.py:98-105 | a length-prefixed value reads back from wherever it stands |
| ApkSigners.SignerUndoesEncoding | rdc_tool/runtime_identity.py:135-139 | an encoded signer yields its first certificate, or the error for none or an empty one |
| ApkSigners.SignersUndoEncoding | rdc_tool/runtime_identity.py:133-142 | encoded signers yield the set of their first certificates' digests |
| ApkSigners.FaultySignerIsTold | rdc_tool/runtime_identity.py:133-142 | the first signer without a usable certificate decides, whatever stands around it |
| ApkSigners.EntriesUndoEncoding | rdc_tool/runtime_identity.py:123-143 | encoded entries are walked one by one to the end of the block |
| ApkSigners.PartsLocate | rdc_tool/runtime_identity.py:111-122 | the end record, the magic and two equal size fields locate the block |
| ApkSigners.LocateMeans | rdc_tool/runtime_identity.py:114-120 | given the end record, the block is missing exactly when no "APK Sig Block 42" ends at the central directory, mismatched exactly when its two sizes differ or do not fit, and lies between them otherwise |
| ApkSigners.EndIsMissingIff | rdc_tool/runtime_identity.py:111-113 | the end record is missing exactly when its signature does not occur in the last 65557 bytes, or when fewer than 22 bytes begin at the last one |
| ApkSigners.CertificatesUndoEncoding | rdc_tool/runtime_identity.py:108-146 | a file with such a block yields the ascending duplicate-free list of first-certificate digests of all v2, v3 and v3.1 signers, or the error for none |
| ApkSigners.SortedList | rdc_tool/runtime_identity.py:146 | the result is strictly ascending and holds exactly the set |
| Bytes.UnpackAt | rdc_tool/runtime_identity.py:63-68 | a packed number reads back from wherever it stands, in either byte order |
| Bytes.NumberWeighs | rdc_tool/runtime_identity.py:63-68 | the weight of each byte of a number, low bytes first or last |
| Bytes.NumberIsTight | rdc_tool/runtime_identity.py:117-130 | bytes are the packing of the number they read as |
| Forests.PreorderConcat | scripts/preview_geometry_smoke.py:103-108 | the preorder of two forests side by side is the two preorders in turn |
| PreorderSlice.FlattenActions | scripts/preview_geometry_smoke.py:103-108 | the extending loop returns the preorder of the forest |
| PreorderSlice.DrawsUnderMarker | scripts/preview_geometry_smoke.py:127-143 | the two loops return the draws after the first node with the id, up to the first one not deeper |
| PreorderSlice.SubtreeIsContiguous | scripts/preview_geometry_smoke.py:103-108 | in preorder a node is followed by its subtree and then by nothing or by a node not deeper |
| PreorderSlice.SliceIsSubtree | scripts/preview_geometry_smoke.py:103-143 | with unique ids and consistent depths the flat scan returns exactly the draws strictly below the marker with the id, in preorder |
| PreorderSlice.NoMarkerNoDraws | scripts/preview_geometry_smoke.py:127-133 | without a node that answers to the id, by its first field or else its second, nothing is returned |
| PreorderSlice.DrawsAre | scripts/preview_geometry_smoke.py:134-143 | exactly the draws are kept, in order |
| Durations.SortedSorts | rdc_tool/runtime_state.py:483 | the values are ordered and permuted |
| Durations.InterpolatedBetween | rdc_tool/runtime_state.py:489-494 | an interpolated value lies between its two neighbours |
| Durations.InterpolatedMonotone | rdc_tool/runtime_state.py:489-494 | interpolation is monotone in the rank, across breakpoints too |
| Durations.PercentileWithinRange | rdc_tool/runtime_state.py:482-494 | a percentile lies between the minimum and the maximum |
| Durations.PercentileMonotone | rdc_tool/runtime_state.py:482-494 | a percentile is monotone in its argument, clamped or not |
| Durations.PercentileAtRank | rdc_tool/runtime_state.py:488-494 | at an integral rank it is that element of the sorted values |
| Durations.PercentileIs | rdc_tool/runtime_state.py:482-494 | between two ranks it lies on the line between their values, at its share of the way |
| Durations.PercentileEnds | rdc_tool/runtime_state.py:484-488 | at 0 and below it is the least value, at 1 and above the greatest, and of no values it is zero |
| Durations.SummaryIsBounded | rdc_tool/runtime_state.py:497-506 | neither the average nor the 95th percentile exceeds the maximum, and all are zero or more |
| Durations.SummaryIs | rdc_tool/runtime_state.py:497-506 | count, mean, 95th percentile and maximum are those of the values that are not negative; all are zero when there are none |
| Durations.NonNegativeAre | rdc_tool/runtime_state.py:498 | exactly the negative values are left out |
| FitBounds.Rounded | rdc_tool/preview_window.py:103-104 | rounding moves a number by at most a half, and a half goes to the even neighbour |
| FitBounds.FitIsTight | rdc_tool/preview_window.py:91-105 | the result is within bounds, never enlarged, unchanged when it fits, and otherwise meets one bound exactly, for all arguments including zero and negative ones |
| FitBounds.FitIs | rdc_tool/preview_window.py:101-105 | when shrinking, the tighter bound is met exactly and the other side is scaled by the same ratio and rounded |
| FitBounds.FitKeepsAspect | rdc_tool/preview_window.py:101-105 | the crossed sides differ by at most half the sum of the original sides, unless a side was raised to one |
| FitBounds.RectIsCentred | rdc_tool/preview_window.py:108-129 | the rectangle has the content's fitted size, lies inside the client area, and its margins differ by at most one |

## Left out

- The operation schema's limit of 64 entries on `object_path`: it lives in the operation table; `query_calls` itself has none.
- The attribute fallbacks on foreign objects: an object's fields are taken as the capture library returns them.
- Python values that are not what the code converts them to: artifact paths and types are taken after `str` and `strip`, stamps after `int`, and the clock is an input of each merge.
- The JSON Schema keywords that the validator ignores, and the wording of error messages; a problem is a place and a keyword.
- UTF-8 decoding, SHA-256 and the Unicode table of alphanumerics, which are function parameters; digests are numbers, ordered as their fixed-width texts are.
- PackageManager, `pidof`, socket-table and endpoint texts: the parsed outcome is an arbitrary reply.
- Wall-clock deadlines: a countdown together with arbitrary cancellation and expiry.
- AndroidBootstrap.Preparation.Prepare: what other programs do to this local port in the forward table before the first listing, and between a listing and the removal after it, and processes that change between a probe and the stop right after it, are not covered; the clause about the mapping assumes that only this run uses the port.
- `repair_incompatible_android_helper`, `retain_android_helper_ownership`, endpoint parsing and device selection: easy next to the transaction.
- AtomicSwap.AtomicSwapPath: interrupts are modelled at the renames and the pauses between attempts, not between two arbitrary instructions; the backup's random name is assumed free.
- RuntimePublish.PublishRuntime: assembly is a yes or no, and a directory rename onto an existing directory is refused, as it is for any directory that is not empty.
- ReleaseAcceptance.AcceptRelease: reading the previous metadata is taken to succeed, and interrupts inside the rollback itself are not modelled, only its `OSError`s.
- SchemaValidation.ValidatorIsExact: a float is a real number, so NaN and the infinities are not values of the model.
- Durations.PercentileWithinRange: arithmetic is over reals; floating-point rounding is left out here and in `FitBounds`.
- Marker search by name, the preview window itself, the version and doctor payloads, the daemon and the replay core: no algorithmic state, or not part of this repository's logic.
