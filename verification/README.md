# Verified models of the security lakehouse's core logic

This project models, in Dafny 4.11, the parts of the repository whose guarantees span whole histories, whole runs or
whole inputs, and proves those guarantees.

- **Snapshot ledger** (`SnapshotLedger`, `SnapshotCache`, `CacheRecency`, `SnapshotWriters`, `SnapshotReads`, `SnapshotHistory`): the
  append-only, hash-linked ledger of posture snapshots, its verifier, the cache of verified bytes, the writer protocol
  with crashes and recovery, limited reads, point-in-time reads and their stability over runs. The content hash and
  SHA-256 are arbitrary functions; where a statement needs one to be injective, it says so.
- **Posture** (`TopSelection`, `Violations`, `PostureScore`, `PostureMeaning`, `EvidenceFreshness`): the bounded-heap pass over open
  violations, framework scores with half-even rounding, and freshness windows and staleness.
- **Connector evidence** (`EvidenceUpsert`, `Offboarding`, `RawEvents`, `Convergence`, `SyncProtocol`): last-writer-wins
  upserts in append and snapshot mode with the validation that can refuse them, the offboarding check and its refresh,
  what histories of deliveries leave behind, and the watermark protocol with overlapping syncs and crashes. Hashes of
  contents are an arbitrary function that tells contents apart.
- **CCF evaluation** (`ControlVerdicts`, `CcfEvaluation`, `CcfMeaning`, `CcfRequirements`, `CcfEvaluator`,
  `CcfAssessment`, `CcfOrderBlindness`, `CcfAmbiguity`): the evaluator with its indexes and counters, proved against a specification over the list of events,
  and what its verdicts and counts mean for any rule function.
- **API reads** (`Cursors`, `ApiCollections`, `ApiPages`, `ApiMeaning`, `CcfQueries`): cursors, filter/sort/window, object pages,
  streamed pages and the SQL projection that must agree with the plain pipeline.
- **Control catalog over time** (`CatalogVersions`, `CatalogMeaning`): retirement, succession and the catalog as of a date.
- **Algorithms** (`Makespan`, `MakespanTightness`, `PytestShard`, `HeaderWrap`, `AiBomItems`, `CycloneDx`, `Spdx`,
  `SpdxRoundTrip`, `AiBomStore`, `AiBomMeaning`, `SpdxMeaning`): the test scheduler, the greedy line breaker, and the AI bill of materials in
  CycloneDX 1.7 and SPDX 3.0.1.
- `Orders`, `Dicts`, `Text`, `Arithmetic` and `Outcomes` hold filtering, Python's stable `sorted`, insertion-ordered
  dicts, string order, a product rule and result types.

Methods follow the loops and updates of the source and are proved against specification functions; lemmas then prove
the promises about those functions, and state on the members of rows, entries and events what each of them selects,
ranks and counts. Strings are sequences of code points, integers are unbounded as in Python, and
decoded times are integers.

## Where the code and its promises part

Each of these is a property that fails for some input; the model keeps the code's behaviour, gives an example, and
proves exactly when the property holds.

- A retirement leaves earlier "as of" answers alone exactly when its successor is not dated before the retirement day
  (`PastKeptIff`). The code keeps a successor's own date as soon as it lies after its predecessor's start, so one dated
  between that start and the retirement day overlaps the predecessor and wins (`BackdatedExample`).
- With a successor the windows go on tiling exactly when it takes force on the retirement day
  (`TilesIffSuccessorStartsToday`); one dated later leaves days without any version (`GapExample`).
- Whether a merge reports a conflicting duplicate depends on row order: a newer row between two tied rows hides the
  conflict (`DedupeFailsIff`, `ConflictsDependOnOrder`).
- An upsert whose merged file fails validation raises and is lost, so histories with the same conflict-free deliveries
  can end differently (`RefusedBatchExample`). For a given set of rows they all agree exactly when accepted rows of
  different keys have different identities and, for each connector, validation refuses all of its rows, or none, or they
  share one key whose newest rows pass (`ConvergesIff`).
- The cursor of an append connector is documented as monotonic (`connector_runner.py:1693`), but reading and writing it
  takes no lock: a sync that another one overtakes between its read and its write moves the cursor back
  (`OvertakenSyncExample` runs 5, 20, 10). A step moves it back exactly when the latest mark written since the sync's read
  is newer than its batch (`MovesBackIff`, `CursorIsMonotoneIff`). No evidence is lost either way
  (`NothingBehindTheCursorIsLost`).
- A refresh of the offboarding rows reads the clock. Repeating it changes nothing exactly when the clock stands still, no
  row is a usable account, or nobody's termination has come (`RefreshIsIdempotentIff`, `LaterRefreshRewrites`).
- The freshness window can be wider: an end that only unavailable evidence sets is no change of status
  (`WindowWidensIff`, `UnavailableEndExample`).
- The streamed route answers a filter on an unknown field when every stored row is an object without members; the
  materialised path refuses it (`StreamedPage`, `OverlookedFilterExample`).
- The indexed CCF route refuses an unknown filter field of an empty assessment; the plain pipeline answers with an
  empty page (`RoutesAgreeIff`, `EmptyAssessmentExample`).
- "Ready" means that every control is a current pass only below 20,000 controls, because the score is rounded
  (`ReadyIff`, `ReadyWithAFailure`).
- The assessment reports as `ambiguous_asset_count` the number left over from the last safeguard of the loop
  (`ccf_evaluation.py:52`, `:144`). That is the number of assets of several types exactly when the last safeguard could
  apply to each of them (`ReportedCountIff`, `AmbiguityOverlooked`); the name is unbound, and the assessment raises,
  exactly when there is no safeguard and no event names one (`UnboundIff`).
- Cleaning a text twice differs from cleaning it once exactly when the cut falls right behind white space
  (`CleaningTwiceIff`, `CutLeavesSpace`).
- A CycloneDX round trip drops a model card that sits on anything but a model (`RoundTripIff`, `CardOnDatasetExample`).
- An SPDX round trip keeps an id exactly when it is an IRI (`IriKeptIff`, `PlainIdExample`); every other id comes back in the export's
  namespace (`ExportThenImportRenames`).

## Model

| member | source | states |
|---|---|---|
| PytestShard.Session.ModifyItems | tools/pytest_shard.py:37-56 | The hook keeps in place exactly the shard's items in collection order, hands over the others, and raises for an invalid shard option. |
| PytestShard.Session.AssignOwners | tools/pytest_shard.py:45-50 | The loop over loads and owners gives every module to the machine that longest-processing-time scheduling gives it. |
| PytestShard.Session.GroupByModule | tools/pytest_shard.py:42-44 | The module dict holds, per module, its items in collection order. |
| PytestShard.ShardsPartitionTheSuite | tools/pytest_shard.py:51-56 | Every collected test runs on exactly one shard, as often as collected, together with its whole module. |
| PytestShard.ModuleNameMeaning | tools/pytest_shard.py:44 | The module is the node id up to its first "::". |
| PytestShard.HandedOutInOrder | tools/pytest_shard.py:47 | Modules are handed out by falling number of tests, alphabetically on ties. |
| PytestShard.LeastLoadedOwns | tools/pytest_shard.py:48-50 | Each goes to the shard that owns the fewest tests of the modules before it, the first such shard on ties. |
| PytestShard.DivisionKeepsAll | tools/pytest_shard.py:51-56 | What a shard runs and what it deselects are the whole collection, split by the owner of the module. |
| PytestShard.ShardingQuality | tools/pytest_shard.py:45-50 | Against every assignment of whole modules, the largest shard is within 4/3 - 1/(3m) of that assignment's largest shard. |
| PytestShard.ShardingBalance | tools/pytest_shard.py:45-50 | m times the largest shard is at most the suite plus (m-1) times the largest module. |
| PytestShard.OwnersIgnoreCollectionOrder | tools/pytest_shard.py:47 | Runners that collect the same tests in other orders agree on the owner of every module. |
| Makespan.LptBound | tools/pytest_shard.py:47-50 | Graham's bound 3mC <= (4m-1)OPT for jobs taken in descending order. |
| Makespan.ListSchedulingBound | tools/pytest_shard.py:48-50 | The list-scheduling bound, for jobs in any order. |
| MakespanTightness.LptBoundIsTight | tools/pytest_shard.py:47-50 | For every number m of shards and every unit t some modules take the scheduler to (4m-1)t where 3mt would do, so the constant is exact. |
| HeaderWrap.WidthBounds | tools/render_readme_header.py:62-81 | Every character takes between 0.3 and 1 em, so a short enough text fits whatever its letters and a long enough one never does. |
| HeaderWrap.EstimateTextWidth | tools/render_readme_header.py:65-81 | The accumulated width is the sum of the table's character widths, scaled, plus letter spacing. |
| HeaderWrap.Wrap | tools/render_readme_header.py:84-92 | Under the table's widths the lines restore the items in order, every line of several items fits, and no consecutive split with that property has fewer lines. |
| HeaderWrap.GreedyStaysAhead | tools/render_readme_header.py:86-91 | The i-th break of a greedy split is never before the i-th break of another fitting split. |
| HeaderWrap.GreedyIsOptimal | tools/render_readme_header.py:86-91 | A split whose breaks were all forced uses no more lines than any fitting split. |
| EvidenceUpsert.DedupeLatest | src/security_lakehouse/connector_runner.py:1711-1750 | The loop that overwrites a dict and compares hashes of contents computes the fold of its merge step, and raises exactly when the fold does, for a hash that tells contents apart. |
| EvidenceUpsert.DedupeRepresents | src/security_lakehouse/connector_runner.py:1711-1750 | A merge that succeeds holds one row per key, taken from the input, that no input row of the key is newer than. |
| EvidenceUpsert.MergeKeepsLatest | src/security_lakehouse/connector_runner.py:1711-1750 | Of one owner and source id a merge keeps exactly one input row, with the latest event time and among those the latest collection (collected_at, else evidence_collected_at, else event time). |
| EvidenceUpsert.AlertClosesExample | src/security_lakehouse/connector_runner.py:1725-1746 | An alert collected first as open and later as closed under one event time ends closed, in both orders. |
| EvidenceUpsert.DedupeSucceeds | src/security_lakehouse/connector_runner.py:1711-1750 | Conflict-free rows never raise. |
| EvidenceUpsert.DedupeFailsIff | src/security_lakehouse/connector_runner.py:1735-1749 | A merge raises if and only if two rows tie with different content and no newer row of the key comes before the second. |
| EvidenceUpsert.ConflictMeaning | src/security_lakehouse/connector_runner.py:1724-1749 | Rows conflict iff they agree on owner, source id, event time and collection time and differ in another member. |
| EvidenceUpsert.ConflictsDependOnOrder | src/security_lakehouse/connector_runner.py:1735-1749 | Three rows that merge in one order raise in another. |
| EvidenceUpsert.RepresentationsAgree | src/security_lakehouse/connector_runner.py:1711-1750 | Two files that represent the same conflict-free observations assert the same content and collection time per key. |
| RawEvents.RawFile.Upsert | src/security_lakehouse/connector_runner.py:1753-1789 | The file becomes the validated merge of retained and stamped rows, or stays as it was when the merge or validation raises. |
| Offboarding.Correlate | src/security_lakehouse/offboarding.py:72-134 | The two loops yield one row per employee terminated by the day, in row order, when both HR rows and usable accounts exist. |
| Offboarding.OutcomeMeaning | src/security_lakehouse/offboarding.py:105-118 | A violation is an account with the work e-mail that can authenticate past the grace period; a pass needs an account and all of them disabled; without one nothing is claimed. |
| Offboarding.CorrelatedMeaning | src/security_lakehouse/offboarding.py:72-188 | With an employment row and a usable account the check reports on every employee who has left, in order: days, accounts, active accounts, outcome and the moment of the check. |
| Offboarding.NothingDerivedIff | src/security_lakehouse/offboarding.py:98-106 | Nothing is derived iff no row is a usable account or nobody has been terminated by the day. |
| RawEvents.RawFile.RefreshOffboarding | src/security_lakehouse/connector_runner.py:1792-1816 | The derived rows are replaced by what the check says of the other rows at the moment of the call, or nothing changes when validation fails. |
| RawEvents.RefreshParts | src/security_lakehouse/connector_runner.py:1801-1811 | A refresh keeps every other connector's rows; the derived ones depend on those and the moment only. |
| RawEvents.RefreshMeaning | src/security_lakehouse/connector_runner.py:1801-1816 | A refreshed file is the rows of all other connectors and behind them what the check reports on those, under the check's connector id. |
| RawEvents.ValidRowsMeaning | src/security_lakehouse/connector_runner.py:1785-1788 | A merged file is valid iff every row is accepted and no two of its positions share an identity. |
| RawEvents.LastRefreshCounts | src/security_lakehouse/connector_runner.py:1801-1811 | Refreshing twice leaves what one refresh at the later moment leaves. |
| RawEvents.RefreshIsIdempotentIff | src/security_lakehouse/connector_runner.py:1801-1811 | Repeating a refresh changes nothing iff the moment is the same, no other row is a usable account, or no other row is an employee terminated by the later day. |
| RawEvents.LaterRefreshRewrites | src/security_lakehouse/offboarding.py:137-188 | One terminated employee and one account: a refresh a microsecond later changes the file. |
| RawEvents.AppendAbsorbsBatch | src/security_lakehouse/connector_runner.py:1782-1789 | An append of conflict-free rows that validation accepts succeeds, and the file then represents the old observations and the batch. |
| Convergence.AppendConverges | src/security_lakehouse/connector_runner.py:1711-1789 | Conflict-free deliveries that validation accepts leave the same evidence as one merge of everything, in any order, grouping and number. |
| Convergence.ConvergesIff | src/security_lakehouse/connector_runner.py:1753-1789 | For every conflict-free set of rows: all histories that deliver it agree iff accepted keys have their own identities and each connector's rows are all refused, all accepted, or of one key whose newest rows pass. |
| Convergence.SupersededRowIsHarmless | src/security_lakehouse/connector_runner.py:1785-1788 | A refused row that an accepted one of the same key supersedes makes no difference. |
| Convergence.RefusedBatchExample | src/security_lakehouse/connector_runner.py:1785-1788 | Two orders of the same conflict-free deliveries end in different files because one batch is refused. |
| RawEvents.UpsertSparesOthers | src/security_lakehouse/connector_runner.py:1771-1783 | An upsert in either mode keeps the other connectors' rows, in order, and one row per key. |
| RawEvents.OwnedKeysAfterUpsert | src/security_lakehouse/connector_runner.py:1771-1783 | After a snapshot upsert the connector owns exactly the reported keys; after an append also those it had. |
| RawEvents.UpsertNeverRegresses | src/security_lakehouse/connector_runner.py:1771-1783 | No key that remains is held by an older row than one that was there or was reported. |
| SyncProtocol.SyncLake.ReadWatermark | src/security_lakehouse/ingestion/watermark.py:23-29 | Reading returns the last mark the connector wrote. |
| SyncProtocol.SyncLake.AdvanceWatermark | src/security_lakehouse/connector_runner.py:1688-1708 | The log of marks grows by at most the newest event time, only in append mode and only when that moves the cursor forward. |
| SyncProtocol.SyncLake.RunSync | src/security_lakehouse/connector_runner.py:378-403 | Rows land first, derived rows next, the cursor last; a raised error leaves the cursor where it was. |
| SyncProtocol.AdvanceIsMonotone | src/security_lakehouse/connector_runner.py:1688-1708 | Marks strictly increase per connector, the cursor reaches the batch's newest row, and no other connector's cursor moves. |
| SyncProtocol.NextKeepsInv | src/security_lakehouse/connector_runner.py:378-403 | Every step of overlapping syncs, with reading and writing the mark apart, refreshes, crashes and refused landings, keeps the invariant and the log of marks. |
| SyncProtocol.NothingBehindTheCursorIsLost | src/security_lakehouse/connector_runner.py:378-403 | In every run with in-order complete pulls, no source row at or before the cursor, or any cursor the connector ever had, is missing or stale in the file. |
| SyncProtocol.MovesBackIff | src/security_lakehouse/connector_runner.py:1703-1707 | A step moves the cursor back iff a sync writes its mark after another wrote a newer one since its read, the latest of those. |
| SyncProtocol.CursorIsMonotoneIff | src/security_lakehouse/connector_runner.py:1688-1708 | In a run the cursor never moves back iff no sync is overtaken between its read and its write. |
| SyncProtocol.OvertakenSyncExample | src/security_lakehouse/connector_runner.py:1703-1707 | A run of three syncs in which the cursor reads 5, then 20, then 10. |
| SyncProtocol.AdvanceInOneGo | src/security_lakehouse/connector_runner.py:1703-1707 | With nothing between them, reading and writing add to the log exactly what the uninterrupted advance adds. |
| SyncProtocol.SyncCatchesUp | src/security_lakehouse/connector_runner.py:378-403 | From any state a run reaches, other syncs stuck anywhere, the five steps of one undisturbed sync of a conflict-free source that validation accepts are possible and cover all of it. |
| SnapshotLedger.VerifierAcceptsIff | src/security_lakehouse/assessment.py:652-724 | The verifier accepts exactly the ledgers that are linked, complete and unaltered, for every selection of rows. |
| SnapshotLedger.AcceptedOnFields | src/security_lakehouse/assessment.py:604-724 | On the members: accepted iff every entry links to the one before, its plainly named file differs from the others and holds a payload that hashes to what both say with the same predecessor and time, and there is no further JSON file unless allowed. |
| SnapshotLedger.StepMeaning | src/security_lakehouse/assessment.py:683-721 | One entry adds a broken link and the one thing wrong with itself to the report, takes its name, becomes the next predecessor, and yields its row when selected and sound. |
| SnapshotLedger.IssuesMeaning | src/security_lakehouse/assessment.py:683-724 | The report says under an entry's own position exactly what is wrong with that entry. |
| SnapshotLedger.PredecessorsDiffer | src/security_lakehouse/assessment.py:686-700 | In an accepted ledger no two entries name the same predecessor. |
| SnapshotLedger.SoundNeverForks | src/security_lakehouse/assessment.py:686-724 | An accepted ledger is one chain. |
| SnapshotLedger.EqualTipsEqualHistories | src/security_lakehouse/assessment.py:686-724 | Two accepted lakes whose last entries carry the same hash hold the same payloads, position by position. |
| SnapshotCache.VerifiedBytes.VerifiedPayload | src/security_lakehouse/assessment.py:604-638 | A call through the ordered dict answers and updates it as the cache specification says, hits and evictions included. |
| SnapshotCache.AfterIsEarned | src/security_lakehouse/assessment.py:597-638 | After any calls the cache holds only keys that passed verification, and never more than its limit. |
| CacheRecency.RemembersMostRecent | src/security_lakehouse/assessment.py:597-638 | The cache is least recently used: it remembers a key iff fewer than its limit of keys were used since some use of it. |
| SnapshotCache.CacheIsTransparentIff | src/security_lakehouse/assessment.py:597-638 | Over all calls and file contents the cache changes no answer if and only if SHA-256 never identifies accepted with rejected bytes. |
| SnapshotWriters.SnapshotStore.VerifyEntry | src/security_lakehouse/assessment.py:686-716 | One loop body of the verifier, through the cache, is the specified scan step. |
| SnapshotWriters.SnapshotStore.ChainRows | src/security_lakehouse/assessment.py:652-724 | The verifier with the cache reports what the verifier without it reports. |
| SnapshotWriters.SnapshotStore.WriteSnapshot | src/security_lakehouse/assessment.py:519-581 | A write commits file and entry on a lake the verifier accepts, and leaves the lake unchanged otherwise. |
| SnapshotWriters.CommitExtendsHistory | src/security_lakehouse/assessment.py:549-581 | A committed snapshot extends an accepted history by one entry and keeps it accepted. |
| SnapshotWriters.CommitOnFields | src/security_lakehouse/assessment.py:528-581 | A committed payload carries stamp and content as given, names the last entry's hash as predecessor and hashes to what it says; the new entry repeats that; nothing else changes. |
| SnapshotWriters.UndisturbedWrite | src/security_lakehouse/assessment.py:519-581 | On a free clean lake the steps of one writer lead to what the whole write commits. |
| SnapshotWriters.CrashAndRecover | src/security_lakehouse/snapshot_recovery.py:90-164 | A crash between file and entry and the recovery after it lead back to the lake the write began on. |
| SnapshotWriters.NextKeepsInv | src/security_lakehouse/assessment.py:519-581 | Every step of writers, crashes and recoveries keeps the protocol invariant. |
| SnapshotWriters.LedgerNeverForks | src/security_lakehouse/assessment.py:519-594 | In every interleaving the ledger only grows, never forks, and is as long as the number of committed writes. |
| SnapshotWriters.CleanIffNoCrashMidWrite | src/security_lakehouse/assessment.py:564-581 | Outside a write, the full verifier accepts if and only if no crash fell between file and ledger entry. |
| SnapshotWriters.DirtyRefusesWrites | src/security_lakehouse/assessment.py:523-527 | After such a crash no write gets through until a recovery finishes. |
| SnapshotWriters.RecoveryRestoresAcceptance | src/security_lakehouse/snapshot_recovery.py:90-164 | A finished recovery keeps the committed history and leaves a lake the verifier accepts. |
| SnapshotReads.VerdictIgnoresLimit | src/security_lakehouse/assessment.py:669-724 | A limited read accepts and rejects exactly what a full read does. |
| SnapshotReads.FullRead | src/security_lakehouse/assessment.py:751-760 | A full read lists every entry by time, ties in ledger order. |
| SnapshotReads.LimitedReadIsSuffix | src/security_lakehouse/assessment.py:669-677 | A read limited to k returns the last k rows of the full read. |
| SnapshotReads.LimitMeaning | src/security_lakehouse/assessment.py:668-677 | A limit of zero or less reads everything; a positive one reports an invalid timestamp iff some entry has none that parses. |
| SnapshotReads.PostureAsOf | src/security_lakehouse/assessment.py:841-880 | The answer is the latest snapshot at or before the date, the count is the ledger's, and the first available time is that of the earliest snapshot. |
| SnapshotReads.SelectAsOf | src/security_lakehouse/assessment.py:846-851 | The scan that stops at the first later snapshot finds the latest one at or before the date, last in the ledger on ties. |
| SnapshotReads.LastOfSortIsLatest | src/security_lakehouse/assessment.py:751-760 | The last row of the time-ordered list is the latest, ledgered last among equals. |
| SnapshotReads.AsOfMeaning | src/security_lakehouse/assessment.py:846-851 | There is no answer iff every snapshot is later; otherwise it is the latest one at or before the date, last in the ledger on ties. |
| SnapshotReads.LatestIsLastMaximum | src/security_lakehouse/assessment.py:846-851 | The chosen row has the largest time and stands behind every other row of that time. |
| SnapshotHistory.CommitKeepsAnswers | src/security_lakehouse/assessment.py:549-581 | Committing a later-dated snapshot to a ledger the verifier accepts changes no earlier answer. |
| SnapshotHistory.AsOfIsStable | src/security_lakehouse/assessment.py:841-880 | In every run of writers, crashes and recoveries an answer stays for as long as only later-dated snapshots are added. |
| TopSelection.OfferKeepsTopK | src/security_lakehouse/assessment.py:954-958 | Offering a row to the bounded heap leaves the k highest-ranked rows seen. |
| TopSelection.TopKMeaning | src/security_lakehouse/assessment.py:954-958 | The k highest-ranked rows are k of the rows, and nothing left out ranks above them. |
| TopSelection.LargestMeansTopK | src/security_lakehouse/assessment.py:984-994 | `heapq.nlargest` over positions selects the k highest-ranked rows. |
| TopSelection.TopKDisplayedIsCap | src/security_lakehouse/assessment.py:975-996 | Displaying the k highest-ranked rows gives the full display restricted to those rows. |
| Violations.BuildViolations | src/security_lakehouse/assessment.py:905-977 | The counters, heap and final sort compute the specified rows and summary over all open event/control pairs. |
| Violations.CountsSumToTotal | src/security_lakehouse/assessment.py:924-932 | Every violation is counted under exactly one severity. |
| Violations.AllRowsMembers | src/security_lakehouse/assessment.py:918-948 | The rows are those of open events and the controls they name, with the event's members, id "control:event" and the asset's name. |
| Violations.SummaryMeaning | src/security_lakehouse/assessment.py:963-974 | Totals and severity counts cover the whole input whatever the limit, unnamed severities count as low, and truncated means that rows were left out. |
| Violations.ReturnedAreWorst | src/security_lakehouse/assessment.py:954-961 | Under a limit no row left out has a higher score than a returned one; ties go by control id and then event id. |
| Violations.ReturnedAreRows | src/security_lakehouse/assessment.py:954-961 | Under a limit that many of the rows are returned, or all when there are fewer. |
| Violations.AllReturned | src/security_lakehouse/assessment.py:951-953 | Without a limit every row is returned. |
| Violations.ReturnedInOrder | src/security_lakehouse/assessment.py:975-977 | Returned rows stand by falling score, then by rising control id and event id. |
| Violations.StreamingCapEqualsCapAfterwards | src/security_lakehouse/assessment.py:905-996 | Streaming with a limit returns the rows, order and summary of building everything and capping afterwards. |
| PostureScore.FrameworkScores | src/security_lakehouse/assessment.py:1007-1054 | Grouping controls and violations in dicts and sorting the rows gives one row per framework with its control, violation, critical and high counts. |
| PostureMeaning.RowsMeaning | src/security_lakehouse/assessment.py:1016-1054 | One row per framework that a control uses, by rising score and then by name. |
| PostureMeaning.CountsMeaning | src/security_lakehouse/assessment.py:1021-1026 | Each count of a row is the number of the framework's controls of that status and staleness; ready means that all are current passes. |
| PostureMeaning.ScoreMeaning | src/security_lakehouse/assessment.py:1037 | A row's score is the nearest hundredth of a percent to its share of current passes, even on a tie. |
| PostureMeaning.ScoreIsNearest | src/security_lakehouse/assessment.py:1057-1063 | Any share scores its nearest hundredth of a percent, even on a tie, and a share of nothing scores nothing. |
| PostureMeaning.AggregateRisk | src/security_lakehouse/assessment.py:1027-1031 | Without detail, a row counts open events, failing controls of risk 100 and more as critical, and those of 80 to 99 as high. |
| PostureMeaning.DetailedRisk | src/security_lakehouse/assessment.py:1032-1036 | With detail and one control per id, a row counts the violations of the framework's controls, the critical and the high ones. |
| PostureScore.ViolationsAreConserved | src/security_lakehouse/assessment.py:1007-1054 | The rows together count every violation of a listed control exactly once. |
| PostureScore.WeightedScoreIgnoresGrouping | src/security_lakehouse/assessment.py:1057-1063 | The score is the share of current passes among all controls, however frameworks split them. |
| PostureScore.RoundIsNearest | src/security_lakehouse/assessment.py:1063 | The rounded score is within half a hundredth of the exact share. |
| PostureScore.TieIsEven | src/security_lakehouse/assessment.py:1063 | An exact tie rounds to the even hundredth. |
| PostureScore.RoundMonotone | src/security_lakehouse/assessment.py:1063 | A larger share never gets a smaller score. |
| PostureScore.FailureNeverImproves | src/security_lakehouse/assessment.py:1057-1063 | Adding a control that is not a current pass never raises the score. |
| PostureScore.FullScoreIff | src/security_lakehouse/assessment.py:1057-1063 | The score is 100 if and only if the other controls are at most one in twenty thousand. |
| PostureScore.ReadyIff | src/security_lakehouse/assessment.py:1066-1071 | "Ready" means nothing critical, nothing flagged and at most one control in twenty thousand not a current pass. |
| PostureScore.OtherStatesIff | src/security_lakehouse/assessment.py:1066-1071 | Critical means a critical violation; attention is required iff there is none but a control is flagged or too many are no current pass. |
| PostureScore.ReadyWithAFailure | src/security_lakehouse/assessment.py:1057-1071 | Twenty thousand controls with one failure read "ready". |
| EvidenceFreshness.StatusInterval | src/security_lakehouse/evidence_freshness.py:85-109 | The window contains now, its ends are change points of rows, and no change point lies inside it. |
| EvidenceFreshness.StatusMeaning | src/security_lakehouse/evidence_freshness.py:279-331 | Fresh, stale and expired are intervals after the collection, to the whole minute; before it, without it or unavailable evidence is missing. |
| EvidenceFreshness.WindowKeepsStatuses | src/security_lakehouse/assessment.py:182-183 | At every moment the window covers, every row has the status it has now. |
| EvidenceFreshness.ConstantBetweenChanges | src/security_lakehouse/evidence_freshness.py:279-331 | A row's status does not change between its change points. |
| EvidenceFreshness.ChangesStatusIff | src/security_lakehouse/evidence_freshness.py:279-331 | A row changes status at a moment iff it is available and the moment is a change point not before its collection. |
| EvidenceFreshness.WindowWidensIff | src/security_lakehouse/evidence_freshness.py:85-109 | One more moment at an end of the window leaves every status alone iff no row really changes there. |
| EvidenceFreshness.CurrentEvidenceIsStale | src/security_lakehouse/evidence_freshness.py:228-276 | The passes over current observations compute the specified verdict. |
| EvidenceFreshness.StaleMeaning | src/security_lakehouse/evidence_freshness.py:270-276 | Evidence is stale exactly when a required type is missing or the latest observation of some kind is stale. |
| EvidenceFreshness.StaleOnFields | src/security_lakehouse/evidence_freshness.py:228-276 | Stale means that a required type is carried by no record, or that a relevant record is not fresh and none of its tenant, connector, source, asset and type is later. |
| EvidenceFreshness.StaleIgnoresOrder | src/security_lakehouse/evidence_freshness.py:228-276 | Reordering or repeating records never changes the verdict. |
| ControlVerdicts.PassIff | src/security_lakehouse/control_verdict.py:18-42 | A pass needs an unmatched failure rule, fresh evidence, an outcome with available evidence, and no unknown outcome. |
| ControlVerdicts.FailIff | src/security_lakehouse/control_verdict.py:31-42 | When a matched failure rule is reported as a failure, for any rule. |
| ControlVerdicts.OpenIff | src/security_lakehouse/control_verdict.py:31-42 | A verdict is open iff an outcome is unknown or there is none, and stale iff evidence is stale or unavailable, unless the rule has already failed it. |
| ControlVerdicts.ReasonsMeaning | src/security_lakehouse/control_verdict.py:34-40 | An open verdict gains the sentence that tells an unknown outcome from none; all others keep the rule's reasons. |
| ControlVerdicts.ContextMeaning | src/security_lakehouse/control_verdict.py:18-29 | The rule sees the exact numbers of failing, evaluated and available rows and the severity of a failing row that none outscores, or "info". |
| ControlVerdicts.FirstOfHighest | src/security_lakehouse/control_verdict.py:22 | Among failing rows of the highest score the first gives the severity. |
| ControlVerdicts.OutcomeMeaning | src/security_lakehouse/event_status.py:5-32 | The spellings of a failing, a passing and an observed outcome; open evidence is never a pass, and any other spelling is unknown. |
| ControlVerdicts.VerdictIgnoresOrder | src/security_lakehouse/control_verdict.py:18-30 | The verdict depends on the rows as a multiset only, when a severity score fixes its severity. |
| CcfEvaluator.IndexEvents | src/security_lakehouse/ccf_evaluation.py:37-47 | One pass builds the asset, binding and row indexes of the events, or raises for an unknown safeguard id. |
| CcfEvaluator.JudgeSafeguard | src/security_lakehouse/ccf_evaluation.py:49-96 | The loop body over the indexes yields the safeguard row and asset results specified over the list of events. |
| CcfEvaluation.CounterAgreesWithScan | src/security_lakehouse/ccf_evaluation.py:48-51 | The per-type counter summed over eligible types is the number of assets whose only type is eligible. |
| CcfEvaluation.PopulationAccounting | src/security_lakehouse/ccf_evaluation.py:50-85 | Assessed never exceeds eligible, and missing is 0 if and only if every eligible asset has bound evidence. |
| CcfEvaluation.CompletenessMeaning | src/security_lakehouse/ccf_evaluation.py:50-87 | No missing, ambiguous or invalid asset means exactly that every possibly eligible asset is unambiguous and bound. |
| CcfEvaluation.CombineMeaning | src/security_lakehouse/ccf_evaluation.py:17-24 | Combining gives pass only for a nonempty list of passes, and fail exactly when a fail is among them. |
| CcfEvaluation.SafeguardMeaning | src/security_lakehouse/ccf_evaluation.py:49-96 | A safeguard passes iff its observed population is fully assessed and passing, and fails iff a bound asset fails. |
| CcfMeaning.FullyAssessedMeaning | src/security_lakehouse/ccf_evaluation.py:49-96 | On the events: some event is bound, every asset seen under a named type has one type and is bound, every bound asset has one named type and passes. |
| CcfMeaning.PopulationMeaning | src/security_lakehouse/ccf_evaluation.py:48-96 | The four counts of a safeguard are sizes of sets of eligible and bound assets, their intersection and differences. |
| CcfMeaning.SafeguardOpenIff | src/security_lakehouse/ccf_evaluation.py:17-87 | A safeguard is left open iff no bound asset fails and nothing is bound, an asset is unbound or of no single named type, or a bound asset is not evaluated. |
| CcfMeaning.AssetVerdictMeaning | src/security_lakehouse/ccf_evaluation.py:57-70 | An asset without one named type is not evaluated; otherwise its bound rows, staleness included, decide. |
| CcfMeaning.BoundRowsMeaning | src/security_lakehouse/ccf_evaluation.py:38-46 | An asset's bound rows hold each of its events as often as the event names the safeguard. |
| CcfMeaning.AssetResultsMeaning | src/security_lakehouse/ccf_evaluation.py:53-83 | One result per bound asset, by tenant and asset. |
| CcfMeaning.AssetResultMeaning | src/security_lakehouse/ccf_evaluation.py:72-83 | A result lists the ids and hashes of exactly the asset's bound events, with the verdict and its reasons. |
| CcfMeaning.RecordMeaning | src/security_lakehouse/ccf_evaluation.py:37-67 | An event is judged by the freshness record listed last, by status name and source, among those of its tenant and id. |
| CcfRequirements.RequirementPassIff | src/security_lakehouse/ccf_evaluation.py:98-137 | On the mappings: a requirement passes iff the log is verified, required evidence is current, some contributing mapping to it is not rejected, and every such mapping is reviewed and its safeguard fully assessed. |
| CcfRequirements.RequirementFailIff | src/security_lakehouse/ccf_evaluation.py:98-137 | A requirement fails iff an event bound to a safeguard with a reviewed contributing mapping belongs to a failing asset. |
| CcfRequirements.RequirementOpenIff | src/security_lakehouse/ccf_evaluation.py:98-137 | A mapped requirement is left open iff no reviewed safeguard fails and the log is unverified, a mapping is pending, or a reviewed safeguard is open. |
| CcfRequirements.RequirementUnmappedIff | src/security_lakehouse/ccf_evaluation.py:111-135 | A requirement is unmapped iff every contributing mapping to it is rejected. |
| CcfRequirements.RequirementCounts | src/security_lakehouse/ccf_evaluation.py:111-137 | A safeguard is listed once per reviewed mapping, and every mapping that waits for its review is counted once. |
| CcfEvaluation.AssetPassMeans | src/security_lakehouse/control_verdict.py:18-42 | A passing asset is applicable and fresh, has an available known outcome, and has no unknown outcome. |
| CcfAssessment.EvaluateSafeguards | src/security_lakehouse/ccf_evaluation.py:27-149 | The whole evaluator computes the specified assessment, errors included. |
| CcfAssessment.AssessErrors | src/security_lakehouse/ccf_evaluation.py:34-47 | It raises iff an event names an id that no safeguard has, or there is neither a safeguard nor a named one. |
| CcfAssessment.ReportMeaning | src/security_lakehouse/ccf_evaluation.py:120-149 | The report counts the assets, the ambiguous ones as the last safeguard sees them, and lists the safeguards in order and the requirements by control id. |
| CcfAssessment.DictMeaning | src/security_lakehouse/ccf_evaluation.py:34 | Of the safeguards of one id the last one counts. |
| CcfAssessment.AssessmentIgnoresOrder | src/security_lakehouse/ccf_evaluation.py:37-149 | Permuting the events changes no part of the assessment and no error. |
| CcfAmbiguity.ReportedCountIff | src/security_lakehouse/ccf_evaluation.py:49-144 | The reported ambiguous count is the number of assets of several types iff the last safeguard could apply to each of them. |
| CcfAmbiguity.UnboundIff | src/security_lakehouse/ccf_evaluation.py:49-144 | The assessment raises for the unbound count iff there is no safeguard and no event names one. |
| CcfAmbiguity.AmbiguityOverlooked | src/security_lakehouse/ccf_evaluation.py:49-144 | An asset seen as server and laptop is ambiguous for the first of two safeguards, and the report says 0. |
| CcfOrderBlindness.SafeguardsIgnoreOrder | src/security_lakehouse/ccf_evaluation.py:37-96 | Permuting the events changes no safeguard row. |
| CcfOrderBlindness.RequirementsIgnoreOrder | src/security_lakehouse/ccf_evaluation.py:100-137 | Permuting the events changes no requirement row. |
| Cursors.Base64RoundTrip | src/security_lakehouse/api_v1.py:1479 | Decoding undoes URL-safe base64 encoding of any bytes (section 5 of RFC 4648). |
| Cursors.GroupsAreNumbers | src/security_lakehouse/api_v1.py:1479 | Four symbols write the number that three bytes write; shorter groups are filled with zero bits and padded (section 4 of RFC 4648). |
| Cursors.SymbolCode | src/security_lakehouse/api_v1.py:1479 | The symbols are A-Z, a-z, 0-9, - and _ in the order of section 5 of RFC 4648. |
| Cursors.FirstCursor | src/security_lakehouse/api_v1.py:1466-1479 | The cursor of the first row is eyJvZmZzZXQiOjB9. |
| Cursors.CursorRoundTrip | src/security_lakehouse/api_v1.py:1466-1499 | Decoding a cursor returns the offset it was made from, for every offset. |
| Cursors.LoadsReadsDumps | src/security_lakehouse/api_v1.py:1466-1499 | A concrete parser reads every text the encoder dumps, as the round trips and walks assume of theirs. |
| Cursors.CursorsAreDistinct | src/security_lakehouse/api_v1.py:1466-1479 | Different offsets have different cursors. |
| ApiCollections.BoundsIff | src/security_lakehouse/api_v1.py:1502-1526 | A window is accepted iff the request names a limit from 1 to 1000 and a nonnegative start, by cursor, offset or default. |
| ApiCollections.BoundsAfterCursor | src/security_lakehouse/api_v1.py:1502-1526 | A request with the cursor made for n starts at n with the same limit, whatever raw offset it also carries. |
| ApiMeaning.FilterMeaning | src/security_lakehouse/api_v1.py:1404-1442 | A filter field that no row of a nonempty list has is an error; otherwise exactly the rows stay, in order, that show one expected text in every filtered field. |
| ApiMeaning.SortMeaning | src/security_lakehouse/api_v1.py:1445-1463 | "-" reverses; rows with a value come first, numbers by value and before texts, texts by code points; "-" alone is an error. |
| ApiMeaning.SortIsStable | src/security_lakehouse/api_v1.py:1445-1463 | Rows whose values compare alike and rows without a value stay in list order, in both directions. |
| ApiMeaning.PageMeaning | src/security_lakehouse/api_v1.py:1502-1578 | An answer is the window the request names of the rows it selects, with their number, the request's sort and filters, and a cursor iff rows are left. |
| ApiMeaning.ErrorMeaning | src/security_lakehouse/api_v1.py:1404-1526 | Which error a refused request is told: filters, sort, limit, start, in this order. |
| ApiCollections.SortPlacesRows | src/security_lakehouse/api_v1.py:1445-1463 | Sorting permutes the rows, puts them in key order in either direction, and rows without the field last in list order. |
| ApiCollections.TiesKeepListOrder | src/security_lakehouse/api_v1.py:1463 | Rows with equal keys keep their list order, in a reversed sort too. |
| ApiCollections.WalkRebuildsSelection | src/security_lakehouse/api_v1.py:1529-1578 | Following next_cursor ends and yields the filtered, sorted rows from the first page's start on. |
| ApiCollections.FullWalk | src/security_lakehouse/api_v1.py:1529-1578 | A walk from the start returns every selected row once, in order. |
| ApiPages.StreamedPage | src/security_lakehouse/api_v1.py:1635-1677 | The streaming pass gives the materialised answer for every filter and window, except where it overlooks an unknown filter field. |
| ApiPages.CollectPage | src/security_lakehouse/api_v1.py:1664-1674 | One pass keeps exactly the page's matches, counts all matches and remembers all fields. |
| ApiPages.OverlookedFilterExample | src/security_lakehouse/api_v1.py:1675-1676 | One keyless row and one filter show the disagreement. |
| ApiPages.PagedObject | src/security_lakehouse/api_v1.py:1586-1619 | Each part of the copied object is sliced to the window; count is the longest part. |
| ApiMeaning.ObjectPageMeaning | src/security_lakehouse/api_v1.py:1586-1619 | Every part is cut to one window and counted, count is the longest part, returned the rows of all windows, other members stay. |
| ApiPages.WalkRebuildsPart | src/security_lakehouse/api_v1.py:1586-1596 | One cursor serves all parts: the walk ends and rebuilds each part, short or long. |
| ApiPages.FullObjectWalk | src/security_lakehouse/api_v1.py:1586-1596 | From the start every part comes back whole, and other members are repeated unchanged. |
| CcfQueries.CcfSchemaIsWellFormed | src/security_lakehouse/ccf_queries.py:15-16 | The declared scalar and array fields are disjoint and named. |
| CcfQueries.CcfFields | src/security_lakehouse/ccf_queries.py:15-16 | The seven fields of an asset result, three of them lists. |
| CcfQueries.WriteProjection | src/security_lakehouse/ccf_queries.py:24-49 | The inserted records are the results in order with their columns, sort keys and payload. |
| CcfQueries.BuildClauses | src/security_lakehouse/ccf_queries.py:104-118 | The clause list mirrors the filters, and an undeclared field raises. |
| CcfQueries.ReadPage | src/security_lakehouse/ccf_queries.py:89-130 | Page and count are the query's, with the offset capped; bad bounds and undeclared fields raise. |
| CcfQueries.WhereIsRowMatches | src/security_lakehouse/ccf_queries.py:106-118 | The WHERE clauses hold of a record exactly when the plain filter matches its row. |
| CcfQueries.OrderByIsSortCollection | src/security_lakehouse/ccf_queries.py:119-121 | ORDER BY with the ordinal as tie-break is the stable sort, for every field and direction. |
| CcfQueries.OrderLeavesNoChoice | src/security_lakehouse/ccf_queries.py:121-129 | Any ordered answer an SQL engine may give is the same one. |
| CcfQueries.QueryRefinesPipeline | src/security_lakehouse/ccf_queries.py:89-130 | Page and count of the indexed read equal filter, stable sort and slice over the original list. |
| CcfQueries.IndexedRoute | src/security_lakehouse/api_v1.py:1876-1890 | The route checks sort, window and filters in the code's order and wraps the indexed page. |
| CcfQueries.RoutesAgreeIff | src/security_lakehouse/api_v1.py:1870-1900 | Indexed and plain routes give the same answer, or both refuse, unless an empty assessment meets an undeclared filter field. |
| CcfQueries.EmptyAssessmentExample | src/security_lakehouse/api_v1.py:1870-1900 | An empty assessment and an undeclared filter field: the index refuses, the plain pipeline answers. |
| CatalogVersions.ControlsAsOf | src/security_lakehouse/catalog_versions.py:149-171 | The pass over candidates settles, for every control id, on the specified version with its defaults filled. |
| CatalogVersions.ChosenIsLatest | src/security_lakehouse/catalog_versions.py:144-147 | A version is chosen iff one is in force, and none in force starts later. |
| CatalogMeaning.ChosenOnFields | src/security_lakehouse/catalog_versions.py:149-171 | None is shown iff none is in force; otherwise the version that none in force before it starts after and every dated one behind it starts before. |
| CatalogMeaning.SettlesOnce | src/security_lakehouse/catalog_versions.py:149-171 | At most one position of the candidates is such a version. |
| CatalogMeaning.DefaultsOnFields | src/security_lakehouse/catalog_versions.py:87-97 | Missing version members are filled with the initial version, the first review date and the status; the others are kept. |
| CatalogVersions.Catalog.RetireControl | src/security_lakehouse/catalog_versions.py:206-251 | The active version moves to history closed on the day; the successor takes its place with another version number and a back-link. |
| CatalogMeaning.RetirementMoves | src/security_lakehouse/catalog_versions.py:206-251 | Only the first version of the control changes: it is closed as the last history row, and its successor, open-ended, linked back and of its own version and start, takes its place. |
| CatalogVersions.ChainTiles | src/security_lakehouse/catalog_versions.py:144-147 | Adjacent windows contain each day of their span exactly once. |
| CatalogVersions.SeamlessStep | src/security_lakehouse/catalog_versions.py:215-248 | A retirement whose successor sets no date of its own keeps the windows tiling, or closes the last one. |
| CatalogVersions.RunKeepsTiling | src/security_lakehouse/catalog_versions.py:186-251 | So does every run of such retirements, with other controls retired in between. |
| CatalogVersions.WindowsTileTime | src/security_lakehouse/catalog_versions.py:136-171 | After any such run each day from the first on has exactly one version in force and the catalog as of that day shows it. |
| CatalogVersions.PastKeptIff | src/security_lakehouse/catalog_versions.py:230-243 | A retirement leaves the answers for earlier days alone if and only if its successor is not backdated. |
| CatalogVersions.RunKeepsPast | src/security_lakehouse/catalog_versions.py:186-251 | Over every orderly run the answers for days before its first step stay what they were. |
| CatalogVersions.TilesIffSuccessorStartsToday | src/security_lakehouse/catalog_versions.py:235-243 | With a successor of the same control the windows tile iff it has no date of its own after the start of its predecessor other than the retirement day. |
| CatalogVersions.BackdatedExample | src/security_lakehouse/catalog_versions.py:237-242 | A catalog and a backdated successor: the answer for one past day is the old version before the retirement and the new one after. |
| CatalogVersions.GapExample | src/security_lakehouse/catalog_versions.py:237-242 | A successor dated ahead leaves a day without any version. |
| AiBomItems.CanonicalIff | src/security_lakehouse/aibom.py:39-40 | A text is left alone by cleaning iff it is short enough and has no outer white space. |
| AiBomItems.CleaningTwiceIff | src/security_lakehouse/aibom.py:39-40 | Cleaning twice equals cleaning once iff the cut does not fall right behind white space of the stripped value. |
| AiBomItems.CutLeavesSpace | src/security_lakehouse/aibom.py:39-40 | A value that cleaning twice shortens twice. |
| AiBomItems.CollectLicenses | src/security_lakehouse/aibom.py:43-60 | The loop keeps each nonempty cleaned license once, in order of first mention. |
| AiBomMeaning.CleanedMeaning | src/security_lakehouse/aibom.py:39-40 | A cleaned text is the first characters, up to the limit, of the text without outer white space. |
| AiBomMeaning.LicensesMeaning | src/security_lakehouse/aibom.py:43-60 | The licenses are the nonempty texts given by entries, by id or else name, each once. |
| AiBomMeaning.LicensesInOrder | src/security_lakehouse/aibom.py:43-60 | They stand in the order of their first mention. |
| AiBomItems.LicensesRoundTrip | src/security_lakehouse/aibom.py:43-60 | Distinct canonical licenses survive being written as license objects. |
| CycloneDx.ImportItems | src/security_lakehouse/aibom.py:74-113 | The import loop yields the specified rows, or raises for a foreign or unsupported document. |
| AiBomMeaning.ImportMeaning | src/security_lakehouse/aibom.py:74-113 | Versions 1.5, 1.6 and 1.7 are read; the components of a supported type with a name become rows, in order, with cleaned texts, card and small parameters. |
| CycloneDx.ImportedRowIsCanonical | src/security_lakehouse/aibom.py:85-112 | An imported row is canonical exactly when no cut left a trailing space; its licenses are distinct and parameters come with a card. |
| CycloneDx.ExportItems | src/security_lakehouse/aibom.py:235-266 | The export loop writes one component per item, with a model card only on models. |
| AiBomMeaning.ExportMeaning | src/security_lakehouse/aibom.py:235-266 | Version 1.7 is written, one component per item with its id as reference and licenses by id, and a card with parameters on models only. |
| CycloneDx.ExportThenImport | src/security_lakehouse/aibom.py:74-266 | Import after export returns the canonical items, dropping only cards that sit on no model. |
| CycloneDx.RoundTripIff | src/security_lakehouse/aibom.py:235-266 | The items come back unchanged iff every model card sits on a model and parameters come with a card. |
| CycloneDx.CardOnDatasetExample | src/security_lakehouse/aibom.py:235-266 | A dataset with a model card comes back without it. |
| Spdx.SpdxLicenses | src/security_lakehouse/aibom.py:132-152 | The two passes hold, per element, the licenses its relationships resolve to in the whole graph. |
| SpdxMeaning.ExpressionMeaning | src/security_lakehouse/aibom.py:132-139 | A license id stands for the nonempty text that the last expression node gives it. |
| SpdxMeaning.LicensesOfMeaning | src/security_lakehouse/aibom.py:140-152 | An element's licenses are what the targets of its declared and concluded license relationships stand for, each once. |
| Spdx.ImportItems | src/security_lakehouse/aibom.py:155-189 | The import loop yields one row per named package, in graph order. |
| SpdxMeaning.ItemKindMeaning | src/security_lakehouse/aibom.py:122-129 | The first package type decides the kind of item. |
| SpdxMeaning.ImportMeaning | src/security_lakehouse/aibom.py:155-189 | A document that does not claim to be SPDX is refused; nodes of a package type with a name become rows, in order, with cleaned texts and their licenses. |
| Spdx.ExportItems | src/security_lakehouse/aibom.py:294-341 | The export loop writes package, license and relationship nodes per item, with a generated id for a repeated one. |
| SpdxMeaning.IsIriMeaning | src/security_lakehouse/aibom.py:268-271 | A URN or web address without white space is kept as an id. |
| SpdxMeaning.RootMeaning | src/security_lakehouse/aibom.py:310-313 | An element goes by its own IRI, or by its number when an earlier one already has it. |
| SpdxMeaning.SegmentMeaning | src/security_lakehouse/aibom.py:314-341 | An item writes its package, one expression per license, and with licenses one relationship from the package to all of them. |
| SpdxMeaning.SegmentsMeaning | src/security_lakehouse/aibom.py:310-341 | The nodes of one more item follow those of the items before it, under the element's own id. |
| SpdxRoundTrip.IriKeptIff | src/security_lakehouse/aibom.py:268-271 | An id survives export iff it is an IRI. |
| SpdxRoundTrip.LicenseIdsDiffer | src/security_lakehouse/aibom.py:321 | Generated license ids never collide. |
| SpdxRoundTrip.LicenseResolves | src/security_lakehouse/aibom.py:132-152 | Every generated license id resolves to its own expression. |
| SpdxRoundTrip.LicensesRead | src/security_lakehouse/aibom.py:132-152 | Reading an exported graph gives every item exactly its licenses, in order. |
| SpdxRoundTrip.ExportThenImport | src/security_lakehouse/aibom.py:155-341 | Id, name, version, type, description, purl and licenses of every canonical item with a unique IRI id come back, in order. |
| SpdxRoundTrip.ExportThenImportRenames | src/security_lakehouse/aibom.py:155-341 | With any ids and an injective quote the same fields come back, under IRIs that keep different ids apart. |
| AiBomStore.Store.Import | src/security_lakehouse/aibom.py:206-228 | The store becomes the sorted merge by id; an import without items raises and changes nothing. |
| AiBomStore.ImportUpdatesById | src/security_lakehouse/aibom.py:211-220 | The inventory is sorted, has one row per id, and holds for every id the last row offered. |
| AiBomMeaning.StoreMeaning | src/security_lakehouse/aibom.py:206-228 | After an import the sorted inventory holds the last imported item of each imported id, under the document's format and digest, and the last old row of every other id. |
| AiBomStore.ImportIsIdempotent | src/security_lakehouse/aibom.py:211-220 | Importing the same document again changes no row. |
| AiBomStore.MoveByCycloneDx | src/security_lakehouse/aibom.py:192-266 | Moving an inventory to an empty lake by CycloneDX keeps every item iff every model card sits on a model. |
| AiBomStore.MoveBySpdx | src/security_lakehouse/aibom.py:192-341 | By SPDX every item arrives but for its parameters, and exactly the models are marked as having a card. |

## Left out

- HTTP routing, authentication, OpenAPI and command-line plumbing: only easy branches.
- Live provider clients, secret resolution, hooks, webhooks, logging and cloud-link sessions: calls into other systems.
- File-system detail (links, atomic rename, advisory locks, globbing): files are a map with atomic writes, a lock is exclusive access, SQLite is a list of numbered records.
- JSON text and the inside of SHA-256: hashing and parsing are arbitrary functions, with injectivity or faithfulness stated where needed.
- Base64 leniency: CPython also skips characters outside the alphabet when it decodes; the model refuses them.
- The diff of new violations against the prior snapshot, snapshot export file names and loading one snapshot by id: shallow lookups.
- The rule engine, safeguard loading and mapping review states: rules and reviews are arbitrary inputs.
- Contextual mappings, titles and other fields copied through the CCF assessment: no decision depends on them.
- Floating point: scores are exact rationals rounded half to even, and sort keys are reals.
- Event status spelling (trimming, lower-casing) and date parsing: events carry decoded outcomes and days.
- Validation of raw rows beyond accept or reject: the row checks are arbitrary predicates.
- Splitting query parameters at commas and choosing their first value: filters arrive split.
- A control dict's `active_controls` collapsing repeated ids: the timeline statements need one active version of the control in question.
- `retired_at` from the wall clock: the "as of" statements hold for every order of the history rows.
- A crash between appending history and rewriting the catalog, and two processes retiring at once: the source takes no lock there.
- Catalog bundles and lock files: digests over sorted copies.
- The SPDX type-name table, the primary-purpose text and the check that a document mentions SPDX: nodes carry their recognised types.
- Header nodes of an SPDX export (creation info, agent, tool, document lists): placeholders that the import skips.
- Import size limits, time stamps and serial numbers of AI bills of materials: no item depends on them.
- Violations.BuildViolations: needs a positive limit and distinct sort keys, because the source's heap would otherwise be empty or compare dicts.
- SyncProtocol.NothingBehindTheCursorIsLost: assumes complete pulls, and a source that emits rows after every mark written and everything in flight; a line is appended to the log of marks at once.
- SyncProtocol.SyncCatchesUp: is about an append sync without the refresh between its steps, which leaves the connector's rows alone (`RefreshParts`).
- Reading HR and account rows (event types, e-mail trimming and lower-casing, HR dates), the text of derived rows and the grace period's environment variable: arbitrary functions and a parameter of the offboarding check.
- CatalogVersions.PastKeptIff: is about the retired control's own id; a successor filed under another id starts a timeline of its own.
- SpdxRoundTrip.ExportThenImport: assumes a namespace of at most 200 characters and fewer than 10^18 items and licenses, so that no generated id is cut.
- SpdxRoundTrip.ExportThenImportRenames: also assumes unique ids none of which lies in the fresh namespace already, a quote without white space, and new ids within the import's limit.
