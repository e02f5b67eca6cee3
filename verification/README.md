# Hush: a model of exactly-once counting and threshold release

Hush counts events and distinct users per one-minute window over a partitioned
log, stores the counts with its own progress in one transaction, and releases
numbers only after suppression. This project models the parts that carry the
guarantees and proves them for every log, every run and every query.

| file | what it holds |
|---|---|
| `Windows`, `Hierarchy` | window arithmetic, the four-level cell hierarchy |
| `Sketches` | the HyperLogLog sketch: registers, bytes, merging |
| `Aggregates` | what a window must hold, said of the log alone, and the fold that accumulates it |
| `Partitions` | one partition's memory, as a value and as a class updated in place |
| `Storage` | rows, progress, and the commit transaction |
| `Protocol` | the state machine: deliver, tick, take, commit, failed flush, revoke, crash, assign; its invariant over all runs |
| `Watermarks` | what an incarnation has heard, told from its steps alone: the clocks of memory, who is Late, what a take closes, the progress a commit stores |
| `Durability`, `Accounting`, `ZeroDrift` | what the protocol promises over whole runs |
| `Handovers`, `Growth` | when a partition may change hands, exactly, and before the rest of the log is known |
| `Aggregators` | the loops over all partitions and the rebalance callbacks |
| `Truth` | the load generator's ground truth, and the end-to-end theorem |
| `Privacy`, `OtherFloor`, `Ties`, `Results` | suppression, the people behind `Other` and behind a subtraction, what order can change, and the result told from its cells alone |
| `Queries`, `SketchQueries` | the SQL queries over all partitions' tables, exact and by sketch |
| `Handlers`, `Floors`, `Freezing`, `ResultCache` | gate and answers, the k floor, frozen windows, the cache |
| `Counterexamples`, `QueryCounterexamples` | concrete runs where a promise breaks once its condition is dropped |

A run is a sequence of `Action`s from the empty state. The log is fixed and total;
a run reads any prefix of it, so a growing log is covered. A message that does not
decode is `None`. Time is an integer number of nanoseconds. Clocks are parameters.

## What holds, and exactly when

- **Exactly-once content, write-once rows, monotone progress, checkpoint offset**
  hold in every run, failed flushes and crashes included, as long as each resume is
  *harmless*. `AssignHarmlessIff`: from a resume on, every continuation (its own later
  resumes being harmless) keeps all four promises if and only if no event's window ends
  past the watermark resumed from and at or below the stored watermark or the one of a
  commit still in flight.
  `SafeWhateverComesIff`: for every way the log may go on, that is no minute boundary
  in this interval, which the code could check and does not.
  `StaleCommitRegresses` and `UnreadableProgressRegresses` are runs where the stored
  watermark moves back.
- **No loss** is not guaranteed by the code: a failed flush discards the taken
  windows while the in-memory watermark has already advanced. `NoLossIff`: a run
  loses an event if and only if some incarnation commits after one of its own
  flushes failed. `CommitAfterFailureHappens` is such a run.
- **Late is not stable across crashes**: an empty take advances only the in-memory
  watermark (`LateAfterTake`), so an event dropped as Late may be accepted on replay
  (`LateThenAccepted`). `dropped` therefore records what a commit left out for good.
  Such an entry is Late for whoever reads it afterwards (`DroppedIsLate`), and once the
  stored offset is past it, it was read and judged Late (`CheckpointSafe`).
- **What a commit stores** does not depend on what happens between the take and the
  commit: the latest instant heard before the take less thirty seconds, and the least
  offset read by then whose window ends past it (`CommitStoresItsTake`). A drain stores
  the read position (`DrainStoresReadPosition`).
- **The cache key** joins fields with colons. `KeyDeterminesIff`: it determines the
  question if and only if the level is at most 1 or family and wiki are colon-free.
- **The completeness gate** ranges only over partitions that have a progress row.
  `FrozenIff`: no run changes a window's rows any more if and only if every partition's
  stored watermark covers the window or its log has no event in it. `GateFreezesIff`: a
  window the gate admits is frozen if and only if no partition without a progress row
  has an event in it. `GateAdmitsStaleAnswer` and `AskTwice`: two partitions, one not
  flushed yet, and an answer that stays in the cache after it became wrong.
- **The k floor** holds for every number released at levels 1 to 3. For people it
  holds in every visible cell; `Other` adds up hidden children that may share users.
  `OtherFloorIff`: at least k people stand behind `Other`, whoever they are, if and only
  if a child was pulled into it or the parent has k more users than the eligible
  children. `OtherDescribesOnePerson`: one person in two namespaces, k of two.
- **Differencing**: subtracting what is shown from the larger of the parent and the
  children's sum leaves nobody or at least k. Subtracting it from the parent's own
  number need not, although that is what rule 2 of `suppress` is for: children may share
  users, and the code compares only their sum with k. `ParentDifferenceIff` is the exact
  condition; `ParentMinusShown` ties the difference to the people outside the visible
  cells; `DifferenceIsOnePerson` is a table where it is one person, k of two.
- **The global level**: the cell is released whatever its size (`GlobalFloorIff`,
  `GlobalReleasesOnePerson`). `docs/design.md` says no number that describes fewer than
  k distinct users is ever released; `crates/query-api/src/handlers.rs:120-125` and the
  limitation at `crates/query-api/src/privacy.rs:42-47` say otherwise.
- **Sketch answers** do not depend on the order in which the database returns rows:
  on reachable tables no merge panics and every order merges to the sketch of the union.
  If every resume turned sketches on, every row has its column (`StoredColumns`) and
  `estimator=hll` estimates all the cell's people; if every one left them off, it reads
  0 (`SketchQueriesCount`). Where both happened, the rows without a column are missing
  from the union (`SketchCellMeans`).
- **Zero drift** needs a log whose events are not overtaken by earlier timestamps, a
  clock that does not run ahead of unread events, and no commit after a failed flush.

## Model

| member | source | states |
|---|---|---|
| Windows.WindowStart | crates/common/src/window.rs:17-20 | truncation with a signed remainder floors to an aligned start at most one window before the timestamp, on both sides of the epoch |
| Windows.WindowStartUnique | crates/common/src/window.rs:17-24 | an aligned instant whose window contains the timestamp is its window start |
| Windows.WindowStartGreatest | crates/common/src/window.rs:17-24 | the start is the greatest aligned instant not past the timestamp |
| Hierarchy.CellsForEvent | crates/common/src/hierarchy.rs:37-58 | four cells, one per level in order, hence distinct |
| Hierarchy.OneChildPerEvent | crates/common/src/hierarchy.rs:37-80 | an event is in a non-leaf cell if and only if it is in a child of it, and then in exactly one |
| Sketches.Index | crates/common/src/hll.rs:78-79 | the register index is below two to the precision, for every hash |
| Sketches.Rank | crates/common/src/hll.rs:82-83 | the rank lies between 1 and 64 minus the precision, for every hash |
| Sketches.IndexAndRankMean | crates/common/src/hll.rs:76-87 | the index is the top bits; the rank locates the first set bit of the rest; the cap merges the last two cases |
| Sketches.SketchUnique | crates/common/src/hll.rs:76-98 | a user set has one sketch per precision, so order, repetition and splitting cannot show |
| Sketches.InsertSummarises | crates/common/src/hll.rs:76-87 | inserting a user turns the sketch of a set into the sketch of the set with that user |
| Sketches.MergeSummarises | crates/common/src/hll.rs:91-98 | merging the sketches of two sets, overlapping or not, gives the sketch of their union |
| Sketches.DecodeEncode | crates/common/src/hll.rs:124-140 | decoding the encoding of a live sketch returns it, and every byte fits |
| Sketches.EncodeDecode | crates/common/src/hll.rs:131-140 | every accepted byte string re-encodes to itself; below precision byte 64 the register count is the announced power of two |
| Sketches.AcceptedAreEncodings | crates/common/src/hll.rs:131-140 | exactly the encodings of sketches whose register count is the announced power of two are accepted |
| Sketches.MergeBytesAccumulates | crates/query-api/src/db.rs:131-138 | merging a stored column into an accumulator yields the sketch of the union; absent columns change nothing; precisions never clash |
| Sketches.HyperLogLog.constructor | crates/common/src/hll.rs:54-60 | the fresh register array is the empty sketch |
| Sketches.HyperLogLog.Insert | crates/common/src/hll.rs:76-87 | the in-place update equals insertion on values |
| Sketches.HyperLogLog.Merge | crates/common/src/hll.rs:91-98 | the in-place register loop equals the merge on values and leaves the other sketch alone |
| Sketches.MergeHllBytes | crates/query-api/src/db.rs:131-138 | decoding and merging in place equals the merge on values; absent and undecodable sketches change nothing |
| Aggregates.BumpAllPointwise | crates/aggregator/src/window.rs:128-137 | the cell loop bumps each of the event's cells once and nothing else |
| Aggregates.BumpCells | crates/aggregator/src/window.rs:128-137 | the cell loop, with sketches updated in place, equals the bumps on values |
| Aggregates.AddEventHolds | crates/aggregator/src/window.rs:120-138 | folding a new id keeps an open window equal to the log's reference, sketches included |
| Aggregates.FirstEventHolds | crates/aggregator/src/window.rs:120-138 | a window's first event makes a window equal to the reference |
| Aggregates.RepeatHolds | crates/aggregator/src/window.rs:124-126 | a repeated id changes neither the window nor the reference |
| Partitions.SkipTracks | crates/aggregator/src/main.rs:56-67 | messages that do not decode leave memory equal to the reference |
| Partitions.ProcessTracks | crates/aggregator/src/window.rs:107-139 | consuming an event, Late, Duplicate or Accepted, keeps the open windows equal to the reference: exactly the windows past the flushed watermark with events, each with exactly its first occurrences |
| Partitions.TickTracks | crates/aggregator/src/window.rs:145-151 | an idle tick keeps it |
| Partitions.TakeTracks | crates/aggregator/src/window.rs:156-175 | a take keeps it |
| Partitions.CommittedOffsetSafe | crates/aggregator/src/window.rs:182-188 | every event below the committed offset has its window end at or below the flushed watermark |
| Partitions.AtMostTwoOpen | crates/aggregator/src/window.rs:156-175 | at most two windows stay open after a take |
| Partitions.DrainBound | crates/aggregator/src/window.rs:145-188 | an effective tick ninety seconds past the newest timestamp and a take leave nothing open and make every consumed offset safe |
| Partitions.PartitionState.constructor | crates/aggregator/src/window.rs:83-93 | a fresh state resumes at the offset and watermark given |
| Partitions.PartitionState.ProcessEvent | crates/aggregator/src/window.rs:107-139 | the outcome and the new state are the step on values; the newest timestamp becomes the larger of itself and the event's, whichever window the event is in, and the flushed watermark stays |
| Partitions.PartitionState.TickIdle | crates/aggregator/src/window.rs:145-151 | within ten seconds of the last event nothing changes; later the newest timestamp becomes the larger of itself and the clock, and nothing else changes |
| Partitions.PartitionState.TakeClosedWindows | crates/aggregator/src/window.rs:156-175 | returns exactly the closed windows, oldest first; the rest stays; the flushed watermark becomes the larger of itself and the newest timestamp less thirty seconds, whether or not a window was closed |
| Partitions.PartitionState.SafeOffset | crates/aggregator/src/window.rs:182-188 | the least first offset of an open window, or the next offset if none is open |
| Partitions.RemoveWindows | crates/aggregator/src/window.rs:165-170 | the removal loop moves exactly the given windows from the map to the list |
| Storage.WriteStores | crates/aggregator/src/db.rs:46-70 | writing a window equal to the reference stores the reference: counts, distinct users, no row for an empty cell, and with sketches on, for each cell, the 4097 bytes of the sketch of exactly its users; with sketches off, no column |
| Storage.UpsertAllAtOnce | crates/aggregator/src/db.rs:46-70 | distinct windows write distinct rows, so the upserts equal one simultaneous write |
| Storage.UpsertWindows | crates/aggregator/src/db.rs:46-70 | the window loop performs the upserts one after the other |
| Storage.UpsertCells | crates/aggregator/src/db.rs:47-69 | the cell loop upserts each cell's row, in any order, and touches no other |
| Storage.Database.FlushWindows | crates/aggregator/src/db.rs:37-89 | the partition's progress becomes the offset and watermark given, together with its rows: each cell's counts and its sketch in bytes; other rows and other partitions do not change |
| Protocol.TakeOffsetGrows | crates/aggregator/src/flush.rs:19-32 | the offset a non-empty take computes is never behind the stored one |
| Protocol.CommitKeepsStored | crates/aggregator/src/db.rs:54-56 | a commit rewrites no stored window |
| Protocol.CommitStores | crates/aggregator/src/db.rs:37-89 | a commit stores the reference at the position of the take, whatever was processed since, with the sketch column of exactly the users of each cell if sketches were on |
| Protocol.AssignInv | crates/aggregator/src/rebalance.rs:106-135 | a harmless resume keeps the invariant, even under a commit in flight |
| Protocol.StepInv | crates/aggregator/src/flush.rs:14-64 | every step, in any interleaving, keeps the invariant of memory, batch and tables |
| Protocol.RunInv | crates/aggregator/src/flush.rs:14-64 | so does every run |
| Durability.CommitExtends | crates/aggregator/src/db.rs:54-85 | a commit adds rows only to windows the stored watermark had not covered, and none that exists |
| Durability.RunExtends | crates/aggregator/src/db.rs:54-85 | over any run no row changes or disappears, covered windows gain no row, and stored offset and watermark never decrease |
| Durability.WrittenOnce | crates/aggregator/src/db.rs:54-78 | any run writes each row at most once, and never one that is there |
| Durability.ExactlyOnce | crates/aggregator/src/window.rs:107-175 | every stored row is the count over first occurrences per id below the position of its take, with the sketch of exactly its users |
| Durability.LiveSketchAgrees | crates/aggregator/src/window.rs:128-137 | in every reachable state every open cell's sketch is the sketch of its exact user set |
| Durability.MemoryBound | crates/aggregator/src/window.rs:156-175 | in every reachable state at most two windows stay open after a take |
| Durability.DrainsFromAnywhere | crates/aggregator/src/window.rs:145-188 | the drain bound from every reachable state |
| Durability.StoredColumns | crates/aggregator/src/db.rs:48-66 | over runs whose resumes all turn sketches on, every stored row has the 4097-byte column of the sketch of exactly the users it counts; with all off, no row has one |
| Watermarks.NewestIsLatestHeard | crates/aggregator/src/window.rs:107-112 | in every reachable state the newest timestamp is the latest of the timestamps read since the resume, the clocks of idle ticks, and the watermark resumed from; the read position is one past the last event read |
| Watermarks.TickNeedsIdleness | crates/aggregator/src/window.rs:145-151 | in every reachable state a tick within ten seconds of the last event read, or of the resume, changes nothing; a later one makes its clock the newest timestamp if it is ahead |
| Watermarks.LateAfterTake | crates/aggregator/src/window.rs:171-173 | after any take, empty or not, an event is Late if and only if it was before or its window ends at least thirty seconds before something heard |
| Watermarks.LateOtherwise | crates/aggregator/src/window.rs:114-118 | no other step changes which events are Late, except a resume, after which it is those whose window ends at or below the stored watermark, or a clock reading less twenty-four hours |
| Watermarks.VerdictMeans | crates/aggregator/src/window.rs:114-126 | in every reachable state the verdict is Late by the watermark, else Duplicate if and only if an earlier entry read has the window and the id, else Accepted |
| Watermarks.TakeSplitsOpen | crates/aggregator/src/window.rs:156-175 | a take puts in flight, unchanged, exactly the open windows that end at least thirty seconds before something heard, keeps the others, and touches no clock or position |
| Watermarks.CommitStoresItsTake | crates/aggregator/src/db.rs:72-85 | whatever is read, ticked, revoked or resumed between a take and its commit, the stored watermark is the latest instant heard before the take less thirty seconds, and the stored offset is the least position read by then whose window ends past it, or the read position if there is none |
| Watermarks.DrainStoresReadPosition | crates/aggregator/src/flush.rs:19-36 | with a window open and nothing in flight, an idle tick ninety seconds past everything heard, a take and a commit leave nothing open and store the read position and the tick's clock less thirty seconds |
| Watermarks.ResumeReadsAgain | crates/aggregator/src/rebalance.rs:106-135 | a resume starts with nothing open from the stored offset and watermark, or, with none to be read, from offset 0 with a watermark twenty-four hours old, with sketches as configured; every event the stored watermark does not cover is read again |
| Handovers.ReadAndFlush | crates/aggregator/src/flush.rs:19-36 | from memory below a window with an event, reading on, a tick, a take and a commit store that window from every event of the log |
| Handovers.AssignHarmlessIff | crates/aggregator/src/rebalance.rs:103-113 | after a resume every continuation keeps rows, write-once, monotone progress, exactly-once content and the checkpoint offset if and only if no event's window ends between the watermark resumed from and the newest one stored or in flight |
| Handovers.CanStillStore | crates/aggregator/src/rebalance.rs:106-135 | from every reachable state an uncovered window with an event can still get its rows |
| Growth.InvGrows | crates/aggregator/src/rebalance.rs:106-135 | the invariant of a partition without memory survives every growth of the log |
| Growth.SafeWhateverComesIff | crates/aggregator/src/rebalance.rs:106-113 | a resume keeps every promise over every continuation of the log and every run on it if and only if no minute boundary lies between the watermark resumed from and the newest one |
| Accounting.StepAccounts | crates/aggregator/src/flush.rs:19-47 | every step keeps the account of every entry read: open, in flight, Late, in a failed window, or stored |
| Accounting.CommitAfterFailureLoses | crates/aggregator/src/flush.rs:41-44 | a commit after a failed flush of the same incarnation loses an accepted event |
| Accounting.RunKeepsLost | crates/aggregator/src/flush.rs:41-44 | a lost event stays lost in every continuation |
| Accounting.NoLossIff | crates/aggregator/src/flush.rs:19-47 | a run loses no event if and only if no incarnation commits after one of its flushes failed |
| Accounting.RejectedIsJudged | crates/aggregator/src/window.rs:114-118 | the history of rejected entries is exactly the entries some delivery of the run judged Late |
| Accounting.DroppedIsLate | crates/aggregator/src/window.rs:114-118 | what a commit left out is Late for any memory that exists afterwards |
| Accounting.CheckpointSafe | crates/aggregator/src/window.rs:182-188 | every event below the stored offset is covered by the stored watermark, and is either counted by id in all its cells' rows or was read and judged Late and dropped, never both |
| ZeroDrift.BoundedBackdatingIsOrderly | crates/loadgen/src/generator.rs:48-55 | events sent less than the allowed lateness after their timestamps form an orderly log |
| ZeroDrift.RunOnTime | crates/aggregator/src/window.rs:107-175 | over an orderly log and a punctual clock nothing is ever dropped as Late |
| ZeroDrift.WholeLogStored | crates/aggregator/src/window.rs:107-189 | then every window the stored watermark covers holds exactly the counts of the entire log |
| Truth.TruthCounts | crates/loadgen/src/generator.rs:132-142 | the recorded entry is the number of logical events of the cell and window and the set of their users |
| Truth.Generator.RecordTruth | crates/loadgen/src/generator.rs:132-142 | the loop over the four cells equals the step on values |
| Truth.LogCountsStream | crates/loadgen/src/generator.rs:79-91 | a log that carries the stream with duplicates and in any order counts each logical event once |
| Truth.ReconcileFindsNoDrift | crates/loadgen/src/generator.rs:132-142 | over any number of partitions, crashes and replays, the summed rows of a window all have flushed equal the ground truth, events and distinct users |
| Aggregators.TakePartition | crates/aggregator/src/flush.rs:23-30 | a partition with closed windows yields exactly them with the offset and watermark after the take; one without yields nothing |
| Aggregators.Aggregator.TakeAll | crates/aggregator/src/flush.rs:19-32 | every partition takes, and the batches are exactly those of the partitions with closed windows |
| Aggregators.Aggregator.TickAll | crates/aggregator/src/flush.rs:52-64 | every partition ticks |
| Aggregators.Aggregator.DropRevoked | crates/aggregator/src/rebalance.rs:65-76 | exactly the revoked partitions lose their memory |
| Aggregators.Aggregator.ResumeAssigned | crates/aggregator/src/rebalance.rs:78-138 | exactly the assigned partitions resume, each from its progress or the default |
| Aggregators.TakePhaseIsTake | crates/aggregator/src/flush.rs:19-32 | the batch of the take phase is the batch the state machine commits |
| Aggregators.WriteAll | crates/aggregator/src/flush.rs:34-47 | each batch is its own transaction: every partition's tables end up as its commit or its failed flush leaves them, and no other partition's change |
| Aggregators.Aggregator.FlushRound | crates/aggregator/src/flush.rs:14-48 | a round of the loop is the state machine's take and then commit or failed flush, in every partition |
| Privacy.ReleaseConserves | crates/query-api/src/privacy.rs:52-72 | the hidden side stands for exactly the users and events not shown |
| Privacy.SuppressionSafe | crates/query-api/src/privacy.rs:52-101 | every released number is at least k; subtracting what is shown from the larger of the parent and the children's sum leaves nobody, at least k, or nothing was shown |
| Privacy.OtherClosesTheBooks | crates/query-api/src/privacy.rs:89-101 | when `Other` is among the cells, visible plus `Other` equals the children's events and the larger of parent and children users |
| Privacy.SuppressionOptimal | crates/query-api/src/privacy.rs:48-104 | no admissible release shows more children or more users |
| Privacy.ReleaseIsAChoice | crates/query-api/src/privacy.rs:48-104 | the release is a choice of the given children, sorted, and admissible unless it shows nothing |
| Privacy.SuppressionIgnoresOrder | crates/query-api/src/privacy.rs:60-72 | the released user counts are the same for every order of the children |
| Privacy.SplitByK | crates/query-api/src/privacy.rs:49-58 | the split keeps order on both sides and loses no child |
| Privacy.Suppress | crates/query-api/src/privacy.rs:48-104 | the loops compute the release that the rows under `Results` describe, pull at most once, and overflow no `u64` sum when parent and children fit |
| OtherFloor.OtherDescribesK | crates/query-api/src/privacy.rs:42-47 | with a pulled child, or a parent k above the eligible children, at least k people stand behind `Other` |
| OtherFloor.FewestBehindOther | crates/query-api/src/privacy.rs:42-47 | people that give every cell its count and share as much as the counts allow |
| OtherFloor.OtherFloorIff | crates/query-api/src/privacy.rs:42-101 | over all people with these counts, at least k stand behind `Other` if and only if a child was pulled or the parent has k more users than the eligible children |
| OtherFloor.OtherFloorFromChildrenIff | crates/query-api/src/privacy.rs:42-101 | from the hidden children's counts alone, if and only if a child was pulled |
| OtherFloor.ParentDifferenceIff | crates/query-api/src/privacy.rs:34-72 | subtracting what is shown from the parent's own number leaves fewer than k but somebody if and only if an eligible child stays visible and the parent is above the visible sum by less than k; never if the parent is at least the children's sum |
| OtherFloor.DifferenceCountsPeople | crates/query-api/src/privacy.rs:34-39 | the difference is at most the number of people outside all visible cells, and exactly that with one visible cell |
| Ties.ReleasesDifferInTies | crates/query-api/src/privacy.rs:60-72 | for the same children in two orders, the cells shown differ at most at the least eligible count, and only if a child is pulled |
| Ties.SuppressionDiffersInTies | crates/query-api/src/privacy.rs:60-101 | two results for the same children have the same counts in sequence, agree on every visible cell above the tie, and are permutations of each other unless a child is pulled |
| Results.ResultIsAChoice | crates/query-api/src/privacy.rs:48-87 | the visible cells of a result are children as they came, in ascending order of users, an admissible choice unless none is visible |
| Results.ResultIsOptimal | crates/query-api/src/privacy.rs:48-104 | no admissible choice has more cells, or more users, than the result shows |
| Results.OtherReleasedIff | crates/query-api/src/privacy.rs:89-101 | `Other` is in the result if and only if a child is not visible and the larger of the parent and the children's sum exceeds the visible users by at least k; it is then the last cell, the only `Other`, and carries exactly the rest of the users and of the children's events |
| Results.ResultSuppresses | crates/query-api/src/privacy.rs:48-104 | the visible cells are an admissible choice of the children in ascending order that no admissible choice beats in cells or users, and `Other` is there, last, with the rest, exactly when a child is missing and at least k of the users are |
| Results.SortIsStable | crates/query-api/src/privacy.rs:61-63 | cells with equal counts keep their order, so of tied children the first returned is pulled |
| Queries.ChildrenQueryExact | crates/query-api/src/db.rs:66-117 | on canonical keys WHERE selects exactly a cell's children and GROUP BY keeps them apart |
| Queries.EventCellsCanonical | crates/common/src/hierarchy.rs:37-58 | every key the aggregator writes has its rolled-up columns filled with the sentinels |
| Queries.ContributesMeans | crates/common/src/hierarchy.rs:37-58 | an event is counted in exactly the canonical cells that agree with it on every dimension their level keeps |
| Queries.ReachableCanonical | crates/aggregator/src/window.rs:128-131 | every key of a reachable table is canonical |
| Queries.QueryReturnsChildren | crates/query-api/src/db.rs:61-129 | the query returns the cell's children in the hierarchy, each once, with its own sums, in the order of the groups |
| Queries.RowsMatchLog | crates/query-api/src/db.rs:29-56 | in a reachable state a partition's row, or its absence, is the log's count, distinct users and sketch |
| Queries.PartConserves | crates/common/src/hierarchy.rs:37-80 | within a partition a parent's events are its children's sum and its users lie between the largest child and the sum |
| Queries.ConservedAcrossPartitions | crates/query-api/src/db.rs:61-129 | of what the two queries return, the parent's events are the children's sum, its users lie between the largest child and the sum, and the residual of `suppress` is zero |
| Queries.EveryoneOfChildren | crates/common/src/hierarchy.rs:37-80 | over all partitions the people of a cell are those of its stored children |
| Queries.ExactSumsFit | crates/query-api/src/privacy.rs:60-72 | if the parent's sum of events fits `bigint`, every sum of `suppress` fits `u64` |
| Queries.DistinctUsersExact | crates/query-api/src/db.rs:26-56 | with users routed to one partition the summed user counts equal the number of distinct users |
| Queries.CountedEventsExact | crates/query-api/src/db.rs:29-56 | the summed events equal the number of events counted over all partitions |
| SketchQueries.MergeRowsAccumulates | crates/query-api/src/db.rs:170-175 | merging a cell's rows in any order never panics and gives the sketch of the union of the exact user sets behind the stored sketches |
| SketchQueries.MergeIgnoresOrder | crates/query-api/src/db.rs:170-175 | two merges over the same partitions, in any two orders, agree |
| SketchQueries.EventsAnyOrder | crates/query-api/src/db.rs:170-175 | adding up the rows in any order is the sum over partitions |
| SketchQueries.SketchCellMeans | crates/query-api/src/db.rs:140-184 | the users of a sketch cell are 0 where no sketch is stored, and otherwise the estimate of the one sketch of those users |
| SketchQueries.SketchCellCounts | crates/query-api/src/db.rs:140-184 | if every resume turned sketches on, the users of a sketch cell, wherever a row exists, are the estimate of the one sketch of all its people over all partitions; if every one left them off, 0 |
| SketchQueries.FetchCellHll | crates/query-api/src/db.rs:146-184 | the loop returns what its row order determines, and nothing without rows |
| SketchQueries.GroupRows | crates/query-api/src/db.rs:230-235 | the grouping map holds for each key the sum and merge of its rows, in the order they came |
| SketchQueries.FetchChildrenHll | crates/query-api/src/db.rs:187-247 | every selected child once, with the sum and merge of its rows |
| SketchQueries.GroupedCellsAre | crates/query-api/src/db.rs:187-247 | on reachable tables the result depends on neither the row order nor the map order, up to the order of the cells |
| Handlers.GateMeans | crates/query-api/src/handlers.rs:73-86 | the gate passes if and only if some partition has progress and all that have it cover the window |
| Handlers.LatestWindowExact | crates/query-api/src/handlers.rs:212-220 | the latest window is the greatest aligned start the gate admits |
| Handlers.ParentKeySelects | crates/query-api/src/handlers.rs:176-193 | the children of the parent key are the cells of the level, family and wiki asked for |
| Handlers.CellRead | crates/query-api/src/handlers.rs:136-146 | what a cell query returns is determined, exact or by sketch |
| Handlers.ChildrenRead | crates/query-api/src/handlers.rs:136-146 | what a children query returns is determined up to order: the children in the hierarchy, each once |
| Handlers.ExactQueriesCount | crates/query-api/src/db.rs:26-129 | the exact queries return the cell and each of its stored children once, under its own names, with the number of its events and of its distinct people |
| Handlers.SketchQueriesCount | crates/query-api/src/db.rs:140-247 | the sketch queries return the cell, if it has a row, and each of its stored children once, under its own names, with its events and the estimate of the sketch of all its people |
| Handlers.AnswersAgree | crates/query-api/src/handlers.rs:105-156 | any two answers to a query, exact or by sketch, with rows and groups in any orders, are the same up to children tied at the least eligible count |
| Handlers.AnswerSumsFit | crates/query-api/src/handlers.rs:136-148 | no sum of `suppress` overflows on what the queries return |
| Handlers.ComputeStats | crates/query-api/src/handlers.rs:105-156 | the queries and `suppress`, run one after the other, give an answer; no merge panics and no sum overflows |
| Floors.ExactAnswersSafe | crates/query-api/src/handlers.rs:136-156 | exact answers at levels 1 to 3 release no number below k, obey conservation and hide only real children |
| Floors.ExactAnswerPeople | crates/query-api/src/privacy.rs:42-101 | with routed users a visible cell shows the number of its distinct people, at least k, and k people of the parent's stored hidden children stand behind `Other` under the condition of `OtherFloorIff` |
| Floors.ExactAnswerIs | crates/query-api/src/handlers.rs:136-156 | an exact answer at levels 1 to 3 from the logs alone: the parent's stored children with their counted events and people, suppressed as `Results.ResultSuppresses` says |
| Floors.SketchAnswerIs | crates/query-api/src/handlers.rs:136-156 | the same by sketch, with the parent's and the children's users estimated for all their people |
| Floors.ParentMinusShown | crates/query-api/src/privacy.rs:34-72 | in an exact answer the parent minus the visible cells is at most, and with one visible cell exactly, the number of the parent's people outside them; it is unsafe exactly under the condition of `ParentDifferenceIff` on the stored children |
| Floors.GlobalFloorIff | crates/query-api/src/handlers.rs:106-134 | at the global level the released number is the number of distinct people, and the floor holds if and only if that is at least k |
| Floors.GlobalAnswerIs | crates/query-api/src/handlers.rs:106-134 | the exact global answer is one cell with the events counted and the distinct people, visible from k people on and `Other` below |
| Floors.GlobalSketchAnswerIs | crates/query-api/src/handlers.rs:106-134 | by sketch it is empty without rows, and otherwise one cell with the events counted and the estimate for everyone, visible from k on |
| Freezing.CoveredViewFrozen | crates/query-api/src/handlers.rs:73-86 | the rows of a window every partition covers never change |
| Freezing.FrozenIff | crates/query-api/src/db.rs:14-24 | no run changes a window's rows if and only if every partition covers it or has no event in it |
| Freezing.GateFreezesIff | crates/query-api/src/handlers.rs:73-86 | a window the gate admits is frozen if and only if no partition without progress has an event in it |
| ResultCache.PlainKeyDetermines | crates/query-api/src/handlers.rs:88-95 | a key of a query with plain names belongs to one question |
| ResultCache.ColonCollides | crates/query-api/src/handlers.rs:88-95 | a name with a colon always shares its key with another question |
| ResultCache.KeyDeterminesIff | crates/query-api/src/handlers.rs:88-95 | the key determines the question if and only if the level is at most 1 or the names are colon-free |
| ResultCache.CacheStaysSound | crates/query-api/src/handlers.rs:96-102 | cached answers stay answers on every later state of the tables |
| ResultCache.HitIsAnswer | crates/query-api/src/handlers.rs:96-98 | a hit for a query with plain names answers it |
| ResultCache.QueryApi.GetStats | crates/query-api/src/handlers.rs:59-103 | Bad Request if and only if the level is not 0 to 3, or a family is missing from level 2 on, or a wiki at level 3; Conflict if and only if the gate does not admit the window; hits return the cached response, misses an answer for the window and level asked; with commits between the gate and the queries the cache stays sound and plain names are answered |
| ResultCache.CachedEqualsFresh | crates/query-api/src/handlers.rs:88-103 | after any further aggregator steps a cached response, exact or by sketch, is one recomputation may give, and the same as every such response up to ties |
| Counterexamples.CommitAfterFailureHappens | crates/aggregator/src/flush.rs:41-44 | a concrete run that commits after a failed flush and loses an event |
| Counterexamples.UnreadableProgressRegresses | crates/aggregator/src/rebalance.rs:109-112 | a concrete run where an unreadable progress row moves the stored watermark back |
| Counterexamples.StaleCommitRegresses | crates/aggregator/src/flush.rs:34-47 | a concrete run where a commit in flight across a reassignment lets the stored watermark move back |
| Counterexamples.LateThenAccepted | crates/aggregator/src/flush.rs:23-26 | a concrete run where an event is Late after a take that closed nothing, and accepted when the partition resumes and reads it again |
| QueryCounterexamples.GateAdmitsStaleAnswer | crates/query-api/src/db.rs:18-24 | a concrete pair of partitions, one without progress, where the gate admits a window and every earlier answer differs from every later one |
| QueryCounterexamples.AskTwice | crates/query-api/src/handlers.rs:96-102 | asked before and after, the endpoint gives the same reply from the cache |
| QueryCounterexamples.OtherDescribesOnePerson | crates/query-api/src/privacy.rs:42-101 | a concrete table where `Other` is released with two users and one person stands behind it |
| QueryCounterexamples.GlobalReleasesOnePerson | crates/query-api/src/handlers.rs:120-125 | a concrete table whose global cell is below k and is released |
| QueryCounterexamples.DifferenceIsOnePerson | crates/query-api/src/privacy.rs:34-39 | a concrete table where a wiki's released number minus its one visible namespace is one, the one person outside it, below k |

## Left out

- `HyperLogLog::estimate` and its accuracy: floating point; the handlers take the rounded estimate as an arbitrary function of the merged sketch, and its sums are assumed to fit `u64`.
- `hash_item` and `fmix64`: every result about sketches holds for an arbitrary hash to 64-bit words.
- `1usize << precision` in `from_bytes`: modelled as the release build computes it, distance modulo 64; a debug build panics from 64 on.
- Differential privacy (`dp.rs`, `apply_dp_noise`): random sampling; answers are stated with noise off.
- Pseudonymization and routing: a user is opaque, and routing is an assumption or a function.
- Kafka: offsets have no gaps, delivery is in order from the resume offset, and the earliest offset is 0; retention, seek failures and the fallback state of the consumer loop for an unassigned partition are not modelled.
- Two live owners at once: a reassignment under a commit in flight is modelled; two memories of one partition are not.
- Time range: the truncation fails outside the years that fit 64-bit nanoseconds; the model has no such limit. Stored instants are truncated to microseconds, which cannot change a comparison with a whole minute.
- Integer widths of stored counts (`i64`) and of offsets: unbounded here; only the sums of the queries and of `suppress` are bounded, under the limit their casts to `bigint` set.
- Cache eviction: the cache only grows here; `ResultCache.CacheSound` is stated entry by entry, so dropping entries cannot break it.
- Liveness: an idle partition with no open window never stores its watermark, so no progress claim holds for the minimum.
- Ambiguous commits: a transaction that commits although the client sees an error is the `Commit` step.
- Tokio scheduling, metrics, lag, configuration, gateway, wiki source, event validation: plumbing or easy mappings.
- `reconcile`'s map comparison: it would only add an easy member to `Truth.ReconcileFindsNoDrift`.
- Indexes and daily partitions of the tables: performance only.
