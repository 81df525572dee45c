# Verification of the pool's allocation, lifecycle and encodings

This project models the key-space pool server in Dafny 4.11 and proves what its allocator, its job lifecycle, its
visualization cache and its encodings promise. `dafny verify dfyconfig.toml` checks everything.

## What is modelled

Tables are sequences and maps of rows in the class `PoolModel.PoolDb`; a SQL statement is a loop over them. Row ids are
positions. Key and chunk columns hold numbers: `HexBigint.HexOrder` and `HexBigint.HexRoundTrip` show that the fixed-width
text columns select and sort as the numbers do. Every handler that writes rows runs under one lock, so a request is one
atomic step. `ORDER BY RANDOM()` is an arbitrary choice, the keyed hash an arbitrary function, the clock a parameter.

| Files | Part of the program |
|---|---|
| `Digits`, `Bits`, `Sets`, `Wrappers` | arithmetic and set facts used below |
| `HexBigint` | hexadecimal text and big-integer helpers |
| `CycleWalk`, `Permutation` | Feistel network with cycle walking, affine map |
| `Intervals`, `BlockedRanges` | merged interval lists, overlap search, blocked-range store |
| `AllocSearch`, `VirtualJobs`, `JobOrder`, `Legacy`, `Allocator` | run searches, virtual-chunk jobs and their order, sectors, and the allocator object |
| `PoolModel`, `Lifecycle`, `WorkService`, `SubmissionService` | tables, what each request does to them, the two services |
| `LifecycleSafety`, `PoolTheorems` | invariants over every run and what they mean |
| `WorkAnswers`, `RequestOutcomes`, `JobHistory` | what each request answers and writes, column by column, and how rows get their status in every run |
| `ImportRanges`, `Stats` | range import and dashboard sums |
| `VisCache`, `VisProtocol`, `PanelWrites`, `PoolPanels` | cached panels, the handler protocol, which requests invalidate, and what follows for the pool |
| `ReachedCases` | runs that reach the cases in which a promised property fails |
| `Hilbert`, `PuzzleStatus`, `Bech32`, `Regroup`, `Base64Url` | Hilbert curve, Base58, Bech32, bit regrouping, base64url |

A class method is proved against a function of the old tables (`Lifecycle.Work`, `Lifecycle.SubmitFound`,
`VirtualJobs.AfterJob`, `BlockedRanges.InsertOrMerge`, `VisCache.Commit`), and the lemmas are about that function. `WorkAnswers`,
`RequestOutcomes` and `JobHistory` state the resulting answers and columns outright. The run
theorems range over arbitrary sequences of nine operations; the allocator's outcome in a work step is any one that its
search relation allows, and `WorkService.AssignWork` shows that the code produces such a one.

## Where the code differs from what one might expect

- The search can overlook free chunks. A failing call is proof that none is free if and only if the call looks at every
  chunk (`VirtualJobs.NeverOverlooksIff`): after the bootstrap, if and only if there are at least as many probes as chunks
  (`VirtualJobs.CompleteIff`). During the bootstrap the stage adds its own probes, so that in the middle stage more than
  half as many are enough (`VirtualJobs.MiddleStageComplete`). `ReachedCases.OverlookReached` is a run in which a free
  chunk is overlooked, for every probe limit and order.
- A repeated FOUND report changes nothing, with one exception: when an administrator has set the row's test span again,
  it is cleared again (`PoolTheorems.ReportingAgain`). `ReachedCases.TestSpanBackReached` is a run that does so.
- Two requests change panels without invalidating them (`PanelWrites.CoveredExceptTwo`): a rejected under-scan, and the
  reclaim of a returning worker's jobs in a puzzle other than the one answered for, or when the answer is an error. Without
  them every panel is fresh (`PoolPanels.PoolPanelsFresh`); each of them, once a run allows it, leads to a stale panel
  (`PoolPanels.UnbumpedServesStale`), and runs do allow both (`ReachedCases`).
- Invalidating all puzzles gives a puzzle without a revision the value 1, which is no change. That is harmless, because
  no handler can have seen an earlier one (`VisProtocol.WriteKeeps`).
- docs/api.md:691 says that `already_blocked` counts range ids. The code counts merged intervals, and so does the model.
- Once a row is FOUND, its own worker's report of another key is rejected, unless the first key of the report is one that
  is recorded already (`RequestOutcomes.FoundAnswer`).
- A legacy chunk size of zero or less makes every request fail, and the sectors closed on the way are rolled back.

## Model

| member | source | states |
|---|---|---|
| `Allocator.Allocator.AssignVirtualChunkJob` | src/allocator.cpp:203-286 | One call: the tables change by exactly the job that the search relation allows (bootstrap first while fewer than three jobs were issued and the stage is below 3, then the walk from the cursor, sizes from the needed one down), with the cursor behind the chosen probe and the stage moved on; when the search fails nothing changes, the stage bump included |
| `VirtualJobs.JobExact` | src/allocator.cpp:203-286 | With a probe for every chunk, the job has exactly min(needed, longest run of consecutive free chunks) chunks and a call fails exactly when no chunk is free |
| `VirtualJobs.JobSound` | src/allocator.cpp:203-286 | Whatever the probe limit, the run lies in the puzzle, is free, and has between 1 and the needed number of chunks |
| `JobOrder.BootstrapFirst` | src/allocator.cpp:225-235 | A bootstrap job is made exactly while fewer than three non-test rows exist, the stage is below 3 and the stage finds a run of some size; it has the largest such size |
| `JobOrder.BootPlaces` | src/allocator.cpp:505-575 | Among all free runs of its size, stage 0 takes the one nearest to the middle (of two equally near the left one), stage 1 the leftmost, stage 2 the rightmost |
| `JobOrder.TriedIs` | src/allocator.cpp:249-255 | The probe at an offset tries the chunk that the order has at position (cursor + offset) mod n, moved left where the run would not fit |
| `JobOrder.FirstInOrder` | src/allocator.cpp:249-264 | A walk takes the first probe, counted from the cursor, at which a run of its size is free |
| `JobOrder.LargestFirst` | src/allocator.cpp:262-283 | No larger run, up to the needed size, is free at any probe of the walk |
| `JobOrder.RowAfterJob` | src/allocator.cpp:256-260 | In the puzzle row a job changes cursor and stage only: the bootstrap raises the stage by one and keeps the cursor, a walk leaves stage 3 or what was beyond |
| `JobOrder.NextProbe` | src/allocator.cpp:256-257 | After a walk the search goes on behind the probe that succeeded: the run tried at offset d from the new cursor is the one at offset + 1 + d from the old one |
| `JobOrder.WalksTakeTurns` | src/allocator.cpp:249-283 | Over any series of successful walks call i takes the run at its turn, counted from the first cursor |
| `JobOrder.TurnsAdvance` | src/allocator.cpp:249-283 | Turns only grow: the positions issued never go back |
| `JobOrder.NoTurnTwice` | src/allocator.cpp:249-283 | Before a full round is over no position of the order comes up twice |
| `WorkAnswers.NewVirtualRow` | src/allocator.cpp:577-601 | The row of a new virtual-chunk job: the picked run and its keys, assigned to the worker with both times now |
| `VirtualJobs.NeverOverlooksIff` | src/allocator.cpp:203-286 | For a puzzle row and an order, a call that fails leaves no chunk free, whatever the tables hold otherwise, if and only if walk and bootstrap stage together try the run of one chunk at every chunk |
| `VirtualJobs.CompleteIff` | src/allocator.cpp:242-283 | For a puzzle past the bootstrap that holds if and only if the probe limit is at least the number of chunks; the witness is a table of blocked rows that leaves one chunk free |
| `VirtualJobs.MiddleStageComplete` | src/allocator.cpp:553-575 | In the first bootstrap stage, which looks both ways from the middle, more probes than half the number of chunks are enough |
| `AllocSearch.WalkLooksAtAll` | src/allocator.cpp:242-283 | The walk tries every chunk exactly when it makes a probe for every chunk, from any cursor and in either order |
| `ReachedCases.OverlookReached` | src/allocator.cpp:203-286 | For every probe limit, every count above three times the limit and every order, a run from the empty tables (add a puzzle, import all chunks but one) in which the next worker is told that the key space is used up while a chunk is free |
| `AllocSearch.FullSearch` | src/allocator.cpp:248-283 | With a probe for every chunk the walk over all sizes fails exactly when no chunk is free |
| `AllocSearch.StageComplete` | src/allocator.cpp:505-575 | With enough probes each bootstrap stage fails on a size exactly when no run of that size is free |
| `AllocSearch.StageSound` | src/allocator.cpp:505-575 | What a bootstrap stage picks is a free run inside the puzzle |
| `AllocSearch.LongestCapped` | src/allocator.cpp:262-283 | Asking for k chunks can yield min(k, longest free run) |
| `VirtualJobs.FreeAfterJob` | src/allocator.cpp:577-601 | A job takes exactly its run out of the free chunks and leaves every other puzzle alone |
| `VirtualJobs.CallsExhaust` | src/allocator.cpp:203-286 | In any series of calls at most count succeed; with a probe for every chunk a call fails only in a state in which issued and blocked chunks cover the puzzle |
| `VirtualJobs.CallsUseUp` | src/allocator.cpp:203-286 | Every successful call uses up at least one free chunk, over any series of calls |
| `VirtualJobs.KeysOfRun` | src/allocator.cpp:603-611 | A run's key range is non-empty, lies in the puzzle, and holds exactly the keys whose virtual chunk is in the run |
| `VirtualJobs.DisjointRuns` | src/allocator.cpp:603-611 | Runs without a common chunk have no common key |
| `VirtualJobs.NeededChunks` | src/allocator.cpp:215-219 | Between 1 and count, and the least number of chunks that holds the requested keys when that lies in between |
| `VirtualJobs.RequestedKeys` | src/allocator.cpp:293-302 | At least the target and the worker's minimum, a multiple of the worker's quantum, and less than one quantum above |
| `VirtualJobs.Ensured` | src/allocator.cpp:16-43 | A well-sized puzzle is left alone unless reseeding is on and it has no jobs, and then has the default size; every other one with a stored size or no count becomes well-sized, with cursor and stage back to 0 |
| `Allocator.Allocator.EnsureAllocator` | src/allocator.cpp:16-49 | An exception is thrown exactly for a missing puzzle or an empty range that has to be cut, and changes nothing; otherwise a virtual-chunk puzzle gets the columns of Ensured and its blocked list is loaded, and a legacy puzzle without sectors gets them |
| `Allocator.Allocator.EnsureVirtualChunks` | src/allocator.cpp:27-42 | Seeds a puzzle whose count is not the expected one and, with reseeding on, one without jobs whose size is not the default |
| `Allocator.Allocator.SeedVirtualChunks` | src/allocator.cpp:86-111 | Size capped by the range, count rounded up, cursor and stage back to 0 |
| `Allocator.Allocator.RangeIsFree` | src/allocator.cpp:489-495 | True exactly for a non-empty range of non-negative start with no chunk in either in-memory list |
| `Allocator.Allocator.OverlapsInMemory` | src/allocator.cpp:423-440 | A puzzle without a list overlaps nothing; otherwise the answer is whether some chunk of the range is covered |
| `Allocator.Allocator.LoadBlockedRanges` | src/allocator.cpp:401-421 | The in-memory list becomes canonical and covers exactly what the table blocks for the puzzle, over all sources |
| `Allocator.Allocator.LoadOccupiedRanges` | src/allocator.cpp:442-471 | The in-memory list becomes canonical and covers exactly the chunks of the puzzle's non-test jobs of any status |
| `Allocator.Allocator.FindBeginBootstrapRun` | src/allocator.cpp:532-540 | The leftmost usable start within the probe limit, or none when all probes fail |
| `Allocator.Allocator.FindEndBootstrapRun` | src/allocator.cpp:542-551 | The rightmost usable start within the probe limit, or none when all probes fail |
| `Allocator.Allocator.FindMidBootstrapRun` | src/allocator.cpp:553-575 | The usable start nearest to the middle, left before right, or none when all probes fail, although starts already tried are skipped |
| `Allocator.Allocator.FindBootstrap` | src/allocator.cpp:505-530 | The largest size at which the stage finds a run, with every larger size failing |
| `Allocator.Allocator.ProbeOrder` | src/allocator.cpp:249-264 | The first offset of the walk at which the run is free; skipping starts already tried loses nothing |
| `Allocator.Allocator.FindWalk` | src/allocator.cpp:248-283 | The largest size for which the walk finds a run, at its first offset, with every larger size failing at every probe |
| `Allocator.Allocator.AssignBootstrap` | src/allocator.cpp:505-530 | One job row and the next stage, or no change when the stage fails at every size |
| `Allocator.Allocator.RecordWalk` | src/allocator.cpp:256-260 | One job row, the cursor behind the probe, and stage 3 unless it is beyond already |
| `Allocator.Allocator.InsertOrMergeBlockedRange` | src/allocator.cpp:329-399 | The table and the return value are those of the specification that the BlockedRanges lemmas are about |
| `BlockedRanges.InsertCorrect` | src/allocator.cpp:329-399 | The store stays in normal form (no empty row, strict gaps within a source) and its coverage becomes exactly old union new, other sources and puzzles untouched |
| `BlockedRanges.InsertReturns` | src/allocator.cpp:374-398 | Returns 0 exactly when the source already covered the range, and then changes nothing; otherwise 1 |
| `BlockedRanges.InsertAllCorrect` | src/allocator.cpp:329-399 | The same for any series of insertions |
| `BlockedRanges.NormalUnique` | src/allocator.cpp:329-399 | Two stores in normal form with the same coverage hold the same rows |
| `BlockedRanges.ImportOrderIrrelevant` | src/allocator.cpp:329-399 | Any order and any cut of the same imports leaves the same rows |
| `Intervals.MergeSorted` | src/allocator.cpp:413-419 | The merge pass over rows sorted by start yields a strictly gapped list with the same union |
| `Intervals.Load` | src/allocator.cpp:401-421 | Dropping empty rows, sorting and merging keeps the union and yields a canonical list |
| `Intervals.LowerBound` | src/allocator.cpp:430-432 | The first interval that starts at or after the query |
| `Intervals.Overlaps` | src/allocator.cpp:423-440 | Looking only at the found interval and its predecessor answers true exactly when some point of the query is covered |
| `Intervals.CanonicalUnique` | src/allocator.cpp:413-420 | A canonical list is determined by the set of points it covers |
| `Allocator.Allocator.SeedSectors` | src/allocator.cpp:61-84 | Appends the sectors that SeededTiles is about |
| `Legacy.SeededTiles` | src/allocator.cpp:61-84 | The seeded sectors cut the puzzle's range into consecutive non-empty pieces, the last one taking the remainder |
| `Legacy.SectorCount` | src/allocator.cpp:64-67 | The largest number of sectors that is at most the target and leaves none smaller than the minimum size, but at least 1 |
| `Allocator.Allocator.AssignLegacyRandomChunk` | src/allocator.cpp:113-201 | Open sectors without keys are closed on the way; then the next keys of an open sector (the middle one for the first job, any one later) become one job row, or, without an open sector or with a non-positive chunk size, nothing changes |
| `Allocator.Allocator.FindKeys` | src/allocator.cpp:150-173 | The loop ends with an open sector that has keys left, or when no sector is open, and closes only open sectors of the puzzle that have none |
| `Legacy.LegacyKeepsSectors` | src/allocator.cpp:150-196 | Every sector's jobs keep tiling it from its start to its current key, and it is open exactly while keys are left |
| `Legacy.ExhaustedMeansAllIssued` | src/allocator.cpp:150-160 | Once no sector is open, every key of the puzzle has been issued |
| `WorkAnswers.NewLegacyRow` | src/allocator.cpp:175-194 | The row of a new legacy job: from the sector's current key, as many keys as the chunk size or what is left; the sector moves past them and is open while keys are left |
| `WorkAnswers.FirstLegacyJob` | src/allocator.cpp:143-154 | The first job of a freshly seeded puzzle with more than targetSectors / 2 sectors starts with sector targetSectors / 2 |
| `WorkAnswers.AnyOpenSector` | src/allocator.cpp:155-162 | A later job may come from any open sector of the puzzle and from no other, and there is none only without an open sector or a positive chunk size |
| `WorkAnswers.SeededAt` | src/allocator.cpp:61-84 | Seeded sectors all have range / n keys but the last: sector i starts at i times that |
| `Legacy.TilesMeans` | src/allocator.cpp:61-84 | Consecutive pieces are disjoint, in order, and cover exactly the range |
| `Permutation.PermutePow2Feistel` | src/permutation.cpp:32-48 | The loop computes the six-round network and stays in its domain |
| `Permutation.FeistelInverses` | src/permutation.cpp:32-48 | For any round function the network over 2h bits has an inverse on the whole domain, on either side |
| `Permutation.SixRounds` | src/permutation.cpp:32-48 | The network written out: six new halves, each the XOR of the half two places before it with the masked round value of the half before it |
| `Permutation.PermuteIndexFeistel` | src/permutation.cpp:50-60 | 0 for n at most 1, an error outside the range, otherwise the permuted index within 2^bits - n + 1, hence 3n - 3, passes |
| `Permutation.OrderOf` | src/permutation.cpp:50-60 | Every index below n is the image of exactly one position, for any round function |
| `Permutation.DomainSize` | src/permutation.cpp:54-56 | The domain holds n values and is at most 4(n - 1) large |
| `CycleWalk.WalkBounded` | src/permutation.cpp:54-59 | A walk along a permutation of N values cannot stay outside the lower n for more than N - n passes |
| `CycleWalk.ReturnsExists` | src/permutation.cpp:54-59 | Started below n, the walk comes back below n |
| `CycleWalk.WalkInverse` | src/permutation.cpp:54-59 | Walking with the inverse permutation undoes the walk |
| `Permutation.GcdBigInt` | src/permutation.cpp:11-20 | The loop computes the gcd of the absolute values |
| `Permutation.GcdIsGreatest` | src/permutation.cpp:11-20 | A number divides both arguments exactly when it divides the gcd |
| `Permutation.AffineInverse` | src/permutation.cpp:76-79 | With gcd(a, n) = 1 the affine map is a bijection of [0, n), with an explicit inverse |
| `Permutation.AffineSteps` | src/permutation.cpp:76-79 | The affine order starts at b and moves on by a, modulo n |
| `Permutation.DeriveAffineParams` | src/permutation.cpp:62-74 | (1, 0) for n at most 1; otherwise a is the first hash-derived candidate coprime to n, and b is reduced |
| `Permutation.OrderBijective` | src/permutation.cpp:50-79 | In either mode every virtual chunk has exactly one position in the order |
| `HexBigint.HexToInt` | src/hex_bigint.cpp:21-32 | The number the digits denote, or an error on any other character |
| `HexBigint.IntToHex` | src/hex_bigint.cpp:34-47 | The digits of the number, padded to the width, or an error for a negative number |
| `HexBigint.HexRoundTrip` | src/hex_bigint.cpp:21-47 | Parsing the text of a number gives it back, at every width |
| `HexBigint.HexOrder` | src/hex_bigint.cpp:34-47 | Numbers that fit get exactly the width, and their texts compare as the numbers do |
| `HexBigint.NormalizeCanonical` | src/hex_bigint.cpp:49-51 | Two texts normalise to the same text exactly when they denote the same number |
| `HexBigint.CeilDivIsLeast` | src/hex_bigint.cpp:53-55 | The quotient is the least m with a at most m times b |
| `HexBigint.BitLenBounds` | src/hex_bigint.cpp:84-93 | The bit length b of n > 0 is the one with 2^(b-1) at most n below 2^b |
| `HexBigint.BitLength` | src/hex_bigint.cpp:84-93 | The shifting loop computes the bit length, 0 for non-positive numbers |
| `WorkService.WorkService.AssignWork` | src/work_service.cpp:14-65 | The request changes the tables as the Lifecycle specification says for an outcome the allocator can produce: worker recorded, jobs of a returning worker given up, then an own job, the test chunk, a reclaimed job (not for a returning worker) or a new one |
| `WorkAnswers.OwnJobFirst` | src/work_service.cpp:43-44 | A worker that is not returning and holds a job of the active puzzle gets that job, and only its last-seen time changes |
| `WorkAnswers.TestRowNext` | src/work_service.cpp:46-49 | Otherwise, when a test span is set and no row for it stays assigned, the first unfinished row of the span, a returning worker's own included, is assigned to the worker with both times now |
| `WorkAnswers.NewTestRowNext` | src/work_service.cpp:196-207 | Or a new row for the span when there is none |
| `WorkAnswers.LostJobNext` | src/work_service.cpp:51-54 | Otherwise a worker that is not returning gets the reclaimed non-test row of the puzzle with the least id, now assigned to it with both times now, and nothing else changes |
| `WorkAnswers.NewJobLast` | src/work_service.cpp:56-63 | Only then, or when the worker is returning, the allocator is asked, and its failure is the answer |
| `WorkAnswers.ExhaustedLeavesNone` | src/work_service.cpp:51-63 | A worker that is not returning and is told that the key space is used up holds no job of the puzzle, and neither test chunk nor reclaimed job is to be had |
| `WorkAnswers.ChunksInHand` | src/work_service.cpp:51-63 | With a probe for every chunk, each chunk is then blocked or in a job that is assigned or finished |
| `WorkAnswers.KeysInHand` | src/work_service.cpp:51-63 | With a positive chunk size, each key of a legacy puzzle is then in such a job |
| `WorkService.WorkService.EnsureAllocator` | src/work_service.cpp:40-41 | On tables of a run nothing changes but the in-memory blocked list |
| `WorkService.WorkService.ClaimTestChunk` | src/work_service.cpp:172-216 | Nothing while the span is assigned; otherwise the reclaimed row is handed out again or a new test row is added |
| `WorkService.WorkService.ReclaimChunk` | src/work_service.cpp:157-170 | The oldest reclaimed non-test row of the puzzle, now assigned to the worker |
| `WorkService.WorkService.RecordHeartbeat` | src/work_service.cpp:67-85 | Last-seen time of the worker, and the heartbeat of the row only while it is assigned to this worker |
| `WorkService.WorkService.ReclaimTimedOutChunks` | src/work_service.cpp:87-103 | Exactly the assigned non-test rows with an old heartbeat are given up, and their number is returned |
| `RequestOutcomes.SweepWrites` | src/work_service.cpp:87-103 | A sweep leaves an assigned row as it is if and only if it is a test row or its heartbeat is at least now minus the timeout; every other one becomes reclaimed without worker, its worker being the previous one; other rows stay |
| `RequestOutcomes.SweepCount` | src/work_service.cpp:102-102 | The number returned is the number of rows that changed |
| `RequestOutcomes.HeartbeatWrites` | src/work_service.cpp:67-85 | Last-seen time, and the heartbeat of the row exactly when it is assigned to this worker |
| `WorkService.WorkService.UpsertWorkerAndDetectReactivation` | src/work_service.cpp:105-143 | A known worker last seen before the deadline counts as returning; the last-seen time is set in any case |
| `SubmissionService.SubmissionService.SubmitDoneChunk` | src/submission_service.cpp:37-72 | Rejected unless the row is assigned to this worker; an under-scan gives the row up; otherwise it is completed and a test span equal to it is cleared |
| `RequestOutcomes.DoneAnswer` | src/submission_service.cpp:37-68 | Accepted exactly when the row is assigned to the worker and at least as many keys are reported as it has, an under-scan when fewer, rejected otherwise |
| `RequestOutcomes.DoneWrites` | src/submission_service.cpp:48-68 | Accepted: status completed, nothing else of the row, and a test span equal to it cleared; under-scan: reclaimed without worker, the submitter being the previous one; rejected: nothing |
| `SubmissionService.SubmissionService.SubmitFoundChunk` | src/submission_service.cpp:92-174 | Owner, repeated and late reports as the Lifecycle specification says, with found_key and found_address kept once set and every distinct key recorded |
| `RequestOutcomes.FoundAnswer` | src/submission_service.cpp:101-135 | Accepted exactly when the row is assigned to the worker, or the worker's finding with the first key is recorded, or the worker is the row's previous one and the row is assigned or reclaimed |
| `RequestOutcomes.FoundRejected` | src/submission_service.cpp:127-131 | Otherwise nothing changes |
| `RequestOutcomes.FoundRow` | src/submission_service.cpp:102-146 | An unfinished row becomes FOUND by this worker with key and non-empty address of the first report; a FOUND one, which is this worker's, stays |
| `RequestOutcomes.FoundRest` | src/submission_service.cpp:173-189 | Beside row and findings only the test span may change, and is cleared exactly when the row is a test row with it |
| `RequestOutcomes.FoundFindings` | src/submission_service.cpp:80-160 | Findings are kept; each new one is the first report of its key, with its address; every reported key is then recorded |
| `SubmissionService.SubmissionService.Deduplicate` | src/submission_service.cpp:80-94 | The first report of every key, in order |
| `SubmissionService.SubmissionService.MarkRow` | src/submission_service.cpp:101-147 | The owner's update, or none for a recorded finding, or the late update for the previous worker of an unfinished row; refused otherwise |
| `SubmissionService.SubmissionService.InsertFindings` | src/submission_service.cpp:149-160 | One finding per new (job, worker, key), existing ones ignored |
| `SubmissionService.SubmissionService.ClearTestChunkIfNeeded` | src/submission_service.cpp:176-189 | Clears the puzzle's test span exactly when the row is a test row with this span |
| `Lifecycle.DistinctKeys` | src/submission_service.cpp:80-94 | Deduplication keeps every reported key, once |
| `LifecycleSafety.StepKeeps` | src/work_service.cpp:14-103 | Every operation (work, heartbeat, timeout, done, FOUND, import, test span, activation, new puzzle) keeps the invariant |
| `LifecycleSafety.RunsAreSafe` | src/work_service.cpp:14-103 | The invariant holds in every state of every run from the empty tables |
| `LifecycleSafety.WorkKeeps` | src/work_service.cpp:14-65 | The work request keeps the invariant, whatever the allocator picks |
| `LifecycleSafety.FoundKeeps` | src/submission_service.cpp:74-174 | A FOUND report keeps the invariant on all its paths |
| `LifecycleSafety.AddFindingsHas` | src/submission_service.cpp:149-160 | Afterwards exactly the earlier findings and the reported keys under this job and worker are recorded |
| `RequestOutcomes.AddedPuzzle` | src/service_admin.cpp:108-133 | A new puzzle is active; its chunk size is capped by the range and its chunk count the least that covers it, or its sectors are appended |
| `PoolTheorems.JobKeysInside` | src/allocator.cpp:577-611 | In both strategies every job is a non-empty part of its puzzle's range |
| `PoolTheorems.JobKeysDisjoint` | src/allocator.cpp:442-495 | In both strategies no key of a puzzle belongs to two jobs, whatever became of them |
| `PoolTheorems.OneHolderPerKey` | src/work_service.cpp:14-65 | In every state of every run at most one worker, through at most one job, is searching a key |
| `PoolTheorems.JobsBounded` | src/allocator.cpp:203-286 | A virtual-chunk puzzle never has more jobs than chunks |
| `PoolTheorems.FreshJobIsFree` | src/allocator.cpp:489-495 | No chunk of a new job is blocked or issued at the time |
| `PoolTheorems.ServedJobIsHeld` | src/work_service.cpp:43-64 | A job id that is returned names a row assigned to the asking worker in the active puzzle |
| `PoolTheorems.AskingAgain` | src/work_service.cpp:43-44 | Asking again before the worker counts as gone returns the same job and changes only the last-seen time |
| `PoolTheorems.ExhaustedIsTrue` | src/work_service.cpp:56-63 | When a worker is told that the key space is used up, it is: no chunk free (with a probe for every chunk), or every key issued (legacy, positive chunk size) |
| `PoolTheorems.RowsAreConsistent` | src/work_service.cpp:26-54 | In every run a row has no worker exactly when it is reclaimed, and then knows its last one; one job per worker and puzzle; one live row per test span |
| `PoolTheorems.FoundMeansFindings` | src/submission_service.cpp:74-174 | In every run a chunk is FOUND exactly when it has findings, all by its worker and one equal to its found_key |
| `PoolTheorems.RunEvolves` | src/submission_service.cpp:48-147 | From any point of a run on, completed and FOUND rows never change, rows keep their work, and findings are never lost |
| `PoolTheorems.ReportingAgain` | src/submission_service.cpp:74-174 | An accepted FOUND, late ones included, is accepted again at any later time with rows and findings unchanged; the whole state is unchanged exactly when the row's test span has not been set again |
| `PoolTheorems.RecordedAgain` | src/submission_service.cpp:113-174 | One repeated report: accepted, and the state changes exactly when the test span is back |
| `ReachedCases.TestSpanBackReached` | src/submission_service.cpp:176-189 | A run reaches that case: test span set, served, FOUND accepted, the same span set again, and the repeated report changes the state |
| `PoolTheorems.OthersTurnedAway` | src/submission_service.cpp:101-135 | After an accepted FOUND every submission for the job by another worker is rejected and changes nothing |
| `PoolTheorems.JobTakenIff` | src/work_service.cpp:26-54 | A request ends an assignment if and only if it is its own worker's (returning after a long absence and not handed the same row back as the test chunk, or submitting for the job), its previous worker's FOUND, or a sweep that finds the heartbeat of a non-test row too old; no other worker's request can |
| `PoolTheorems.JobUntouched` | src/work_service.cpp:26-103 | Every other request leaves the row as it is, its own worker's heartbeat apart, which sets the heartbeat time |
| `JobHistory.StepMoves` | src/work_service.cpp:14-103 | All that any request can do to a row's status and previous worker, as equivalences: completed by its holder's full report, FOUND by its holder or last loser, reclaimed when given up and not handed back, finished rows frozen |
| `JobHistory.CompletedByDone` | src/submission_service.cpp:48-68 | In every run a row is completed if and only if its holder reported at least all of its keys at some point |
| `JobHistory.PrevWorkerIs` | src/work_service.cpp:26-36 | In every run the previous worker of a row is the last one that lost it to a sweep, an under-scan or its own return |
| `JobHistory.FoundFromLoser` | src/submission_service.cpp:101-146 | In every run, for an unfinished row, a FOUND is accepted if and only if it comes from the holder or from the last worker that lost the row |
| `JobHistory.LateFound` | src/submission_service.cpp:123-146 | So a worker that lost its job gets a FOUND accepted, and the row becomes its, as long as the row is not finished and nobody has lost it since |
| `PoolTheorems.HeartbeatProtects` | src/work_service.cpp:76-103 | After a heartbeat the worker keeps the job at every later point of a run, as long as every sweep is within the timeout, no request takes the job and later heartbeats are not older |
| `VisCache.VisStore.VisualizationRevision` | src/service.cpp:44-50 | A missing revision is 1 and is stored |
| `VisCache.VisStore.InvalidateVisualization` | src/service.cpp:27-30 | The revision grows by one and the entry with all three panels is gone |
| `VisCache.VisStore.InvalidateAllVisualizations` | src/service.cpp:32-42 | Every known revision grows by exactly one, listed puzzles without one get 1, and no entry of either survives |
| `VisCache.VisStore.ReadSection` | src/service_visualization.cpp:451-460 | The first section: the revision, and the cached panel exactly when the entry carries that revision and has the panel |
| `VisCache.VisStore.CommitSection` | src/service_visualization.cpp:472-481 | The last section: retry exactly when the revision moved, else the panel another handler stored, else the built one is stored |
| `VisProtocol.FreshIffBumped` | src/service_visualization.cpp:447-556 | Under every interleaving of handlers and writes each returned panel is the one the tables give at that instant, if and only if every write bumps the revision of each puzzle whose panels it changes |
| `VisProtocol.StepFresh` | src/service_visualization.cpp:447-556 | Every section keeps the invariant (entries carry the current revision and only current panels, so storing one panel never relabels a stale other; parts read by a handler are current while its revision is) and returns only fresh panels |
| `VisProtocol.BumpingIsEnough` | src/service_visualization.cpp:447-556 | The if direction, for all interleavings |
| `VisProtocol.BumpingIsNeeded` | src/service_visualization.cpp:456-460 | For any unbumped panel-changing write there is an interleaving that serves a stale panel |
| `VisProtocol.RetriesBounded` | src/service_visualization.cpp:448-475 | In every interleaving with any writes, a handler never retries more often than its own puzzle was invalidated since its call began |
| `VisProtocol.PanelReused` | src/service_visualization.cpp:451-481 | In every interleaving a panel that was returned is returned again at once, without building, until its puzzle is invalidated |
| `PanelWrites.CoveredExceptTwo` | src/service_submit.cpp:49-51 | A request meets that condition if and only if it is neither a rejected under-scan of a non-test job nor a work request that takes a non-test job from its returning worker and answers with an error or for another puzzle |
| `PanelWrites.WorkUncovered` | src/service_work.cpp:29-31 | The work request that loses jobs unseen does change a panel it does not bump |
| `PanelWrites.DoneExact` | src/service_submit.cpp:44-51 | A done submission bumps what it changes exactly when it is not a rejected under-scan of a non-test job |
| `PanelWrites.TimeoutCovered` | src/service.cpp:20-25 | A timeout sweep that bumps nothing changed nothing |
| `PanelWrites.BumpsOnly` | src/service_submit.cpp:36-53 | A request invalidates no other puzzle than the one it answers for, submits to or names, and all puzzles exactly in a sweep that changes rows |
| `PoolPanels.PoolPanelsFresh` | src/service_visualization.cpp:447-556 | Under every interleaving of handlers with requests of the pool on tables that satisfy the invariant, none of the two exceptional kinds, each returned panel is the one the tables give at that instant |
| `PoolPanels.UnbumpedServesStale` | src/service_visualization.cpp:447-556 | Conversely every run from the empty tables that ends in a request of an exceptional kind extends to an interleaving in which a handler returns a stale panel |
| `PoolPanels.RequestsAreWrites` | src/service_work.cpp:20-32 | Every request is a write of the protocol: it removes no puzzle and bumps only puzzles that exist |
| `ReachedCases.UnderScanReached` | src/service_submit.cpp:44-51 | A state that a run reaches in which a done submission with no keys scanned is an unbumped change |
| `ReachedCases.ReactivationReached` | src/service_work.cpp:20-32 | A state that a run reaches in which a worker back after any absence beyond the limit loses its job unseen, being told that the puzzle is used up |
| `ReachedCases.StalePanelReached` | src/service_visualization.cpp:447-556 | So there is an interleaving of the pool's own requests with handlers that serves a stale panel |
| `ImportRanges.Import` | src/service_admin.cpp:296-346 | The request blocks, for its source, exactly the chunks with a key of an imported range; inserted and already-blocked count merged intervals by whether they were covered before; invalid counts ids that are no integer or miss the puzzle; the allocator sees the result |
| `ImportRanges.ConvertExact` | src/service_admin.cpp:310-320 | A key range becomes exactly the chunks that contain one of its keys, and is invalid exactly when it has no key in the puzzle |
| `ImportRanges.SpansCover` | src/service_admin.cpp:301-320 | The converted ids cover exactly the chunks of all ranges together |
| `ImportRanges.ImportAdds` | src/service_admin.cpp:332-345 | Coverage after an import, for every source and puzzle, with normal form kept |
| `ImportRanges.SameKeysSameRows` | src/service_admin.cpp:322-345 | Imports of the same keys leave the same table, however the ranges are cut, ordered and repeated |
| `ImportRanges.Persist` | src/service_admin.cpp:332-343 | The two counters: an interval counts as inserted exactly when the table before the request did not cover it |
| `ImportRanges.NewOnesCount` | src/service_admin.cpp:332-343 | The first counter is the number of merged intervals with a chunk that this source did not block before |
| `ImportRanges.SpansCount` | src/service_admin.cpp:301-320 | The ids not counted as invalid are those whose range has a key in the puzzle |
| `Stats.SumRows` | src/service_stats.cpp:192-203 | The accumulators equal the sums of lengths over the selected rows |
| `Stats.KeysCompletedIsCoverage` | src/service_stats.cpp:186-203 | total_keys_completed is the size of the union of completed and FOUND key ranges, no more than the puzzle's range, and the worker filter drops nothing |
| `Stats.ChunkSumsAreCoverage` | src/service_stats.cpp:259-271 | The started sum counts the issued chunks, the completed sum those of finished jobs, and completed is at most started is at most count |
| `Stats.CountBlocked` | src/service_stats.cpp:288-311 | The blocked count is the number of chunks blocked by any source, each counted once |
| `Hilbert.GetHilbertXY` | frontend/src/canvas.ts:154-174 | The loop computes the recursively defined curve for every n = 2^k, 32-bit conversions included; any other position, a negative one included, counts modulo n*n |
| `Hilbert.GetHilbertD` | frontend/src/canvas.ts:176-196 | The loop computes the recursively defined index for any coordinates, counted modulo n, although its working coordinates leave the square and go negative |
| `Hilbert.IndexOfCurve` | frontend/src/canvas.ts:154-196 | Index after curve is the identity, for every n = 2^k |
| `Hilbert.CurveOfIndex` | frontend/src/canvas.ts:154-196 | Curve after index is the identity on the square, for every n = 2^k |
| `Hilbert.CurveInSquare` | frontend/src/canvas.ts:154-174 | Cells of the curve lie in the square |
| `Hilbert.CurveAdjacent` | frontend/src/canvas.ts:154-174 | Consecutive positions are cells at Manhattan distance 1 |
| `Hilbert.CurveEnds` | frontend/src/canvas.ts:154-174 | The curve starts at (0, 0) and ends at (n - 1, 0) |
| `Hilbert.CurveQuadrants` | frontend/src/canvas.ts:154-174 | The quarters of the curve fill the quadrants low, high y, high x and y, high x, in this order |
| `PuzzleStatus.DecodeBase58` | src/puzzle_status.cpp:60-85 | The bytes have the base-58 value of the text and as many leading zeros as it has leading '1's; any other character gives the empty result |
| `PuzzleStatus.MulAdd` | src/puzzle_status.cpp:66-76 | One digit: value times 58 plus the digit, with every carry in range |
| `PuzzleStatus.Base58Injective` | src/puzzle_status.cpp:60-85 | Different texts over the alphabet decode to different bytes |
| `Bech32.Polymod` | src/puzzle_status.cpp:115-128 | The loop computes the checksum word and keeps it below 2^30 |
| `Bech32.PolymodDetectsBursts` | src/puzzle_status.cpp:115-128 | Two words of equal length that agree outside six consecutive symbols have the same checksum only if they are equal; one changed symbol is the smallest case |
| `PuzzleStatus.ConvertBits` | src/puzzle_status.cpp:174-195 | For all widths that fit its register: padded conversion regroups the bits; unpadded conversion succeeds exactly when its input is a padded regrouping, and returns what was regrouped, despite the masked accumulator |
| `PuzzleStatus.ConvertBitsInverse` | src/puzzle_status.cpp:174-195 | 8-to-5 padded and 5-to-8 unpadded are mutual inverses on accepted inputs |
| `Base64Url.Encode` | src/auth.cpp:68-97 | The text is the unpadded base64url form: same bits, six at a time, the rest filled with zeros |
| `Base64Url.Decode` | src/auth.cpp:99-120 | Succeeds exactly on texts that encode some bytes, and returns those, although the 32-bit buffer overflows |
| `Base64Url.EncodingIsExact` | src/auth.cpp:68-120 | Each byte string has one text and each text one byte string |
| `Base64Url.DecodeInvertsEncode` | src/auth.cpp:99-120 | The decoder returns these bytes exactly for their encoding and accepts no other string |
| `Base64Url.CharValueInverts` | src/auth.cpp:30-37 | The two character tables are inverse to each other |

## Left out

- GetHilbertXY: numbers beyond 2^53, which the program's doubles no longer hold exactly.
- GetHilbertD: stated for n = 2^k with k up to 26, so that the index is an exact double; the curve theorems have no bound.
- ConvertBits: widths whose register exceeds a 32-bit int, where the shifts of the code are undefined, and output symbols wider than a byte, which its vector cuts off.
- DeriveAffineParams: termination; the hash is an arbitrary function, and a counter with a coprime candidate is assumed to exist.
- PermutePow2Feistel: the round value is an arbitrary function of round and half, masked as in the code; SHA-256 is not part of this model.
- AssignVirtualChunkJob: the number of issued jobs is not narrowed to a 32-bit int, and the puzzle row read before the transaction is the row in the table.
- AssignWork: puzzles are well-sized or have sectors, as every way of adding one ensures; the option that reseeds puzzles without jobs is off (`EnsureAllocator` has it), and puzzles that mix both strategies are not modelled.
- ClaimTestChunk: a query with LIMIT 1 and no order takes the first match; in every run there is at most one.
- UpsertWorkerAndDetectReactivation: hash rate, version and chunk preferences of the worker row; the sizes derived from them are parameters.
- SubmitDoneChunk: parsing and validation of the request body.
- SubmitFoundChunk: parsing and validation of the request body (an empty list included), and the BINGO file.
- Import: request validation and its error answers (unknown puzzle, wrong strategy, non-positive step).
- InsertOrMergeBlockedRange: empty ranges, which the import never passes; database errors.
- Floating point: hash-rate normalisation, gap metrics, histograms, index scaling, percentages and times.
- Panels are free terms of their inputs; rendering, and the time stamp in a panel, are not modelled.
- The shared lock of the first section is taken to be exclusive for the one revision it may add.
- SQLite, migrations, the startup rewrite of test flags, HTTP, JSON, OAuth, cookies, configuration and logging.
- Address checksums, Bech32 text rules and status evaluation: one-branch decisions around the proved parts.
- Per-worker scores and serialization: easy sums over the same rows.
