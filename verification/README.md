# Model of the dipole cluster's scheduling, numerics, timing and text formats

The modelled program computes the radiation of systems of dipoles on a cluster. A main node keeps
a registry of worker nodes with their benchmarked speeds, cuts a requested range of iterations
into one block per active worker and publishes the blocks to a queue. A worker solves its
systems, adds the resulting meshes together in a parallel loop, and measures its functions with
a clock array. Results travel as text tables, vectors, JSON and connection strings.

The Dafny model follows that structure, and the form of the code: objects with fields are classes
whose methods are proved against functions on their state; the promises of the program are lemmas
about those functions.

| files | what they model |
|---|---|
| `MachineWords`, `Outcomes`, `Quotients`, `Reals`, `Sequences` | 64-bit words that wrap, optional values and results, facts about division, products and reordering |
| `Tasks`, `Scheduler` | the iteration range, `SliceAway`, and the blocks a range is cut into |
| `WorkerRegistry` (modules `NodeSpeeds` and `WorkerRegistry`), `MainNode` | benchmarked sizes and speed vectors, the worker registry with its cached speed sum, and the main node's commands |
| `ParallelLoop` | a worker's parallel accumulation loop, as a state machine over thread steps |
| `Linear`, `BlockSolver`, `OneRightPart`, `SymmetricBlocks`, `DipoleBlocks`, `PairActions`, `AxisDipoles`, `ThreeDipoles`, `Dipoles` (module `DipoleSystem`), `DipoleLine` | matrices over the reals, the half-size solver, how the blocks are built and what they do to vectors, pairs along an axis, corners whose blocks do not commute, the dipole object, and lines whose own right part is never solved |
| `ClockArray`, `ClockRuns`, `ClockSections`, `Benchmark` | the clock array, whole runs of it, its sections as positions in a run, and the benchmark handler |
| `Cartesian` | the closed-form cartesian product |
| `Streams`, `Formats`, `Vectors`, `VectorFormats` | character streams, format descriptions and delimiters, printed vectors, and the formats a parser can do without knowing |
| `Tables`, `FormattedRows`, `Meshes`, `MeshTables`, `Solutions`, `TableCells` | token streams, rows in a given format, meshes, tables for people (meshes, solutions, coordinates), and where in them each number stands |
| `ConnectionFormats`, `ConnectionStrings`, `ConnectionGrammar` | database and queue connection strings, when one determines its fields, parsing them, and which strings are parsed at all |

## What is established

* **Scheduling.** After any run of add, connect and disconnect commands with arbitrary remote
  answers, for any order of the active workers and any range, the blocks sent are consecutive,
  non-empty and, with what is left over, exactly the range. This holds even when the 64-bit
  products wrap. For ranges of at most 18446744 iterations, each block but the last is the
  rounded-down proportion by the cached sum, every worker is served exactly when `s_i * T >= S` for each
  but the last, and the last share is within one iteration per other worker. Once all blocks
  have been run, in any interleaving of any number of threads, each requested iteration has been
  added exactly once. A worker is active exactly if it was accepted once and not let go since; its
  speeds are how often the times it first reported fit into 10^12; and of two workers the one that
  reported the smaller time is never sent fewer iterations, unless the other takes the remainder.
* **Matrices.** For all coordinates, the block of two dipoles in M1 and the one in M2 multiply the
  difference of the two points, and the vector across it, each by a known number, and that
  determines the blocks.
* **Solver.** Two solves with `M1*M1 + M2*M2`, if that is invertible, replace the full system. An
  object holds one right part, and `Solve` solves its system *if and only if* there is a solution
  on whose two halves `M1` and `M2` commute. That is so for every right part if and only if `M1` and `M2`
  commute, whatever the blocks, as they always do for two dipoles. Three dipoles equally spaced
  along an axis, anywhere and at any distance, are never solved: what is returned for the right
  part the object holds is not a solution.
* **Clock.** With no location started again while open, counts and times are exactly those of the
  closed sections, a total falls short of the time spent by less than one unit for each of them, and
  the calls directly inside a section charge no more than the call that ends it. Otherwise, on a
  clock that never runs backwards, a time is never too large, and it is exact if and only if no call
  that starts the location again while it is open loses a whole unit. Whoever ends a section, it is
  known which total grows and by how much.
* **Text.** Format descriptions always come back. Meshes, lists of meshes, solutions, coordinates and
  connection strings are read back each under the exact condition for that. In the printed tables
  every number stands in its own place under its own heads, and of all strings it is known which are
  parsed as connections and into what. Vectors are read back by a parser with any other format under
  a sufficient condition, and by one with the default format exactly if the printing format is
  transparent: in front of the numbers nothing but space, a plus sign and zeros, and no digit behind
  them.

## Where the code does not do what it is for

* `SendToExecution` does not look at the status of `PublishMessage`. With the publisher down the
  range is consumed, 200 is answered and nothing is sent (`MainNode.MainNodeService.SendToExecution`).
* `SliceAway` accepts a slice whose end wraps past 2^64. A granted slice splits the range if and only
  if it does not wrap; otherwise the whole range is left once more (`Tasks.GrantSplitsIff`, with
  `Tasks.WrappedGrant` as an input). The scheduler never asks for such a slice.
* `Solve` does not solve every system it is given. It solves the object's own right part if and only
  if there is a solution on whose halves the blocks commute (`DipoleSystem.Dipoles.Solve`), and it
  never does for three dipoles equally spaced along an axis (`DipoleLine.LineObjectSolvedWrong`). A
  loaded system can be solved wrongly as well (`DipoleSystem.LoadedSystemSolvedWrong`).
* The parallel loop's result starts as the mesh's first coordinate array, not as zeros. A result is the
  sum of its meshes if and only if the start is zero (`ParallelLoop.SumIffStartZero`), and that
  array is not, so every block's result has the azimuths on top
  (`ParallelLoop.BlockResultOffByAzimuths`).
* A location started again while open loses the time before the second start: 30 is recorded for
  sections that took 40 (`ClockRuns.RecursionUndercharged`, and
  `ClockSections.TotalExactIffNothingLost` for the exact condition).
* `RunBenchmark` counts what a handler's clock already holds twice, so it is faithful if and only if
  the handler is fresh (`Benchmark.BenchFaithfulIffFresh`).
* Comparing connection strings is not comparing their fields. Fields are the only ones with their
  string if and only if the user has no `:`, the password no `:` or `@`, the host no `@`, and the address
  can be cut into host, port and database in one way only
  (`ConnectionFormats.PostgresIdentifiesIffUnambiguous`, `ConnectionFormats.AmqpIdentifiesIffUnambiguous`).
  And an object nothing was ever set on differs from one set to the very same fields
  (`ConnectionStrings.PostgreSQLCStr.Equals`).
* Coordinates printed behind other text come back, if their length is even, exactly when that text ends
  no line (`Solutions.CoordinatesBehindTextIff`). The tables here all leave a line end unread, so
  a second table of coordinates in one stream is never read (`Solutions.SecondCoordinatesRefused`).
* A solution whose length is not a multiple of four, or coordinates of odd length, lose their last
  entries (`Solutions.SolutionReadBack`, `Solutions.CoordinatesReadBack`).
* A mesh object comes back from its table if and only if its grids are the ones its dimensions and
  limits call for (`MeshTables.TableRoundTripIff`); a default object's are zero, and it is refused
  (`MeshTables.DefaultMeshRefused`).
* The text format passed to `ParseMeshFrom` is not looked at. For formats whose delimiters can be told
  from numbers, every mesh comes back if and only if the delimiters in front of its values are white
  space (`MeshTables.FormatRestoresIff`; for any format and natural numbers,
  `VectorFormats.DefaultReadsIffTransparent`); in brackets and
  commas all values come back as zero, without an error (`MeshTables.BracketedMeshLost`).

## Model

| member | source | states |
|---|---|---|
| `Tasks.TestSolveParam.SliceAway` | computationalLib/lib/network_shared/networkTypes.cpp:60-76 | A refusal leaves the range alone and reports the bounds; a grant moves only the start of the range and returns the block before it |
| `Tasks.SliceSplitsRange` | computationalLib/lib/network_shared/networkTypes.cpp:60-76 | When exactly a slice is granted; then both parts are non-empty, adjacent, carry the same parameters, and their sizes add up; what a refusal reports |
| `Tasks.GrantSplitsIff` | computationalLib/lib/network_shared/networkTypes.cpp:60-76 | A grant splits the range exactly if the end of its block does not wrap past 2^64; if it does, both ranges left are described |
| `Tasks.WrappedGrant` | computationalLib/lib/network_shared/networkTypes.cpp:60-76 | A range of one iteration and a request that is granted and leaves two |
| `Scheduler.DispatchOfShares` | mainNode/src/service/MainNodeService.cpp:229-251 | Shares that leave an iteration give blocks that tile the range, of exactly the requested sizes, and fail exactly at the first empty share |
| `Scheduler.DispatchKeepsRange` | mainNode/src/service/MainNodeService.cpp:229-251 | For every range and cluster, wrapping included: blocks sent and the range left make up the original; complete exactly when no share but the last is empty |
| `Scheduler.SharesProportional` | mainNode/src/service/MainNodeService.cpp:242-245 | Up to 18446744 iterations and speeds up to 10^12 no product wraps and each share is the rounded-down proportion |
| `Scheduler.CompletedExactly` | mainNode/src/service/MainNodeService.cpp:229-251 | There, all workers are served if and only if each but the last is owed at least one iteration |
| `Scheduler.LastShareFair` | mainNode/src/service/MainNodeService.cpp:229-251 | The last worker gets at least its proportion and less than one iteration more per other worker |
| `Scheduler.DispatchIsMonotone` | mainNode/src/service/MainNodeService.cpp:229-251 | A worker with no less speed than another is sent no fewer iterations, unless the other is the last |
| `MachineWords.WholeTurns` | mainNode/src/service/MainNodeService.cpp:242-245 | Sums, differences and products of 64-bit words differ from the true ones by multiples of 2^64 |
| `NodeSpeeds.NIndex` | computationalLib/include/network_shared/sharedConstants.h:10-13 | The first column with that size, or the number of columns exactly when the size is not benchmarked |
| `NodeSpeeds.SpeedFits` | mainNode/include/service/WorkerManagementService.h:53-58 | Each speed is how often the reported time fits into 10^12, and at least one |
| `NodeSpeeds.FasterHasMoreSpeed` | mainNode/include/service/WorkerManagementService.h:53-58 | A smaller time never gives a smaller speed |
| `WorkerRegistry.WorkerManagementService.constructor` | mainNode/include/service/WorkerManagementService.h:82-84 | Starts with no worker and zero sums |
| `WorkerRegistry.WorkerManagementService.AddNewNode` | mainNode/src/service/WorkerManagementService.cpp:22-44 | 409 for an active host; otherwise the host is known as inactive afterwards, and a known one keeps its speeds |
| `WorkerRegistry.WorkerManagementService.ConnectNode` | mainNode/src/service/WorkerManagementService.cpp:46-76 | Whole new state: a refused reply changes nothing, an accepted one moves the host and adds its speeds to the sums; on a first report these are how often the reported times fit into 10^12 |
| `WorkerRegistry.WorkerManagementService.DisconnectNode` | mainNode/src/service/WorkerManagementService.cpp:78-114 | Whole new state: 409 for a host that is not active, otherwise as the reply says |
| `WorkerRegistry.WorkerManagementService.MoveToActive` | mainNode/src/service/WorkerManagementService.cpp:120-125 | The node leaves one map and enters the other unchanged |
| `WorkerRegistry.WorkerManagementService.GetSum` | mainNode/src/service/WorkerManagementService.cpp:116-118 | The cached sums |
| `WorkerRegistry.AddedTouchesNothing` | mainNode/src/service/WorkerManagementService.cpp:22-44 | Adding a host changes no active one and none that is known |
| `WorkerRegistry.ConnectedTouchesHost` | mainNode/src/service/WorkerManagementService.cpp:46-76 | A refusal changes nothing; an acceptance makes the host active with the times it reported, its speeds measured if it had none and kept otherwise, and touches no other host |
| `WorkerRegistry.DisconnectedMovesHost` | mainNode/src/service/WorkerManagementService.cpp:78-114 | A refusal changes nothing; an acceptance moves the host as it is |
| `WorkerRegistry.AddedKeepsInv` | mainNode/src/service/WorkerManagementService.cpp:22-44 | Adding keeps the invariant: no host both active and inactive, active nodes benchmarked, each cached sum equal to the sum of the active speeds modulo 2^64 |
| `WorkerRegistry.ConnectedKeepsInv` | mainNode/src/service/WorkerManagementService.cpp:46-76 | So does connecting, whatever the remote answer and even after an earlier disconnect |
| `WorkerRegistry.DisconnectedKeepsInv` | mainNode/src/service/WorkerManagementService.cpp:78-114 | So does disconnecting |
| `WorkerRegistry.SpeedSumRemove` | mainNode/src/service/WorkerManagementService.cpp:46-114 | The sum of speeds does not depend on the order in which nodes are taken |
| `WorkerRegistry.CachedSumExact` | mainNode/src/service/WorkerManagementService.cpp:46-125 | Up to 18446744 active workers the cached sum is the true sum, a subtraction never underflows, and the sum is positive when anyone is active |
| `WorkerRegistry.ReconnectRestoresSum` | mainNode/include/service/WorkerManagementService.h:53-58 | Leaving and coming back restores sums, hosts and speeds, even if a different benchmark is reported, since speeds are computed once |
| `MainNode.Run` | mainNode/src/service/MainNodeService.cpp:33-110 | Every state reached by connect and disconnect commands with arbitrary answers satisfies the registry invariant |
| `MainNode.StepMovesHost` | mainNode/src/service/MainNodeService.cpp:33-110 | What one command, with whatever answer, does to one host |
| `MainNode.ActiveIffConnectedLast` | mainNode/src/service/MainNodeService.cpp:33-110 | After any run a worker is active if and only if some command connected it and none behind that disconnected it, and known if and only if it was ever asked for |
| `MainNode.SpeedsFromFirstConnect` | mainNode/include/service/WorkerManagementService.h:53-58 | After any run the speeds of a host are those measured when it was first connected |
| `MainNode.MainNodeService.ConnectNode` | mainNode/src/service/MainNodeService.cpp:33-88 | Guard order and status: 409 for the publisher, an active host or the queue, then the worker's refusal, then 200; the worker is only asked for a host stored as inactive |
| `MainNode.MainNodeService.DisconnectNode` | mainNode/src/service/MainNodeService.cpp:89-110 | 409 for the publisher or a host that is not active, then the worker's refusal, then 200 |
| `MainNode.MainNodeService.PublishMessage` | mainNode/src/service/MainNodeService.cpp:194-217 | Appends to the log, or 409 and nothing |
| `MainNode.MainNodeService.SendBlock` | mainNode/src/service/MainNodeService.cpp:239-249 | One turn of the loop: the share from the cached sum is sliced off and addressed to that worker, or the exception leaves all as it was |
| `MainNode.MainNodeService.SendToExecution` | mainNode/src/service/MainNodeService.cpp:219-256 | 409 without workers; otherwise the caller's range, the log and the outcome are those of the plan, each block addressed to its worker |
| `MainNode.DeliveredInOrder` | mainNode/src/service/MainNodeService.cpp:239-251 | Behind the old log, block i is addressed to the i-th worker; with the publisher down nothing is added |
| `MainNode.SpeedsInOrderSum` | mainNode/src/service/MainNodeService.cpp:229-251 | Visiting the active workers in any order adds up to the same sum |
| `MainNode.CachedSumServesScheduler` | mainNode/src/service/MainNodeService.cpp:229-251 | In an invariant state the cached sum is the sum of the speeds the loop visits, which is what the scheduler needs |
| `MainNode.ReachableClusterCoversRange` | mainNode/src/service/MainNodeService.cpp:219-256 | End to end: after any commands, for any worker order and range, blocks and remainder cover the range |
| `MainNode.ReachableClusterSharesFairly` | mainNode/src/service/MainNodeService.cpp:219-256 | End to end, up to 18446744 iterations: every block the rounded-down proportion by the cached sum, all served exactly when each worker but the last is owed an iteration, and the bounds of the last block |
| `MainNode.FasterNeverSentFewer` | mainNode/src/service/MainNodeService.cpp:219-256 | End to end: of two workers the one that first reported the smaller time is never sent fewer iterations, unless the other is the last and takes the remainder |
| `MainNode.CoveredRangeAddedOnce` | computationalNode/include/service/BenchmarkRunnerService.h:80-103 | After a completed plan and complete runs of its blocks, each requested iteration was added exactly once over the cluster |
| `ParallelLoop.StepKeepsAccount` | computationalNode/include/service/BenchmarkRunnerService.h:80-103 | No step of any thread loses or duplicates an index, waiting, computed or added |
| `ParallelLoop.ReachesInvariant` | computationalNode/include/service/BenchmarkRunnerService.h:80-103 | Over every interleaving the shared result is its start plus the meshes added so far |
| `ParallelLoop.EveryIndexAddedOnce` | computationalNode/include/service/BenchmarkRunnerService.h:80-103 | A finished loop has added each index of its block exactly once and nothing else |
| `ParallelLoop.AddAllAnyOrder` | computationalNode/include/service/BenchmarkRunnerService.h:93-99 | The same meshes in any order give the same result |
| `ParallelLoop.ScheduleInvisible` | computationalNode/include/service/BenchmarkRunnerService.h:80-103 | Two finished interleavings with the same meshes agree |
| `ParallelLoop.DeterministicSchedulesAgree` | computationalNode/include/service/BenchmarkRunnerService.h:80-103 | Where the mesh is a function of the index, any two finished interleavings agree |
| `ParallelLoop.SumIffStartZero` | computationalNode/include/service/BenchmarkRunnerService.h:78-99 | The result is the sum of the meshes added if and only if it started from zero |
| `ParallelLoop.BlockResultOffByAzimuths` | computationalNode/include/service/BenchmarkRunnerService.h:78-103 | From the start the code uses, every finished interleaving ends with the sum of its meshes and the azimuths of the grid on top, never with the sum |
| `ParallelLoop.TiledRangeAddedOnce` | computationalNode/include/service/BenchmarkRunnerService.h:80-103 | Complete runs of blocks that tile a range add each of its iterations exactly once |
| `BlockSolver.SolveHalvesIsExact` | computationalLib/lib/math_core/Dipoles.cpp:63-73 | With commuting blocks and an invertible square sum, the two half-size solves solve the full system for every right part |
| `BlockSolver.RecoversIffCommute` | computationalLib/lib/math_core/Dipoles.cpp:63-73 | Every solution is recovered from its right part if and only if the blocks commute, symmetric or not |
| `BlockSolver.ExactIffCommute` | computationalLib/lib/math_core/Dipoles.cpp:63-73 | Whatever the blocks, the shortcut is exact for all right parts if and only if they commute |
| `OneRightPart.ExactIffCommutingSolution` | computationalLib/lib/math_core/Dipoles.cpp:63-73 | For one right part the shortcut is exact if and only if that has a solution on whose halves the blocks commute, which is then what is found |
| `SymmetricBlocks.SquareSumKernel` | computationalLib/lib/math_core/Dipoles.cpp:65 | For symmetric blocks the square sum sends to zero just what both blocks do |
| `DipoleBlocks.CellsSymmetric` | computationalLib/include/math_core/Dipoles.h:153-203 | Swapping two dipoles flips the difference vector, which enters only in products, so mirrored blocks are equal and each block is symmetric |
| `DipoleBlocks.MatricesSymmetric` | computationalLib/include/math_core/Dipoles.h:153-203 | Hence M1 and M2 are symmetric for every number of dipoles |
| `DipoleBlocks.BlocksDetermine` | computationalLib/include/math_core/Dipoles.h:153-203 | A matrix of the right size is determined by its two-by-two blocks |
| `DipoleBlocks.PairBlocksCommute` | computationalLib/lib/math_core/Dipoles.cpp:5-13 | The two blocks of one pair commute, being combinations of one matrix and the identity |
| `DipoleBlocks.TwoDipolesCommute` | computationalLib/include/math_core/Dipoles.h:153-203 | For two dipoles M1 and M2 commute |
| `DipoleBlocks.MirroredDifference` | computationalLib/include/math_core/Dipoles.h:357-385 | Exchanging two dipoles negates their difference and keeps the distance |
| `PairActions.GetMatricesAct` | computationalLib/lib/math_core/Dipoles.cpp:5-13 | k1 multiplies the difference by 2/r^3 and the vector across it by -1/r^3; k2 is a multiple of the identity |
| `PairActions.PairBlocksAct` | computationalLib/include/math_core/Dipoles.h:153-203 | The blocks of a pair in M1 and M2 multiply the difference of the points and the vector across it by the stated combinations of these with cosine and sine of the phase, times minus the coefficient |
| `PairActions.DiagonalBlocksAct` | computationalLib/include/math_core/Dipoles.h:153-203 | The blocks on the two diagonals multiply every vector by the difference of the squared frequencies and by minus the damping |
| `PairActions.ActionsDetermine` | computationalLib/include/math_core/Dipoles.h:153-203 | These actions determine a block |
| `DipoleSystem.Dipoles.FromCoordinates` | computationalLib/include/math_core/Dipoles.h:141-151 | Size, coefficient, right part and matrices are those the coordinates describe |
| `DipoleSystem.Dipoles.InitArrays` | computationalLib/lib/math_core/Dipoles.cpp:15-27 | Right part and matrix sizes fit n, and n times the coefficient is the amplitude; matrix entries stay whatever they were or are undefined |
| `DipoleSystem.Dipoles.SetMatrixes` | computationalLib/include/math_core/Dipoles.h:153-203 | The block loops overwrite every entry: the matrices are the spelled-out grids, whatever they held before; `PairActions` says what these do |
| `DipoleSystem.Dipoles.SetNewCoordinates` | computationalLib/include/math_core/Dipoles.h:205-213 | After any history the object is the one freshly constructed from the coordinates; skipping reinitialisation for an equal size is invisible |
| `DipoleSystem.Dipoles.LoadFromMatrix` | computationalLib/lib/math_core/Dipoles.cpp:29-35 | Size from the rows, coefficient and right part for it, blocks from the two left corners |
| `DipoleSystem.Dipoles.GetMatrixx` | computationalLib/lib/math_core/Dipoles.cpp:41-49 | The full matrix of the two blocks |
| `DipoleSystem.Dipoles.Solve` | computationalLib/lib/math_core/Dipoles.cpp:63-73 | The two half-size solves, one above the other; the full matrix applied to it is the object's right part if and only if there is a solution on whose halves the blocks commute |
| `DipoleSystem.Dipoles.SolvePair` | computationalLib/lib/math_core/Dipoles.cpp:51-61 | The pair version gives the halves of the same answer |
| `DipoleSystem.Dipoles.GetRightPart` | computationalLib/lib/math_core/Dipoles.cpp:37-39 | The right part that is solved for |
| `DipoleSystem.FullMatrixActs` | computationalLib/lib/math_core/Dipoles.cpp:41-49 | Applying the full matrix is multiplying by M1 + i M2 |
| `DipoleSystem.LoadInvertsFullMatrix` | computationalLib/lib/math_core/Dipoles.cpp:29-49 | Loading a composed matrix gives its blocks back |
| `DipoleSystem.LoadFaithfulIffBlockForm` | computationalLib/lib/math_core/Dipoles.cpp:29-49 | Loading and composing gives a matrix back if and only if it has the block form |
| `DipoleSystem.ExactForCoordinatesIffCommute` | computationalLib/lib/math_core/Dipoles.cpp:63-73 | For all coordinates of distinct points: exact for all right parts if and only if the two built matrices commute |
| `DipoleSystem.ExactForTwoDipoles` | computationalLib/lib/math_core/Dipoles.cpp:63-73 | For two dipoles the shortcut is always exact |
| `DipoleSystem.CoordinatesSeparate` | computationalLib/lib/math_core/Dipoles.cpp:63-73 | Coordinates whose full system has unique solutions give a square sum that has unique solutions |
| `DipoleSystem.LoadedSystemSolvedWrong` | computationalLib/lib/math_core/Dipoles.cpp:29-73 | A loaded one-dipole system whose answer does not solve it |
| `ThreeDipoles.CornerDoesNotCommute` | computationalLib/include/math_core/Dipoles.h:153-203 | Three dipoles at a corner with equally long arms along the two axes: the matrices built from them never commute, for any root and any cosine and sine on the unit circle |
| `ThreeDipoles.CornerSolvedWrong` | computationalLib/lib/math_core/Dipoles.cpp:63-73 | So some right part, perhaps not the object's own, would be solved wrongly for each of them |
| `DipoleLine.LineSolvedWrong` | computationalLib/lib/math_core/Dipoles.cpp:20-73 | Three dipoles equally spaced along an axis: the right part every system of three holds is not solved |
| `DipoleLine.LineObjectSolvedWrong` | computationalLib/lib/math_core/Dipoles.cpp:20-73 | The answer of any object set to such coordinates, put into its own full matrix, is not its own right part |
| `ClockArray.ClockArray.Tik` | utilLib/include/parallelUtils/ClockArray.h:177-187 | Sets the start of the location and pushes it |
| `ClockArray.ClockArray.TikLoc` | utilLib/include/parallelUtils/ClockArray.h:84-88 | The same, returning the location |
| `ClockArray.ClockArray.Tak` | utilLib/include/parallelUtils/ClockArray.h:152-175 | Throws, changing nothing, exactly when nothing is open or the top belongs to another function; otherwise pops and charges one section the whole units elapsed |
| `ClockArray.ElapsedCountsUnits` | utilLib/include/parallelUtils/chronoClock.h:36-41 | What is charged is how often the unit fits into the time that has passed, negated for a clock that ran backwards |
| `ClockArray.ClockArray.Reset` | utilLib/include/parallelUtils/ClockArray.h:189-199 | Throws, changing nothing, exactly when a section is open; otherwise the clock is as new |
| `ClockArray.ClockArray.ResetTimer` | utilLib/include/parallelUtils/ClockArray.h:201-215 | Forgets one location's totals |
| `ClockArray.ClockArray.Advance` | utilLib/include/parallelUtils/ClockArray.h:227-245 | The totals become the pointwise sum over both clocks' locations; all else is kept |
| `ClockArray.MergedAssociative` | utilLib/include/parallelUtils/ClockArray.h:235-245 | Merging totals is associative |
| `ClockArray.MergedCommutative` | utilLib/include/parallelUtils/ClockArray.h:235-245 | Merging totals is commutative |
| `ClockRuns.RunMirrored` | utilLib/include/parallelUtils/ClockArray.h:152-187 | Over every matched run the two maps and the stack follow an independent trace of open and closed sections |
| `ClockRuns.TotalsOfRun` | utilLib/include/parallelUtils/ClockArray.h:152-187 | The stack is the open sections in order; counts are numbers of closed sections and times their totals since the last start of the location |
| `ClockRuns.TotalsAreTrue` | utilLib/include/parallelUtils/ClockArray.h:152-187 | With no location reopened while open, counts and total durations are exactly those of the closed sections |
| `ClockRuns.TotalsCountUnits` | utilLib/include/parallelUtils/ClockArray.h:152-187 | On a monotone clock with no reopening, a total in units is at most the time between starts and ends of the sections, and short of it by less than one unit for each |
| `ClockSections.ChargesInsideFit` | utilLib/include/parallelUtils/ClockArray.h:152-187 | On a monotone clock with no reopening, what the calls directly inside a section add to the totals is at most what the call that ends it adds |
| `ClockSections.TotalExactIffNothingLost` | utilLib/include/parallelUtils/ClockArray.h:152-187 | With reopenings a total is never too large, and exact if and only if no call that starts the location again while it is open loses a whole unit |
| `ClockSections.TickTotalExactIff` | utilLib/include/parallelUtils/ClockArray.h:152-187 | In single ticks: exact if and only if no such call is later than the start |
| `ClockSections.ChargeOfAnyRun` | utilLib/include/parallelUtils/ClockArray.h:152-187 | Whoever ends a section, the time charged counts from the last start of its line by that file and thread, or from the epoch |
| `ClockSections.TotalsOfAnyRun` | utilLib/include/parallelUtils/ClockArray.h:152-187 | In any run, matched or not, each location's count and time are those of the charges made to it |
| `ClockSections.CallCharges` | utilLib/include/parallelUtils/ClockArray.h:152-175 | Whoever ends a section, one total changes: that of the line and column of the call that opened it with file and thread of the call that ends it |
| `ClockRuns.RecursionUndercharged` | utilLib/include/parallelUtils/ClockArray.h:152-187 | A concrete recursive run that records 30 for sections of 40 |
| `Benchmark.BenchmarkHandler.RunBenchmark` | computationalLib/test/BenchmarkHandler.h:132-162 | The handler's clock ends as the copy advanced by every iteration's totals, the working clock being reset each time |
| `Benchmark.IterationAdds` | computationalLib/test/BenchmarkHandler.h:151-160 | A balanced iteration adds its own totals to whatever the clock held |
| `Benchmark.BenchTotals` | computationalLib/test/BenchmarkHandler.h:140-161 | No iteration of a balanced benchmark makes the reset throw, and what the clock held beforehand is added a second time |
| `Benchmark.ReachableCountsPositive` | utilLib/include/parallelUtils/ClockArray.h:169-174 | Every recorded location of every reachable clock has a positive count |
| `Benchmark.BenchFaithfulIffFresh` | computationalLib/test/BenchmarkHandler.h:140-161 | Advance and reset per iteration give the totals of one clock never reset if and only if the clock held none before |
| `Benchmark.OwnAllAnyOrder` | computationalLib/test/BenchmarkHandler.h:151-160 | The order of the iterations does not matter |
| `Cartesian.CartesianProduct` | computationalLib/test/BenchmarkHandler.h:22-44 | As many entries as combinations; entry k of the combination at the position its indices stand for is the element of array k at the k-th index; nothing when an array is empty |
| `Cartesian.EnumeratesProduct` | computationalLib/test/BenchmarkHandler.h:22-44 | A tuple is in the result if and only if it has one element of each array |
| `Cartesian.NoTupleTwice` | computationalLib/test/BenchmarkHandler.h:22-44 | Without repeated elements no tuple is repeated |
| `Cartesian.PrefixProducts` | computationalLib/test/BenchmarkHandler.h:28-29 | The array of sizes becomes the products of its prefixes |
| `Cartesian.PickedIsDigit` | computationalLib/test/BenchmarkHandler.h:36 | The closed form `((i*prefix)/N) % size` is the mixed-radix digit of i |
| `Cartesian.ValueOfDigits` | computationalLib/test/BenchmarkHandler.h:34-37 | Every index below N has valid digits that stand for it |
| `Cartesian.DigitsOfValue` | computationalLib/test/BenchmarkHandler.h:34-37 | Every valid tuple of digits comes from exactly the index it stands for, so the enumeration is a bijection |
| `Cartesian.DigitsIncrease` | computationalLib/test/BenchmarkHandler.h:34-37 | Later indices have lexicographically greater digits |
| `Streams.ReadPrintedWord` | utilLib/include/common/Parsers.h:170-182 | A printed number behind any space and before a non-digit is read back, nothing more consumed |
| `Streams.ReadTooLarge` | utilLib/include/common/Parsers.h:170-182 | A number too large for a word is read as the largest, with the fail bit set |
| `Streams.ReadMinus` | utilLib/include/common/Parsers.h:170-182 | A minus sign negates modulo 2^64 |
| `Formats.ParseDelim` | utilLib/lib/common/printUtils.cpp:82-101 | White space delimiters are left alone; others are matched character by character, the first mismatch consumed with the fail bit set |
| `Formats.MatchIffNext` | utilLib/lib/common/printUtils.cpp:82-95 | A visible delimiter is matched if and only if it comes next, and is then consumed |
| `Formats.MatchStops` | utilLib/lib/common/printUtils.cpp:82-95 | Otherwise all up to and including the first character that differs is consumed |
| `Formats.ReadQuotedBack` | utilLib/lib/common/printUtils.cpp:26-75 | Any string, quotes and backslashes included, survives quoting, as section [quoted.manip] of the ISO C++ standard prescribes it |
| `Formats.EscapedLength` | utilLib/lib/common/printUtils.cpp:64-75 | Quoting adds one character for each quote and backslash |
| `Formats.FormatText` | utilLib/lib/common/printUtils.cpp:64-75 | The two numbers and seven strings stand in the order of the description |
| `Formats.FormatRoundTrip` | utilLib/lib/common/printUtils.cpp:26-75 | Every format description is read back equal, whatever its strings |
| `Vectors.ParseOneDim` | utilLib/include/common/Parsers.h:162-192 | The values and the stream left behind are those of the specification; the exception exactly when the size cannot be read |
| `Vectors.PrefixMissing` | utilLib/include/common/Parsers.h:162-192 | Without the visible prefix every value is zero and nothing is thrown |
| `Vectors.SeparatorMissing` | utilLib/include/common/Parsers.h:179-188 | Without the visible separator behind the first value the others are zero |
| `Vectors.AlignedLength` | utilLib/include/common/Printers.h:66-79 | Aligned numbers all take the width of the longest |
| `Vectors.VectorRoundTrip` | utilLib/include/common/Printers.h:66-79 | Any non-empty vector printed in any admissible format is read back exactly, also in a format that differs only in white space; the condition is sufficient |
| `Vectors.DatabaseColumnRoundTrip` | computationalLib/lib/network_shared/daoClasses.cpp:79-84 | The `{a,b,c}` benchmark column reads back and nothing is left |
| `Vectors.DefaultFormatsRoundTrip` | utilLib/lib/common/printUtils.cpp:82-101 | The tab-separated format with a size header is read back by the default format |
| `VectorFormats.DefaultReadsIffTransparent` | utilLib/include/common/Parsers.h:162-192 | Of all formats, alignments and texts behind the row, exactly the transparent ones let the default parser read every vector back |
| `Meshes.MyLinspace` | utilLib/include/common/MeshCreator.h:210-231 | Refuses no points and an empty span; otherwise the evenly spaced values |
| `Meshes.LinspaceIffEven` | utilLib/include/common/MeshCreator.h:210-231 | A sequence is the one computed if and only if it hits both bounds and has equal steps |
| `Meshes.MyMeshGrid` | utilLib/include/common/MeshCreator.h:233-247 | One array repeats the first axis, the other stretches the second |
| `Meshes.GridPoint` | utilLib/lib/common/MeshCreator.cpp:57-71 | A grid point of a constructed mesh is at its row-major position and nowhere else |
| `Meshes.MeshCreator.constructor` | utilLib/lib/common/MeshCreator.cpp:48-55 | Default dimensions and limits, with zero or empty arrays |
| `Meshes.MeshCreator.ConstructMeshes` | utilLib/lib/common/MeshCreator.cpp:57-71 | The two grids for the dimensions and limits; a refusal has already replaced dimensions and limits but no array |
| `Meshes.MeshCreator.ApplyFunction` | utilLib/lib/common/MeshCreator.cpp:32-34 | Values of the function over the grid, or an error and no change |
| `Meshes.ComputeFunction` | utilLib/lib/common/MeshCreator.cpp:5-22 | Pointwise values; the two errors exactly for empty and for unequal arrays |
| `Meshes.Unflatten` | utilLib/lib/common/MeshCreator.cpp:111-121 | Rows that written one behind the other are the array again |
| `MeshTables.PrintDec` | utilLib/lib/common/MeshCreator.cpp:83-109 | The header, the row of thetas and, for every phi, the column of values, transposed |
| `TableCells.MeshCell` | utilLib/lib/common/MeshCreator.cpp:83-109 | In the table of any mesh each value stands on the line headed by its phi and in the column headed by its theta |
| `TableCells.GridPointPrinted` | utilLib/lib/common/MeshCreator.cpp:83-109 | For a mesh on its own grids the two heads are the coordinates of the grid point |
| `TableCells.PlainHead` | utilLib/lib/common/Printers.cpp:22-57 | The plain form starts with the two dimensions and the four limits, theta first |
| `MeshTables.PrintMesh` | utilLib/lib/common/Printers.cpp:22-57 | Either that table or optional dimensions and limits and the values in the given format |
| `MeshTables.ParseMeshFrom` | utilLib/lib/common/Parsers.cpp:34-122 | Both kinds of text: result, errors and the input left behind are those of the specification, which the given format does not enter; the object is new |
| `MeshTables.ParseTable` | utilLib/lib/common/Parsers.cpp:87-109 | Each value is stored at theta * width + phi, and the first and last phi are kept |
| `MeshTables.TableReadBack` | utilLib/lib/common/Parsers.cpp:70-118 | Whatever mesh is printed, the one parsed has its dimensions and values, and the limits at its grid ends |
| `MeshTables.TableRoundTripIff` | utilLib/lib/common/Parsers.cpp:70-118 | A table restores a mesh completely if and only if its grids are those its dimensions and non-empty limits call for |
| `MeshTables.MeshListRoundTripIff` | utilLib/lib/common/Parsers.cpp:70-118 | Any number of meshes printed back to back are restored, whatever follows, if and only if each is so |
| `MeshTables.DefaultMeshRefused` | utilLib/lib/common/MeshCreator.cpp:48-55 | A default object's table is refused, its limits having become equal |
| `MeshTables.SerialRoundTripIff` | utilLib/lib/common/Parsers.cpp:45-68 | The plain form, for every format and choice of what is printed: restored if and only if the mesh is regular and each visible delimiter cuts off nothing but zeros |
| `MeshTables.FormatRestoresIff` | utilLib/lib/common/Parsers.cpp:45-68 | A format restores every regular mesh if and only if its prefixes and its separator are white space |
| `MeshTables.BracketedMeshLost` | utilLib/lib/common/Parsers.cpp:45-68 | Printed with brackets and commas and parsed with that format, a mesh comes back with all values zero and no error |
| `Solutions.PrintSolutionFormat1` | utilLib/include/common/Printers.h:209-234 | The header and two rows per dipole, each pairing an entry with the one half a vector behind and their modulus |
| `TableCells.SolutionLine` | utilLib/include/common/Printers.h:209-234 | On each line stand the two entries and, for a true root, a non-negative number whose square is the sum of their squares |
| `Solutions.ParseSolution` | utilLib/include/common/Parsers.h:203-230 | Each pair goes to its two positions, the third column is dropped, an unreadable header is an error |
| `Solutions.PrintCoordinates2` | utilLib/include/common/Printers.h:236-254 | The title, the number of points and one row for each |
| `TableCells.CoordinateLine` | utilLib/include/common/Printers.h:236-254 | On each line stand the two coordinates of one point |
| `Solutions.ParseCoordinates` | utilLib/include/common/Parsers.h:243-260 | Each pair goes to the two halves; an unreadable number is an error |
| `Solutions.SolutionReadBack` | utilLib/include/common/Parsers.h:203-230 | Parsing a printed solution returns its longest front part with a length divisible by four |
| `Solutions.SolutionRoundTripIff` | utilLib/include/common/Parsers.h:203-230 | Every entry comes back, whatever the derived column, if and only if the length is divisible by four |
| `Solutions.CoordinatesReadBack` | utilLib/include/common/Parsers.h:243-260 | Parsing printed coordinates returns all of them but an odd last one |
| `Solutions.CoordinatesRoundTripIff` | utilLib/include/common/Parsers.h:243-260 | Coordinates come back if and only if their length is even |
| `Solutions.CoordinatesBehindTextIff` | utilLib/include/common/Parsers.h:243-260 | Behind any text of words and line ends, coordinates come back if and only if the text ends no line and their length is even |
| `Solutions.SecondCoordinatesRefused` | utilLib/include/common/Parsers.h:243-260 | The second of two tables of coordinates in one stream is never read |
| `ConnectionStrings.UrlDecode` | computationalLib/lib/network_shared/connectionString.cpp:5-15 | Same length, every delimiter a space and every other character kept |
| `ConnectionStrings.PostgresRoundTripIffClean` | computationalLib/lib/network_shared/connectionString.cpp:66-88 | The parser inverts the formatted string if and only if every field is a non-empty word without delimiters |
| `ConnectionFormats.PostgresIdentifiesIffUnambiguous` | computationalLib/lib/network_shared/connectionString.cpp:66-102 | No other fields have the same string if and only if no `:` or `@` ends a field too early and the address can be cut in one way only |
| `ConnectionStrings.PostgresEqualityIsFieldEquality` | computationalLib/lib/network_shared/connectionString.cpp:100-102 | For clean fields on one side equal strings mean equal fields |
| `ConnectionFormats.DelimitersConfuseEquality` | computationalLib/lib/network_shared/connectionString.cpp:66-102 | Different fields with delimiters that give the same string |
| `ConnectionStrings.AmqpRoundTripIffClean` | computationalLib/lib/network_shared/connectionString.cpp:148-169 | The same for queue strings, the host given as host and port, secure or not |
| `ConnectionFormats.AmqpIdentifiesIffUnambiguous` | computationalLib/lib/network_shared/connectionString.cpp:100-150 | The same for queue strings: no `:` in the user, no `:` or `@` in the password, no `@` in the host |
| `ConnectionFormats.DelimitersConfuseAmqp` | computationalLib/lib/network_shared/connectionString.cpp:148-150 | Different queue fields with the same string |
| `ConnectionStrings.AmqpEqualityIsFieldEquality` | computationalLib/lib/network_shared/connectionString.cpp:100-102 | For clean fields on one side equal strings mean equal fields |
| `ConnectionGrammar.PostgresReadIffSpelled` | computationalLib/lib/network_shared/connectionString.cpp:75-88 | Of all strings exactly those are read whose decoded text is the scheme and three words, a 32-bit number and a word, and these are the fields |
| `ConnectionGrammar.AmqpReadIffSpelled` | computationalLib/lib/network_shared/connectionString.cpp:155-169 | Of all strings exactly those are read whose decoded text has five words; the last two make the address, and the first tells by its last letter whether it is secure |
| `ConnectionGrammar.PostgresText` | computationalLib/lib/network_shared/connectionString.cpp:66-69 | The formatted text by an example |
| `ConnectionGrammar.AmqpTexts` | computationalLib/lib/network_shared/connectionString.cpp:148-150 | The two schemes by examples |
| `ConnectionStrings.PostgreSQLCStr.From` | computationalLib/lib/network_shared/connectionString.cpp:19-29 | Fields as given, and the cached string formatted from them |
| `ConnectionStrings.PostgreSQLCStr.SetUser` | computationalLib/lib/network_shared/connectionString.cpp:47-50 | One field replaced, the cached string in step |
| `ConnectionStrings.PostgreSQLCStr.SetPassword` | computationalLib/lib/network_shared/connectionString.cpp:31-34 | One field replaced, the cached string in step |
| `ConnectionStrings.PostgreSQLCStr.SetHost` | computationalLib/lib/network_shared/connectionString.cpp:35-38 | One field replaced, the cached string in step |
| `ConnectionStrings.PostgreSQLCStr.SetPort` | computationalLib/lib/network_shared/connectionString.cpp:39-42 | One field replaced, the cached string in step |
| `ConnectionStrings.PostgreSQLCStr.SetDbname` | computationalLib/lib/network_shared/connectionString.cpp:43-46 | One field replaced, the cached string in step |
| `ConnectionStrings.PostgreSQLCStr.Equals` | computationalLib/lib/network_shared/connectionString.cpp:100-102 | Field equality when one formatted side is unambiguous; unformatted objects equal each other and no formatted one, not even with equal fields |
| `ConnectionStrings.AMQPSQLCStr.Equals` | computationalLib/lib/network_shared/connectionString.cpp:100-102 | The same for queue strings |
| `ConnectionStrings.PostgreSQLCStr.FromString` | computationalLib/lib/network_shared/connectionString.cpp:75-88 | Fields of the parsed string with the cached string in step, or an exception and no change |
| `ConnectionStrings.AMQPSQLCStr.From` | computationalLib/lib/network_shared/connectionString.cpp:109-119 | Fields as given, and the cached string formatted from them |
| `ConnectionStrings.AMQPSQLCStr.SetHostPort` | computationalLib/lib/network_shared/connectionString.cpp:123-126 | One field replaced, the cached string in step |
| `ConnectionStrings.AMQPSQLCStr.SetSecure` | computationalLib/lib/network_shared/connectionString.cpp:144-147 | One field replaced, the cached string in step |
| `ConnectionStrings.AMQPSQLCStr.FromString` | computationalLib/lib/network_shared/connectionString.cpp:155-169 | Fields of the parsed string with the cached string in step, or an exception and no change |

## Left out

- `RecomputeCoefficients`: the JSON parse at mainNode/include/service/WorkerManagementService.h:54 is given `true` where a size is expected, so a worker's times are an input vector with one entry in 1..10^12 for each benchmarked size; a node is a value in the registry's maps, not an object.
- Registry: transport failures other than an unreachable address, on which the code dereferences an empty response; times and clients; node status output.
- `MainNode.ReachableClusterCoversRange`: assumes at most 18446744 active workers and a benchmarked system size, since for any other size the code indexes past the speed vector, and it assumes usable benchmark answers.
- `MainNode.MainNodeService.SendToExecution`: calls neither the queue library nor JSON; publishing is an append to a log and the publisher's connection does not change during a call. With more than one worker the size has to be a benchmarked one with a positive cached sum.
- `ParallelLoop.EveryIndexAddedOnce`: the meshes are arbitrary, as the configurations are random; the loop variable's 32-bit range bounds the last index; the critical section is one atomic step. The start is arbitrary here and the one the code uses in `ParallelLoop.BlockResultOffByAzimuths`.
- JSON forms of the range, with the limits of `asUInt`, and the field copies of small structs.
- `DipoleSystem.Dipoles.Solve`: entries are reals, so rounding is not modelled; LU factorisation is a parameter that answers every right part of an invertible matrix; the two container specialisations at computationalLib/lib/math_core/Dipoles.cpp:75-99 differ from the modelled one only in storage.
- `DipoleSystem.Dipoles.FromCoordinates`: cosine, sine, root and division follow only the laws the proofs need; points have to be distinct, where the code would compute infinities; nested coordinate containers and at least one dipole are assumed as the constructor does.
- `ifunction_` and `i_2_function_`: trigonometric physics in floating point.
- `ThreeDipoles.CornerSolvedWrong`: which right parts are wrong is not said; `DipoleLine.LineSolvedWrong` says it of the object's own.
- `DipoleLine.LineSolvedWrong`: the root is a true root and cosine and sine only have to lie on the unit circle; the square sum is assumed to be factorised; other coordinates have the criterion of `OneRightPart.ExactIffCommutingSolution` only.
- `ClockRuns.TotalsAreTrue`: instants and totals are unbounded integers; a section has to be ended from the file and thread that started it, other runs being described by `ClockSections.TotalsOfAnyRun`; the mutex makes every operation one step.
- `Benchmark.BenchmarkHandler.RunBenchmark`: an iteration is the list of its clock calls, and an exception of one of them is taken to be caught inside it; the snapshot files are left out.
- `Cartesian.CartesianProduct`: all arrays have one element type and indices are unbounded, where the code needs i times a prefix product to fit a machine word.
- `Vectors.VectorRoundTrip`: the condition is sufficient, and exact only for a parser with the default format; entries are unsigned 64-bit numbers; the digits of floating values and column padding by other than the width of the widest entry are not modelled.
- `Formats.ParseDelim`: the returned flag of the code is also false when the end of the text was met before; that bit is not modelled.
- `Formats.FormatRoundTrip`: streams of bytes with the white space of the C locale.
- `MeshTables.ParseMeshFrom`: numbers are exact reals and tokens; a dimension of one divides by zero and a table dimension below two makes the unsigned bound of the skipping loop wrap, so both are excluded; a value read after the stream has failed is indeterminate in the code and zero here; JSON meshes are left out.
- `Meshes.MyLinspace`: one point divides by zero in the code, which gives a value that is not a number; it is excluded.
- `Meshes.MeshCreator.ConstructMeshes`: a dimension of one is excluded for that reason; the overload that fills in stored dimensions and limits is left out.
- `MeshTables.PrintDec`: the object's arrays have to be as long as its dimensions say and theta's dimension positive, since the code reads past their ends otherwise.
- `MeshTables.SerialRoundTripIff`: numbers are tokens here, so delimiters are white space or text that cannot prolong or start a number, and padding is white space; `VectorFormats.DefaultReadsIffTransparent` has all formats, for natural numbers.
- `Solutions.ParseSolution`: only the table for people; the plain format is that of vectors.
- `ConnectionStrings.PostgresRoundTripIffClean`: the scan library is modelled by its documented splitting at white space in the C locale; ports are unsigned 32-bit numbers.
- The message queue, HTTP, database and plotting clients, the file handler, numerical integration, random generators, time formatting, enum tables and pagination: library calls or easy members.
