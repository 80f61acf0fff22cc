# symPACK in Dafny

symPACK factors a sparse symmetric matrix as LL' or LDL' on many ranks and solves with the factor.  This
project models its algorithms and proves what they promise:

- the task graph of the 2D factorization, its construction from two message streams, its scheduler as a state
  machine over all ranks, and what the tasks compute (`TaskGraph`, `TaskProtocol`, `Factorization`);
- the threads of a rank with their locks, delay lists and shutdown (`ThreadLocks`, `ThreadRuns`), at work on the
  factorization (`RankThreads`, `Products`); all ranks with their threads, messages and data as one machine
  (`ThreadedFactorization`);
- the tasks of the triangular solves with coalesced messages and contribution buffers, and what they compute
  (`SolveProtocol`, `SolveGraph`, `SolveValues`);
- the elimination tree, its postorder, and the orderings that go with it (`EliminationTree`, `ETree`,
  `Ordering`, `Relabelling`, `Postorder`, `PostOrderTree`, `Preprocessing`, `SupernodalTree`);
- the dense LDL' kernels, unblocked and blocked (`Ldl`);
- the cells of the factor: their rows in runs, their update, their descriptors
  (`Cells`, `CellBlocks`, `CellLists`);
- the distributed compressed-column graph and matrix: expansion, restriction, permutation, diagonal, sorting,
  gathering (`Segments`, `DistMatrix`, `Assembly`, `Expansion`, `Restriction`, `Diagonal`, `Sorting`,
  `Permutation`, `Ranks`, `Gathering`);
- the load balancers and the all-to-all exchange that fuses elements (`LoadBalancer`, `Subcubes`,
  `Alltoallv`).

`dafny verify dfyconfig.toml` checks the whole project.

## How the model is built

- Concurrency.  A run is any sequence of enabled steps.  Messages, procedure calls and one-sided gets under
  way are multisets, and so are the ready and available queues: any element may be next, which covers every
  priority order and every arrival order.  The first pass over the counters ends before a message is
  processed, and compare-and-swap is strong; `ThreadRuns.SpuriousFailureStrands` shows why the latter
  matters.
- Data.  In `Factorization` the blocks are values of any type with the four operations of the task bodies; the
  only law used is that two updates of one cell may be exchanged (`Commutes`), which `CellBlocks.BlocksCommute`
  proves for blocks of reals with the update of `Cells`.
  Rows in messages are replaced by the supernodes they name.
- Numbers.  Floating point is replaced by reals.  `ideal` in `Subcubes` is any integer, so rounding does not
  matter there.
- Objects that the source updates in place are classes or arrays; vectors that it resizes are sequences that
  are reassigned element by element.  A collective operation is a method over the sequence of all ranks.
- A graph's values are of the one-element type, so graph and matrix share one representation.

## Where the code does less than its names suggest

- `ConstructETree` skips a column with one entry: `ETree.WholeGraph` gives the exact condition under which
  that is harmless.
- A graph that is marked as sorted is not sorted after `ExpandSymmetric`, although its upper entries are laid
  down in reverse: `Sorting.ExpandedSorted`.
- `ToSymmetric` counts and copies with different tests: `Restriction.RestrictConsistent`.
- `SetKeepDiag(1)` sizes its buffer for columns without diagonal: `Diagonal.InsertDiagonal`.
- With a zero pivot the blocked and the unblocked LDL' leave different triangles behind the same INFO:
  `Ldl.BlockedRefinesUnblocked` says exactly where, `Ldl.FailureDiffers` gives a matrix, and
  `Ldl.SameTriangleIff` says at which pivots some matrix tells them apart.
- `mpi::Alltoallv` checks the send displacements for sign and then ignores them: `Alltoallv.PackedExactly` says
  when that is harmless, `Alltoallv.DisplsIgnored` gives an input.
- The update of a diagonal cell (J,J) is told twice but lowers the counter of its pivot once, so the scaled product
  of a cell on the rank of the diagonal cell of its row is never deleted: `Products.ProductsInEveryRun`.
- `mpi::Alltoallv` checks that what is sent fits into ints, but neither what is received nor the size of a fused
  block: `Alltoallv.ExactIff` gives the exact condition, `Alltoallv.ArrivalsOverflow` and
  `Alltoallv.BlockOverflows` the inputs.
- A worker thread that has found its mailbox empty and then reads `done` leaves although the master may have
  filled the mailbox in between; the master counts a task as done when it hands it out.  The task is lost:
  `ThreadRuns.OneTaskLost` is such a run, and `ThreadRuns.AllRunsFinishIff` shows that one more poll after
  `done` is exactly what is missing.
- The last root's entry of `poparent_` is not written before the traversal reads it as a brother; as the
  traversal has numbered all vertices by then, the value has no effect, and the array is taken with any
  contents.

## Model

| member | source | states |
|---|---|---|
| TaskProtocol.EveryRun | include/sympack/symPACKMatrix2D.hpp:6308-6560 | In every run of the scheduler, for any interleaving of ranks, RPCs, LPCs and gets: no counter is negative, every task runs at most once and after all its predecessors, the number of steps is bounded in advance, and a run cannot go on exactly when every task has run |
| TaskProtocol.StepKeepsInv | include/sympack/symPACKMatrix2D.hpp:264-314 | Each step (satisfy_dep, avail_dep, execute, RPC arrival, get completion, their LPCs) keeps the invariant that ties both counters to what has arrived, landed and run |
| TaskProtocol.InitInv | include/sympack/symPACKMatrix2D.hpp:4025-4038 | Counters that agree with the out-lists of all ranks make a valid initial state |
| TaskProtocol.ReadyPredsDone | include/sympack/symPACKMatrix2D.hpp:264-290 | A ready task has not run; its predecessors have; the messages and the data of the remote ones are there |
| TaskProtocol.StuckTaskDone | include/sympack/symPACKMatrix2D.hpp:6533-6556 | With nothing under way, a task whose predecessors have run has run itself: no message or data can be missing |
| TaskProtocol.Progress | include/sympack/symPACKMatrix2D.hpp:6492-6556 | If edges climb in some rank, a state without enabled step has executed every task |
| TaskProtocol.AllDoneNothingLeft | include/sympack/symPACKMatrix2D.hpp:6557-6560 | Once all tasks have run no RPC, LPC, get or queued task is left |
| TaskProtocol.EdgeMultiplicity | include/sympack/symPACKMatrix2D.hpp:3615-3978 | An edge is counted by its target as often as its source has filed it, under the right rank and with the right locality |
| TaskGraph.LowerBound | include/sympack/symPACKMatrix2D.hpp:3591-3634 | The binary search on the sorted key index splits it at the key and finds the key exactly when it is present |
| TaskGraph.GenerateMessages | include/sympack/symPACKMatrix2D.hpp:3345-3449 | The lists per destination rank are the messages for that rank in the order in which the loops produce them |
| TaskGraph.ReceivedInOrder | include/sympack/symPACKMatrix2D.hpp:3450-3592 | However the supernodes are spread over ranks, the exchange delivers to each rank the same messages in the same order |
| TaskGraph.ProcessMessages | include/sympack/symPACKMatrix2D.hpp:3615-3978 | Working through the messages leaves exactly the tallied local and remote input counts and the out-lists in order |
| TaskGraph.RankSeesAll | include/sympack/symPACKMatrix2D.hpp:3615-3978 | What a rank tallies and files for its own tasks is what all messages of all ranks tally and file for them |
| TaskGraph.DoubleEntry | include/sympack/symPACKMatrix2D.hpp:3615-3978 | The local and remote input counts of a task equal the number of times it occurs in the out-lists of its own and of the other ranks |
| TaskGraph.MatchedBalanced | include/sympack/symPACKMatrix2D.hpp:3615-3978 | Pushes and counts that match one by one give equal totals, split by owner |
| TaskGraph.ConstructionIsDoubleEntry | include/sympack/symPACKMatrix2D.hpp:3345-3978 | End to end, for any distribution: after a rank has processed what it received its counters equal the occurrences in the out-lists of all ranks, and its out-lists are complete |
| TaskGraph.SearchesSucceedIffFillClosed | include/sympack/symPACKMatrix2D.hpp:3591-3978 | Every key that any rank searches for exists exactly when the structure is closed under fill |
| TaskGraph.AggregateMisses | include/sympack/symPACKMatrix2D.hpp:3785-3826 | Without the common cell of two supernodes the search of the aggregate message fails |
| TaskGraph.TasksCreatedOnce | include/sympack/symPACKMatrix2D.hpp:3345-3449 | The task stream holds every task of the structure exactly once and nothing else |
| TaskGraph.TaskMembers | include/sympack/symPACKMatrix2D.hpp:3345-3449 | A key is created exactly when the structure asks for that FACTOR, TRSM, DLT or UPDATE task |
| TaskGraph.GraphEdge | include/sympack/symPACKMatrix2D.hpp:3345-3449 | With a fill-closed structure every edge joins two tasks and climbs in the rank (supernode, FACTOR<TRSM<DLT<UPDATE): the graph is acyclic |
| TaskGraph.GraphWellFormed | include/sympack/symPACKMatrix2D.hpp:3345-3978 | The constructed graph meets what the scheduler needs, and the rank climbs along it |
| TaskGraph.CountersBalanced | include/sympack/symPACKMatrix2D.hpp:4025-4038 | The initial counters agree with the out-lists |
| TaskGraph.OperandCount | include/sympack/symPACKMatrix2D.hpp:3386-3420 | A source cell occurs as often among the inputs of an update as the update has messages for it: twice when both operands are the same cell |
| TaskGraph.EveryFactorizationRun | include/sympack/symPACKMatrix2D.hpp:6308-6560 | Every run of the factorization, LL or LDL, any number of ranks and any placement of cells: each task once, in dependency order, finitely many steps, and stopped exactly when all tasks have run |
| Factorization.ScheduleIndependence | include/sympack/symPACKMatrix2D.hpp:4041-4555 | In every run a cell whose final task has run holds its value in the sequential factor; when FACTOR(J) or TRSM(K,J) is ready the cell is the matrix cell after exactly the updates of the supernodes below J; a finished run has the whole factor |
| Factorization.SchedulesAgree | include/sympack/symPACKMatrix2D.hpp:4041-4555 | Two complete runs under any schedules end with the same factor after the same number of steps |
| Factorization.StepKeepsGood | include/sympack/symPACKMatrix2D.hpp:4041-4555 | Every step keeps cells, fetched copies and DLT buffers at the values the sequential order prescribes |
| Factorization.FinalTaskReadsAcc | include/sympack/symPACKMatrix2D.hpp:4041-4320 | FACTOR(J) and TRSM(K,J) read A(K,J) after all its updates and have not run before |
| Factorization.NoLateWrite | include/sympack/symPACKMatrix2D.hpp:4397-4555 | No update writes a cell after its final task: while an update is ready the final task of its cell has not run |
| Factorization.UpdatesDone | include/sympack/symPACKMatrix2D.hpp:4397-4555 | When the final task of a cell is ready, exactly the updates that the structure prescribes for it have run |
| Factorization.InputsAreUpstream | include/sympack/symPACKMatrix2D.hpp:4397-4470 | Every input message of a task comes from a remote task upstream of it |
| Factorization.AssignFinds | include/sympack/symPACKMatrix2D.hpp:4420-4437 | Whatever the arrival order, the messages of an update provide its two source cells, in one order or the other |
| Factorization.UpdateOperands | include/sympack/symPACKMatrix2D.hpp:4420-4451 | After the exchange of wrongly ordered operands an update always reads pivot and facing cell with their final values |
| Factorization.UpdateRuns | include/sympack/symPACKMatrix2D.hpp:4457-4475 | An update changes its own cell only, by the scaled pivot and the facing cell of the reference |
| Factorization.GetSource | include/sympack/symPACKMatrix2D.hpp:346-400 | A one-sided get reads a cell whose final task has run |
| Factorization.AccDoneAll | include/sympack/symPACKMatrix2D.hpp:4457-4475 | Once all updates are done, in whatever order, the accumulated cell is that of the order I = 1, 2, ... |
| CellBlocks.BlocksCommute | include/sympack/symPACKMatrix2D.hpp:4457-4475 | Updates of a block, each the subtraction of a product in the places its rows and columns meet, commute: the law that schedule independence needs |
| ThreadLocks.WorkerPtrs.constructor | include/sympack/impl/Scheduler_impl.hpp:20-23 | A new mailbox is empty |
| ThreadLocks.WorkerPtrs.Set | include/sympack/impl/Scheduler_impl.hpp:29-37 | The two-slot mailbox is a queue of capacity two: set appends, or fails exactly when it is full |
| ThreadLocks.WorkerPtrs.Get | include/sympack/impl/Scheduler_impl.hpp:39-47 | get removes the oldest task, and returns nothing exactly when the mailbox is empty |
| ThreadLocks.StepKeepsInv | include/sympack/symPACKMatrix2D.hpp:6405-6490 | Each step of master or worker keeps: one holder per lock, delay lists without lost tasks, no lost wakeup, loads and free list in agreement, no task started before the tasks it waits for, no worker gone before the master has handed out every task |
| ThreadLocks.FreeHasRoom | include/sympack/symPACKMatrix2D.hpp:6287-6307 | A worker in the free list has an empty slot, so assignWork cannot fail |
| ThreadRuns.NoDeadlock | include/sympack/symPACKMatrix2D.hpp:6378-6515 | Until the master has stopped, all workers are gone and all completions have run, some step other than idle polling is enabled; a delayed task never waits for ever |
| ThreadRuns.StepCounts | include/sympack/symPACKMatrix2D.hpp:6405-6452 | Every step of a task brings the tasks nearer to their end, also when a completion lets a delayed task go on |
| ThreadRuns.StepRemaining | include/sympack/symPACKMatrix2D.hpp:6398-6490 | Every step other than idle polling brings the end nearer, and no step puts it off |
| ThreadRuns.EveryRun | include/sympack/symPACKMatrix2D.hpp:6378-6515 | In every run of master and workers: no two running tasks share a lock; apart from idle polling the number of steps is bounded in advance; nothing more can happen exactly when the master has stopped and all workers are gone; a task that is not finished then lies in the mailbox of a worker that has left, and with all tasks finished no lock is taken |
| ThreadRuns.AllRunsFinishIff | include/sympack/symPACKMatrix2D.hpp:6448-6515 | All runs that end finish all tasks exactly when a worker polls its mailbox once more after it has seen `done`, or there is no task; the workers of the code do not poll again |
| ThreadRuns.SomeRunLoses | include/sympack/symPACKMatrix2D.hpp:6448-6515 | Without that second poll some run, whatever the tasks, ends with a task in the mailbox of a worker that has left |
| ThreadRuns.OneTaskLost | include/sympack/symPACKMatrix2D.hpp:6448-6515 | Such a run, step by step, with one task and two workers |
| RankThreads.NoRaces | include/sympack/symPACKMatrix2D.hpp:6010-6035 | On the tasks of the factorization, LL or LDL, on the threads of any rank: two tasks that run at once, FACTOR and DLT tasks without lock included, neither write the same cell or scaled product nor read what the other writes |
| RankThreads.UpdatesPassed | include/sympack/symPACKMatrix2D.hpp:4041-4555 | When the final task of a cell starts, all updates of the cell have ended |
| RankThreads.ReadIsQuiet | include/sympack/symPACKMatrix2D.hpp:4041-4555 | Nobody writes what a running task reads |
| RankThreads.RankFinishesIff | include/sympack/symPACKMatrix2D.hpp:6448-6515 | The threads of a rank finish its tasks in every run that ends exactly when workers poll once more after `done`, or the rank owns no cell |
| Products.TrsmTargets | include/sympack/symPACKMatrix2D.hpp:3386-3420 | The targets that the construction files for TRSM(J,I) on a rank, in order: for each cell of the column, an update with pivot (J,I) and its DLT task, or an update that (J,I) faces, both where the two cells are one |
| Products.IncrementsFirst | include/sympack/symPACKMatrix2D.hpp:4294-4316 | While TRSM(J,I) tells its targets, the DLT task or any given update with that pivot is told at or after the last increment of the counter: no use lowers a counter that is still being raised |
| Products.CountPivots | include/sympack/symPACKMatrix2D.hpp:4289-4308 | The loop leaves in local_pivot the number of told updates whose pivot is the cell |
| Products.StartCount | include/sympack/symPACKMatrix2D.hpp:4289-4308 | The counter of a product starts at the number of updates of the rank with that pivot, and one more if the rank owns the diagonal cell of the row: its update is told twice |
| Products.ProductThere | include/sympack/symPACKMatrix2D.hpp:1737-1750 | A begun update that has not used its product yet finds it there and the counter positive; the TRSM and DLT tasks of the pivot have ended |
| Products.StepKeepsProducts | include/sympack/symPACKMatrix2D.hpp:1737-1755 | Every step of the threads and every use keeps: counter = start count less uses, product there from the end of its DLT task until the counter is zero |
| Products.GoneIff | include/sympack/symPACKMatrix2D.hpp:1748-1755 | After the DLT task a product is gone exactly when all updates of the rank with that pivot have used it and the rank does not own the diagonal cell of the row |
| Products.ProductsInEveryRun | include/sympack/symPACKMatrix2D.hpp:1737-1755 | In every run of the threads of a rank on LDL': a running update finds its product and a positive counter, and a running DLT task a positive counter and no product; a product is deleted exactly after its last update and only if the diagonal cell of its row is on another rank; the products left at the end are exactly those next to the diagonal cell of their row |
| ThreadedFactorization.EveryThreadedRun | include/sympack/symPACKMatrix2D.hpp:6308-6560 | Every run of all ranks with all their threads, bodies overlapping as locks and counters allow, has the data of a run of atomic tasks; a cell whose final task has ended holds its value in the sequential factor; when all tasks have ended, or nothing can go on and workers poll once more after `done`, the whole sequential factor is there |
| ThreadedFactorization.RunRefines | include/sympack/symPACKMatrix2D.hpp:4041-4555 | A run of the threads of all ranks is, on the data, the atomic run of its messages, gets and ends of bodies |
| ThreadedFactorization.StepRefines | include/sympack/symPACKMatrix2D.hpp:6378-6515 | Every step of a worker, a master or the network is one atomic step of the factorization or none, and keeps threads, scheduler and computed values in agreement |
| ThreadedFactorization.ReadsAnyTime | include/sympack/symPACKMatrix2D.hpp:4041-4555 | What a running task has computed from what it found at its start is what it would compute at any later moment before its end |
| ThreadedFactorization.CellFree | include/sympack/symPACKMatrix2D.hpp:6010-6035 | Two ready tasks of one cell, one of them an update, share the lock of the cell; the final task of a cell is never ready beside an update of it |
| ThreadedFactorization.ReadyArrives | include/sympack/symPACKMatrix2D.hpp:6308-6560 | A task whose counter has come down to zero can be taken over by the threads at once: its predecessors on the rank have ended |
| ThreadedFactorization.StandstillDone | include/sympack/symPACKMatrix2D.hpp:6492-6556 | When neither the network nor the threads of any rank can go on, the scheduler over all ranks has come to its end |
| ThreadRuns.SpuriousFailureStrands | include/sympack/symPACKMatrix2D.hpp:6010-6035 | Why compare-and-swap has to be strong: a task delayed although its lock is free stays delayed for ever once all others are done |
| EliminationTree.LabelsAreComponents | src/ETree.cpp:337-381 | Labelling by largest vertices is exactly the partition into connected components of the leading subgraph |
| EliminationTree.ComponentsOfLabels | src/ETree.cpp:337-381 | The labels built up vertex by vertex tell the components of every leading subgraph apart, each named by its largest vertex |
| EliminationTree.ETreeUnique | src/ETree.cpp:337-381 | A graph has one elimination tree: the least vertex above j reachable through vertices up to j is the parent |
| EliminationTree.NeighbourRoot | src/ETree.cpp:349-372 | The root of the tree of a neighbour of i has i as its parent |
| EliminationTree.LastRoot | src/ETree.cpp:375-381 | The roots left at the end have no parent |
| ETree.Climb | src/ETree.cpp:352-366 | The climb with path compression ends at the root of the tree and never changes which tree a vertex belongs to; it breaks off exactly when the tree already hangs below i |
| ETree.LinkNeighbour | src/ETree.cpp:349-372 | One entry of column i: its tree hangs below i afterwards, whether or not it did before |
| ETree.ProcessEntries | src/ETree.cpp:345-374 | After the entries of a column the trees of exactly the used entries hang below it |
| ETree.ProcessColumn | src/ETree.cpp:340-375 | After stage i the trees are the components of the graph on 1..i, rooted at their largest vertices, and all other parents are final |
| ETree.ConstructETree | src/ETree.cpp:333-395 | Liu's algorithm returns the elimination tree of the graph its columns show, and refuses a graph that is not expanded |
| ETree.RunRanks | src/ETree.cpp:252-304 | Handing the two arrays from rank to rank gives the elimination tree |
| ETree.ConstructETreeDistributed | src/ETree.cpp:229-330 | The pipelined version computes the same tree for any distribution of the columns |
| ETree.WholeGraph | src/ETree.cpp:345-348 | The test jstrt<jstop loses nothing exactly when no column consists of a single entry above the diagonal; a stored diagonal is enough |
| ETree.SkippedDiffers | src/ETree.cpp:345-348 | A skipped column makes the tree wrong |
| Ordering.Order.Compose | src/Ordering.cpp:1301-1314 | Composition moves every vertex on from its place, and perm stays the inverse of invp |
| Ordering.Order.Invert | src/Ordering.cpp:1307-1313 | The loop fills perm with the inverse of invp |
| Ordering.Order.GetRelativeInvp | src/Ordering.cpp:1289-1299 | The relative ordering leads from every old place to the new place |
| Ordering.MovedTwice | src/Ordering.cpp:1289-1299 | Permuting a graph by the old ordering and then by the relative one is permuting once by the new ordering |
| Ordering.ThenInverse | src/Ordering.cpp:1301-1314 | Inverses compose in the opposite order |
| Relabelling.LabelIsAncestor | src/ETree.cpp:337-381 | The root of the tree of v at any stage is an ancestor of v in the final tree |
| Relabelling.FillIsAncestor | src/ETree.cpp:337-381 | The rows of the nonzeros of a factor column are ancestors of the column |
| Relabelling.SameFill | src/ETree.cpp:88-103 | Renumbering along the tree keeps the fill, entry by entry |
| Relabelling.RelabelledTree | src/ETree.cpp:88-103 | The elimination tree of the renumbered graph is the renumbered tree |
| Postorder.LinkChildren | src/ETree.cpp:64-80 | First sons and brothers list every vertex below its parent, and the roots from the last vertex on |
| Postorder.Descend | src/ETree.cpp:32-40 | Going down to a leaf, the stack holds the ancestors and never overflows |
| Postorder.Ascend | src/ETree.cpp:41-54 | Going up, every popped vertex gets the next number, until one has a brother or the stack is empty |
| Postorder.BTreeToPO | src/ETree.cpp:24-56 | The traversal numbers the vertices by the recursive postorder of the linked forest; invpos is a permutation |
| Postorder.TraversalIsPostorder | src/ETree.cpp:24-56 | Those numbers give every subtree a contiguous interval that ends at its root, and keep children before parents |
| Postorder.PostMember | src/ETree.cpp:24-56 | The postorder of a list of trees holds exactly the vertices below their roots |
| Postorder.PostDistinct | src/ETree.cpp:24-56 | No vertex is visited twice |
| Postorder.RelabelledPostordered | src/ETree.cpp:88-103 | A forest relabelled by a postorder has parents above children and contiguous subtrees |
| Postorder.LinkByCount | src/ETree.cpp:127-157 | The reordering links the same children and puts one with the least count last |
| Postorder.LeastChildrenLast | src/ETree.cpp:127-221 | After the relabelling the vertex right before every parent is a child that no sibling undercuts |
| PostOrderTree.RelabelParents | src/ETree.cpp:93-100 | Both the vertices and their parents are renumbered |
| PostOrderTree.ETree.constructor | src/ETree.cpp:333-336 | The tree after its construction is not postordered yet |
| PostOrderTree.ETree.PostOrderTree | src/ETree.cpp:59-117 | The parents are renumbered by a postorder of the forest and the ordering is composed with it; a second call changes nothing |
| PostOrderTree.ETree.Resort | src/ETree.cpp:127-225 | A second postorder by counts renumbers parents, ordering and counts alike |
| PostOrderTree.ETree.SortChildren | src/ETree.cpp:122-225 | Postorder first if needed, then by counts: whether or not it was postordered before, one renumbering relates the forest and the ordering to those at the start; counts move along with the second step, a least child comes last |
| PostOrderTree.PermuteCounts | src/ETree.cpp:213-221 | The counts move with their vertices |
| PostOrderTree.PostorderedTree | src/ETree.cpp:88-103 | Why the tree is never computed again: the relabelled parents are the elimination tree of the graph under the composed ordering, with the same fill |
| Preprocessing.OrderedTree | include/sympack/symPACKMatrix2D.hpp:2383-2404 | Construction, postorder and composition together leave the postordered elimination tree of the graph under the new ordering |
| Preprocessing.SortedTree | include/sympack/symPACKMatrix2D.hpp:2440-2449 | Ordering the children by counts keeps this |
| Preprocessing.SeenTree | include/sympack/symPACKMatrix2D.hpp:2432-2438 | With both triangles and the diagonal stored, the tree of the columns is the tree of the graph |
| SupernodalTree.ToSupernodalETree | src/ETree.cpp:400-426 | The parent of a supernode is the supernode of the parent of its last column; supernodes come before their parents |
| SupernodalTree.SupernodalQuotient | src/ETree.cpp:408-418 | If the columns of each supernode form a chain, supernode t lies above s exactly when the last column of t lies above the last column of s |
| Ldl.Potf2_LDL | include/sympack/lapack.hpp:302-390 | For both triangles: INFO is 0, an illegal-argument code, or the first zero pivot, and the array is the factor or the state at that pivot |
| Ldl.FactorRows | include/sympack/lapack.hpp:328-390 | Row after row the stored triangle becomes the factor, up to the first zero pivot |
| Ldl.IsFactorization | include/sympack/lapack.hpp:328-390 | The stored triangle is a unit U and D with A(i,j) equal to the sum of U(k,i) D(k) U(k,j) |
| Ldl.FactorsUnique | include/sympack/lapack.hpp:328-390 | Any unit triangular u with nonzero d and u'du = a is the computed one |
| Ldl.SchurPivot | include/sympack/lapack.hpp:546-564 | Factoring what is left after earlier pivots gives the pivots of the whole matrix |
| Ldl.DoneIs | include/sympack/lapack.hpp:558-564 | Factoring an updated diagonal block yields the rows of the whole factorization |
| Ldl.Gemm | include/sympack/lapack.hpp:552-569 | The block product subtracts from every entry the products of the earlier rows |
| Ldl.Trsm | include/sympack/lapack.hpp:565-570 | The triangular solve leaves D(k) U(k,j) in the block row |
| Ldl.FactorBlocks | include/sympack/lapack.hpp:546-609 | Block after block, with the minor of a failing block shifted, the result is the blocked form of the factor |
| Ldl.Potrf_LDL | include/sympack/lapack.hpp:526-612 | For both triangles and any N: the same INFO as the unblocked routine, and the blocked result |
| Ldl.BlockedRefinesUnblocked | include/sympack/lapack.hpp:526-612 | Same triangle when no pivot is zero; with a zero pivot, entry by entry the exact condition under which both routines leave the same value, which includes every column up to that pivot |
| Ldl.SameTriangleIff | include/sympack/lapack.hpp:526-612 | All matrices of order n whose first zero pivot is p leave the same triangle behind both routines exactly when p is harmless: p begins its block or the block ends the matrix, and the block is the first or p ends it; without zero pivot always |
| Ldl.RowParting | include/sympack/lapack.hpp:565-570 | A row of the block before p and a column after the block: a matrix on which the routines part |
| Ldl.BlockParting | include/sympack/lapack.hpp:552-564 | A row before the block and a column of the block after p: a matrix on which they part |
| Ldl.FailureDiffers | include/sympack/lapack.hpp:526-612 | A matrix with a zero pivot on which the two routines leave different triangles |
| Cells.BlockCell.AddBlock | include/sympack/symPACKMatrix2D.hpp:796-804 | add_block appends a run of rows; descriptors and stored rows stay in step |
| Cells.BlockCell.BlockRows | include/sympack/symPACKMatrix2D.hpp:781-793 | The number of rows of a block is the distance of its offset to the next |
| Cells.BlockCell.FindBlock | include/sympack/symPACKMatrix2D.hpp:965-973 | The upward search finds the block that stores a row, and its place in it |
| Cells.BlockCell.FindLastBlock | include/sympack/symPACKMatrix2D.hpp:975-980 | The downward search finds the block that stores a row |
| Cells.InPlaceTest | include/sympack/symPACKMatrix2D.hpp:959-999 | If the test succeeds the facing rows lie one after the other in the target and the offset is that of the first entry |
| Cells.RunsMatch | include/sympack/symPACKMatrix2D.hpp:981-998 | Equal runs, cut to the updated range, mean equal consecutive rows |
| Cells.InPlacePlan | include/sympack/symPACKMatrix2D.hpp:959-1030 | Then row k, column p of the product belongs to the place offset + k*width + p |
| Cells.MapRows | include/sympack/symPACKMatrix2D.hpp:1035-1068 | The single pass with a forward moving block pointer gives for every facing row the offset a plain search gives |
| Cells.MapColumns | include/sympack/symPACKMatrix2D.hpp:1070-1079 | The column list holds the pivot rows |
| Cells.PlanInjective | include/sympack/symPACKMatrix2D.hpp:1086-1109 | No two entries of an update go to the same place |
| Cells.ProductInPlace | include/sympack/symPACKMatrix2D.hpp:1000-1030 | GEMM or SYRK straight into the target adds each product once, in its place |
| Cells.Scatter | include/sympack/symPACKMatrix2D.hpp:1099-1109 | The assembly adds each buffer entry once, in its place |
| Cells.ScatterRun | include/sympack/symPACKMatrix2D.hpp:1089-1098 | The assembly of consecutive columns does the same |
| Cells.Update | include/sympack/symPACKMatrix2D.hpp:959-1111 | Whichever way is taken, every referenced entry that a facing and a pivot row meet in changes by their product and nothing outside those entries changes |
| CellBlocks.UpdateBlock | include/sympack/symPACKMatrix2D.hpp:959-1111 | The update of a cell, in place or through the buffer, is the update of its block of referenced entries, diagonal cells included |
| CellLists.Encode | include/sympack/symPACKMatrix2D.hpp:2769-2849 | The descriptors of a supernode list its rows in runs, cell by cell, each cell inside one supernode |
| CellLists.BuildCell | include/sympack/symPACKMatrix2D.hpp:3246-3306 | A cell built from its descriptor has those rows, and its declared capacity is exactly filled |
| CellLists.Decode | include/sympack/symPACKMatrix2D.hpp:3243-3306 | From the descriptors of any number of supernodes, every cell that the rank owns is built, the runs of the others are passed over, and every owner is kept |
| CellLists.SendAndBuild | include/sympack/symPACKMatrix2D.hpp:2769-3306 | Round trip for any distribution of the supernodes and any owners: a rank builds exactly the cells it owns, and the cells of every supernode list its rows exactly, in order |
| CellLists.SlotsInjective | include/sympack/symPACKMatrix2D.hpp:5954-5978 | Different (row, column) have different places inside the cell |
| CellLists.StoreEntry | include/sympack/symPACKMatrix2D.hpp:5940-5978 | The search finds a row exactly when the cell has it and stores at its place only |
| CellLists.StoreEntries | include/sympack/symPACKMatrix2D.hpp:5925-5978 | After any order of stores every entry is found at its place |
| SolveProtocol.StepKeepsInv | include/sympack/symPACKMatrix2D.hpp:5160-5695 | Each step of the solve scheduler keeps counters, coalesced messages and buffer counters in agreement |
| SolveProtocol.CounterZero | include/sympack/symPACKMatrix2D.hpp:5309-5392 | Lowering in_avail_counter by the number of sources and in_counter by one less keeps both nonnegative; they reach zero exactly when everything has come in |
| SolveProtocol.BufferHeld | include/sympack/symPACKMatrix2D.hpp:1946-1960 | The counter of a buffer is positive while a message is under way or its data has not been fetched |
| SolveProtocol.BufferFree | include/sympack/symPACKMatrix2D.hpp:1946-1960 | The counter is zero exactly when no message needs the buffer any more |
| SolveProtocol.EveryRun | include/sympack/symPACKMatrix2D.hpp:5160-5695 | Every run of the solve: no negative counter, each task once and after its predecessors, bounded, and at the end all tasks have run and all buffers are free |
| SolveGraph.NetWellFormed | include/sympack/symPACKMatrix2D.hpp:4593-4677 | The tasks, messages and buffers of the two solves form a valid net |
| SolveGraph.NetPreds | include/sympack/symPACKMatrix2D.hpp:4850-5095 | Local lists and coalesced messages together stand for exactly the edges of the solve graph |
| SolveGraph.NetRanked | include/sympack/symPACKMatrix2D.hpp:4593-4677 | Forward tasks climb the tree, backward tasks descend after them: no cycle |
| SolveGraph.RemoteCount | include/sympack/symPACKMatrix2D.hpp:4850-5095 | The messages of a task account for its remote predecessors, each once; the counters start at the numbers of predecessors |
| SolveGraph.ForwardFirst | include/sympack/symPACKMatrix2D.hpp:4593-4677 | FUC(I,I) runs before BUC(I,I) for every supernode, through the root of its tree |
| SolveGraph.ColumnForwardFirst | include/sympack/symPACKMatrix2D.hpp:4593-4677 | With a fill-closed structure every forward task of a column runs before every backward task of the column |
| SolveGraph.BackwardFindsQuiet | include/sympack/symPACKMatrix2D.hpp:5577-5620 | When a backward task writes into the buffer of a slot, every forward message has been fetched from it: a buffer is never filled anew under a get |
| SolveGraph.EverySolveRun | include/sympack/symPACKMatrix2D.hpp:5160-5695 | Every run of both solves: all edges respected, FUC(I,I) before BUC(I,I), and no contribution buffer free while its message still has to be fetched, and at the end every task done and every buffer released |
| SolveValues.EverySolveRunSolves | include/sympack/symPACKMatrix2D.hpp:5184-5695 | In every run of the solve phase, any distribution, order of tasks, messages and gets: a block solved forward and not yet touched backward is that of forward substitution, a block solved backward is that of backward substitution for good, and a run that cannot go on has solved every block |
| SolveValues.StepKeepsGood | include/sympack/symPACKMatrix2D.hpp:5184-5695 | Every step, freed and refilled contribution buffers included, keeps slots, fetched copies and scaling flags as the substitution prescribes |
| SolveValues.TaskResult | include/sympack/symPACKMatrix2D.hpp:5184-5620 | Whatever FUC or BUC task runs, its slot holds afterwards the value or the partial sum that its place in the substitution says |
| SolveValues.LandReads | include/sympack/symPACKMatrix2D.hpp:5240-5270 | A get that completes brings what its message stands for, whenever it completes |
| SolveValues.WholeSum | include/sympack/symPACKMatrix2D.hpp:5174-5212 | The contributions made on the rank of the diagonal and the coalesced messages add up to the whole row, or column, each cell once |
| SolveValues.ScaledIs | include/sympack/symPACKMatrix2D.hpp:5458-5480 | The block of the diagonal rank is scaled by D once, before the first backward contribution |
| SolveValues.FreedUnneeded | include/sympack/symPACKMatrix2D.hpp:1946-1960 | A buffer whose counter has come down to zero is not needed any more |
| SolveValues.RealsSolve | include/sympack/symPACKMatrix2D.hpp:5184-5695 | With blocks of one entry, nonzero diagonal and D: the results satisfy L y = b and D L' x = y row by row |
| SolveValues.EverySolveRunSolvesReals | include/sympack/symPACKMatrix2D.hpp:5184-5695 | A run over reals that cannot go on, blocks of one entry, diagonal and D nonzero: the slot of (I,I) holds the solution, which satisfies L y = b and D L' x = y row by row |
| Segments.PartialSums | src/DistSparseMatrixGraph.cpp:207-209 | The partial sums of the counts, shifted by the base |
| Segments.BucketsLength | src/DistSparseMatrixGraph.cpp:548-555 | The parts for all destinations together hold every element |
| Segments.ReceivedInOrder | src/DistSparseMatrixGraph.cpp:586-600 | What a rank receives from all ranks, in rank order, is its part of all lists put one after the other |
| Segments.ExchangeOfBuckets | src/DistSparseMatrixGraph.cpp:548-600 | Packing by destination on every rank and exchanging delivers to a rank exactly its part of everything sent |
| DistMatrix.FindRank | src/DistSparseMatrixGraph.cpp:531 | The search over the distribution finds the first range that holds the column, the last place if there is none |
| DistMatrix.OwnerUnique | src/DistSparseMatrixGraph.cpp:531 | That is the one rank whose range holds it |
| DistMatrix.CountPass | src/DistSparseMatrixGraph.cpp:524-548 | The count pass gives the number of entries for every rank |
| DistMatrix.Pack | src/DistSparseMatrixGraph.cpp:557-581 | The packing pass takes the same branches, so every write stays in the part of its rank, and the parts list the entries in storage order |
| Assembly.CopyBackward | src/DistSparseMatrixGraph.cpp:1040-1044 | A backward copy within the buffer moves a range to a place further back, overlap or not |
| Assembly.ShiftColumns | src/DistSparseMatrixGraph.cpp:1040-1044 | Shifting the last column first moves every column to the end of its new room without losing an entry, values with rows |
| Assembly.Unpack | src/DistSparseMatrixGraph.cpp:1053-1062 | Arrivals are laid down in front of the old column, last one first |
| Assembly.Grow | include/sympack/impl/DistSparseMatrix_impl.hpp:447-498 | Lengths, new pointers, shift and unpacking together: every column is its arrivals reversed followed by the old column, values with rows |
| Assembly.Assemble | src/DistSparseMatrixGraph.cpp:605-628 | Counting and placing builds every column from its arrivals in order |
| Expansion.DistributedExpansion | src/DistSparseMatrixGraph.cpp:948-1073 | For any number of ranks and any distribution the expanded columns side by side are those of one rank |
| Expansion.ExpandedValues | src/DistSparseMatrixGraph.cpp:186-296 | From lower storage each (r,c) below the diagonal gains exactly one (c,r), the rest is kept: position by position, with multiplicities |
| Expansion.ExpandedSymmetric | src/DistSparseMatrixGraph.cpp:186-296 | The expanded matrix is symmetric |
| Expansion.RoundTrip | src/DistSparseMatrixGraph.cpp:1086-1134 | Dropping the upper triangle of the expanded columns restores the lower storage entry by entry |
| Restriction.Restrict | src/DistSparseMatrixGraph.cpp:1094-1128 | Pointers and values follow keepDiag, the row indices do not |
| Restriction.RestrictConsistent | src/DistSparseMatrixGraph.cpp:1094-1128 | The pointers fit the row indices exactly when the diagonal is kept or none is stored |
| Restriction.StoredDiagonal | src/DistSparseMatrixGraph.cpp:1094-1128 | One column with a diagonal that is not kept: one row index, and pointers that say none |
| Diagonal.RemoveDiagonal | src/DistSparseMatrixGraph.cpp:445-464 | The compaction in place leaves every column without its diagonal entries, in order |
| Diagonal.InsertDiagonal | src/DistSparseMatrixGraph.cpp:412-443 | Inserting the diagonal fills the new buffer exactly when none was stored; then every column has it in front of the first larger row |
| Diagonal.DiagonalTwice | src/DistSparseMatrixGraph.cpp:412-443 | One column that holds its diagonal already: two slots, one of them written |
| Diagonal.InsertThenRemove | src/DistSparseMatrixGraph.cpp:410-467 | Inserting and removing the diagonal restores a column without diagonal |
| Diagonal.RemoveThenInsert | src/DistSparseMatrixGraph.cpp:410-467 | Removing a stored diagonal and inserting it again restores a sorted column |
| Sorting.SortPermutation | include/sympack/utility.hpp:921-931 | The result permutes the indices and orders the rows |
| Sorting.AppliedMultiset | include/sympack/utility.hpp:970-979 | Applying a permutation of the indices rearranges the elements |
| Sorting.SortColumns | include/sympack/impl/DistSparseMatrix_impl.hpp:289-307 | Every column becomes a sorted rearrangement of itself, values staying with their rows |
| Sorting.SortedRoundTrip | include/sympack/impl/DistSparseMatrix_impl.hpp:310-340 | Strictly sorted lower storage survives expansion, sorting and restriction |
| Sorting.ExpandedSorted | src/DistSparseMatrixGraph.cpp:1053-1080 | Without sorting, an expanded column of sorted lower storage is sorted exactly when at most one earlier column stores its row |
| Sorting.UnsortedExpansion | src/DistSparseMatrixGraph.cpp:1053-1080 | Sorted lower storage of three columns whose expansion is not sorted |
| Ranks.LocalMatrix.ReceiveMirrors | src/DistSparseMatrixGraph.cpp:1015-1073 | A rank that takes in its mirror images holds its expanded columns in valid storage |
| Ranks.LocalMatrix.ToLowerTriangular | include/sympack/impl/DistSparseMatrix_impl.hpp:310-340 | Restriction in place; the storage is broken exactly when a diagonal entry is stored but not kept |
| Ranks.ExpandSymmetric | include/sympack/impl/DistSparseMatrix_impl.hpp:343-505 | All ranks together: expanded storage is left alone, otherwise the result is the one-rank expansion, sorted again as the flags say |
| Ranks.Permute | include/sympack/impl/DistSparseMatrix_impl.hpp:126-286 | All ranks together, any old and new distribution: the result is the one-rank permutation, sorted if it was sorted |
| Permutation.DistributedPermutation | src/DistSparseMatrixGraph.cpp:510-638 | Neither the old nor the new distribution changes the permuted columns |
| Permutation.PermutedPair | src/DistSparseMatrixGraph.cpp:557-581 | From lower storage every pair keeps exactly its values and lands on or below the diagonal; only an unkept diagonal is dropped |
| Permutation.PermutedPosition | src/DistSparseMatrixGraph.cpp:557-581 | From expanded storage every position keeps exactly its values |
| Permutation.PermutedLower | src/DistSparseMatrixGraph.cpp:557-581 | Lower orientation is kept |
| Permutation.PermutedTwice | src/Ordering.cpp:1289-1299 | Permuting by the old invp and then by the relative one equals permuting once by the new invp, value by value, for lower and for expanded storage, with and without diagonal |
| Gathering.AllGatherStructure | src/DistSparseMatrixGraph.cpp:1141-1209 | Pointers put side by side and shifted by the edges of the ranks before represent the columns of all ranks in order |
| Gathering.PermuteAndGather | src/DistSparseMatrixGraph.cpp:510-1209 | Permuting a sorted distributed graph and gathering it gives the sorted permuted graph |
| Gathering.GatheredOnce | src/DistSparseMatrixGraph.cpp:510-1209 | That result is one and the same for all rank counts and distributions |
| LoadBalancer.MinElement | include/sympack/LoadBalancer.hpp:52-54 | The first least loaded processor |
| LoadBalancer.WorkMap | include/sympack/LoadBalancer.hpp:70-92 | Every supernode goes to the first processor with the least load so far, and when panels are at least as high as wide np times any load is at most the total plus np-1 times the largest job |
| LoadBalancer.NnzMap | include/sympack/LoadBalancer.hpp:48-66 | The same for panel sizes |
| LoadBalancer.CostNonNegative | include/sympack/utility.hpp:105 | The Cholesky cost is not negative for height >= width >= 1, and zero only for a single entry |
| Subcubes.SubTreeLoads | include/sympack/LoadBalancer.hpp:276-280 | One sweep makes every entry the load of its subtree and entry 0 the sum of all node loads |
| Subcubes.Slice | include/sympack/LoadBalancer.hpp:328-333 | A share is between one processor and what is left, and as asked for when that fits |
| Subcubes.SubtreeToSubcube.Split | include/sympack/LoadBalancer.hpp:314-365 | Every group is a nonempty contiguous slice of the parent's group, whatever npIdeal is |
| Subcubes.GroupRange | include/sympack/LoadBalancer.hpp:314-365 | Every group is a contiguous range of processors |
| Subcubes.SiblingSlices | include/sympack/LoadBalancer.hpp:329-340 | Slices of siblings are disjoint, except that the last processor is shared when the group is used up |
| Subcubes.SubtreeToSubcube.ChooseWorker | include/sympack/LoadBalancer.hpp:370-381 | The worker is in the group and has the least load of the group |
| Subcubes.SubtreeToSubcube.GetMap | include/sympack/LoadBalancer.hpp:314-412 | Every supernode gets a processor of its group that had the least load of the group at that moment; later calls return the same map |
| Subcubes.SubtreeToSubcubes | include/sympack/LoadBalancer.hpp:314-412 | All supernodes of a subtree are worked on by processors of its root's group |
| Alltoallv.GcdDivides | include/sympack/utility.hpp:86-91 | A number divides gcd(a,b) exactly when it divides both |
| Alltoallv.FindGCD | include/sympack/utility.hpp:94-101 | The divisors of the result are exactly the common divisors of the array |
| Alltoallv.NeedSplit | include/sympack/mpi_interf.hpp:88-105 | The tests on single counts and on all partial sums amount to one on the total |
| Alltoallv.BestUnit | include/sympack/mpi_interf.hpp:115-157 | If any common block size fits, the greatest common divisor does |
| Alltoallv.UnitPositive | include/sympack/mpi_interf.hpp:115-134 | When some rank has too much to send, the divisor is not zero |
| Alltoallv.ChooseUnit | include/sympack/mpi_interf.hpp:88-161 | The ranks get stuck exactly when no common block size fits, and use single elements whenever those fit |
| Alltoallv.ReceiveBlocks | include/sympack/mpi_interf.hpp:169-193 | The exchange in blocks delivers the elements that an exchange of single elements delivers |
| Alltoallv.ReceiveCounts | include/sympack/mpi_interf.hpp:179-196 | The counts returned are the transpose of the counts sent |
| Alltoallv.ReceiveDispls | include/sympack/mpi_interf.hpp:182-199 | The displacements returned are the partial sums of the counts received, when no sum of blocks wraps |
| Alltoallv.IntSums | include/sympack/mpi_interf.hpp:172-186 | Partial sums over ints are the partial sums wrapped to 32 bits |
| Alltoallv.ExactIff | include/sympack/mpi_interf.hpp:163-199 | What all ranks hand to MPI names the right bytes and places exactly when the size of a block and the blocks that each rank receives fit into an int |
| Alltoallv.ArrivalsOverflow | include/sympack/mpi_interf.hpp:182-186 | Three ranks that send 2^30 elements each to one: the send side fits and the receive displacements wrap |
| Alltoallv.BlockOverflows | include/sympack/mpi_interf.hpp:166-169 | A block of 2^32 bytes fits the tests and its size wraps to zero |
| Alltoallv.GatheredIsExchange | include/sympack/mpi_interf.hpp:63-203 | For packed buffers this is the plain all-to-all |
| Alltoallv.PackedExactly | include/sympack/mpi_interf.hpp:172-193 | The displacements handed in are respected for every content of the buffer exactly when nothing is sent or they are the partial sums |
| Alltoallv.DisplsIgnored | include/sympack/mpi_interf.hpp:172-193 | Such an input, with counts, displacements and buffer: what arrives is not what the displacements name |
| Alltoallv.Exchange | include/sympack/mpi_interf.hpp:63-203 | Over all ranks: an error exactly for a negative count or displacement, stuck exactly when no block size fits, the plain exchange with transposed counts exactly when block size and arrivals also fit into ints, otherwise a call with wrapped ints that is not exact |

## Left out

- Factorization.ScheduleIndependence: the blocks are abstract, so that two updates of one cell may be exchanged is a requirement; `CellBlocks.BlocksCommute` meets it for blocks of reals.
- CellBlocks.UpdateBlock: a diagonal cell is updated by one cell with itself; that the LDL case multiplies with the scaled copy of that cell is not part of the in-place test.
- RankThreads.NoRaces: copies fetched from other ranks are private to their readers, and the input of other ranks may arrive at any moment; the deletion of a product by its last update is not among what a task writes: `Products.ProductsInEveryRun` shows that no update still needs it then.
- RankThreads.ReadIsQuiet: leaves out the same deletion.
- The final sort of the local cells by column and row.
- ETree.ConstructETree: states the tree of the graph that the columns show; `ETree.WholeGraph` says when that is the whole graph.
- Subcubes.SubtreeToSubcube.GetMap: node loads and the rounded shares are inputs, because the cost of updating ancestors needs the symbolic structure.
- MPI, UPC++, personas, futures, timers, allocation and file input: replaced by steps, sequences and values.
- Rounding errors, and the BLAS and LAPACK routines other than by their mathematical meaning.
- External orderings (MMD, AMD, RCM, METIS, SCOTCH) and the USER branch: any pair of mutually inverse permutations is taken.
- Column counts, symbolic factorization and the supernode partition: their result enters as the structure `anc`, `sup` or `xsuper`.
- Priorities of the two queues: the queues are multisets, so no order among ready tasks is promised.
- Products.ProductsInEveryRun: speaks of one rank; what updates on other ranks compute with, their own buffer, is not counted.
- ThreadedFactorization.EveryThreadedRun: a task reads what it computes from when a worker starts it and writes when its body ends; `ThreadedFactorization.ReadsAnyTime` makes the moment of reading irrelevant, a write is one step.
- The task-creation loop on the receiving rank is modelled on values: `TasksCreatedOnce` speaks about the list of tasks, not about the vector that stores them.
- The optional relinvp output of `PostOrderTree`; `Ordering.Order.GetRelativeInvp` models the function that yields it.
- `SortChildren` on an empty tree, which writes in front of its brother array: n > 0 is required.
- The early return of the value-carrying `Permute` when the matrix is already permuted, and the cached `cinvp`.
- The `nnz` fields of graphs and matrices, which are not kept consistent by the distributed expansion.
- SolveValues.EverySolveRunSolves: addition of contributions, solves and products are operations with the laws of addition only; `SolveValues.RealsSolve` adds what they mean for blocks of one entry.  Tasks of the solve are atomic, so its locks are not modelled.
- The copy of the right-hand side into rows and of the solution back; buffers left from an earlier solve.
- The increments of the update counters in the solve are atomic steps, and the procedure calls that follow a message are part of its arrival.
- In the solve graph the send and receive sides of a dependency are taken from the same edge, unlike in the factorization, where both streams are modelled.
- The two other subcube balancers, which repeat the splitting loop of `SubtreeToSubcube`.
- `GatherStructure`, which does on one rank what `AllGatherStructure` does on all.
- `DisjointSet`: its find re-roots the grandparent, so it is not a union-find structure on deep chains.
- `RedistributeSupernodal`, `Alltoallv2`, `Mapping`, `IncomingMessage`, the 1D solver and its supernodes.
- ThreadRuns.EveryRun: idle polling may go on for any time, so termination is stated by the steps that lead on.
- Sizes that the fused exchange cannot fit make the ranks wait in a debugger loop; the model only reports `Stuck`.
- When one rank returns the error for negative counts the others wait in a collective call; the model reports `Invalid` for the exchange as a whole.
