# EvCache: verified models of its algorithms

This project models the algorithmic core of EvCache in Dafny and proves what it promises. Each module
follows one piece of the repository:

- **vCPU topology** (`LatencyClosure`, `TopologyProbe`, `VcpuPairs`, `LargestPairing`, `MissedPair`): the in-place closure of
  the matrix of latency classes, the probing that fills it, the socket, pair and core ids read off it, the choice of
  vCPU pairs, and how many pairs that choice has against the most possible. The measured latency is an arbitrary function of the pair, so every result holds for every machine.
- **Eviction sets** (`CacheLines`, `EvictionSearch`, `MissBudget`, `EvictionSetBuild`): pruning and the binary search with
  backtracking and migration. The eviction test is an oracle. Some results hold for any answers, others for the
  ideal oracle: "at least as many listed lines as the cache has ways are in the target's set".
- **Queues** (`MinHeap`, `Atq`): the array heap and the task queue over it, for whole runs.
- **CPU tree** (`Bitmap`, `CpuTree`, `CpuTreeIter`): the tree of CPU masks, its lookup and its resumable iterator.
- **Index allocator** (`RadixTree`, `RadixAllocator`): the radix tree of bitmaps, against a plain set of live
  indices. Pointers are indices into a sequence of descriptors. The number of levels and the fanout are parameters.
- **Load arithmetic** (`LoadSums`, `DomainRecords`, `InfeasibleWeights`, `LoadAggregator`, `RunningAverage`): the
  infeasible-weight adjustment, every sum traced back to the records it comes from, and the running average, over exact reals with the source's tolerance and tables.
- **Protocols** (`HelperProtocol`, `HottestColor`): the handshake with the helper thread as an interleaved
  transition system, and the three-round hysteresis of the hottest colour.
- `Common` holds what several modules use.

Code that updates arrays, fields or maps in place is a class or a method with loops, proved equal to a function of
the old contents. Lemmas then state what that function achieves. `dafny verify dfyconfig.toml` checks everything.

## Where the code differs from what is written about it

- Probing (vm_tools/vtop.c:579-658): after the grouping no entry of the matrix is unknown, so the parallel probing
  of the remaining pairs never measures anything (`TopologyProbe.Probe.PerformProbing`). Threads of one core that is
  not the core of the socket's first vCPU are therefore reported as separate cores: `TopologyProbe.DetectTwoCores`
  shows a machine, and `TopologyProbe.InferredClassIsExactIff` says exactly which pairs are affected.
- The pairing (src/evset_para.c:151-194) announces as many pairs as possible. It forms them by a walk over the socket's
  vCPUs in order, one up for a vCPU on the first one's core and one down for another. With m the depth the walk reaches
  and e its end, it has the most pairs possible if and only if on every socket m < 2 or e + 2 * (m / 2) < 2, on every
  topology the detection reports (`LargestPairing.PairDetected`). `MissedPair.AnotherPairExists` shows a machine with
  three pairs of which two are formed. It always forms at least half as many as possible (`LargestPairing.AtLeastHalf`).
- `record_dom_load` (scx/rust/scx_utils/src/infeasible.rs:342-344) refuses a second value for a domain and weight,
  but has already overwritten the first one. `LoadAggregator.Aggregator.RecordDomLoad` states exactly when the
  aggregator is still consistent.
- The ledger's vectors are documented as indexed by domain id (scx/rust/scx_utils/src/infeasible.rs:229-238). They list
  the domains in the order of their ids (`LoadAggregator.Aggregator.Calculate`), so a position is an id if and only if no
  id reaches the number of domains (`DomainRecords.IndexedByIdIff`); `LoadAggregator.LoneDomainStandsFirst` is an input
  for which it is not.
- The comment in `adjust_infeas_weights` (scx/rust/scx_utils/src/infeasible.rs:441-443) says a threshold is always
  found. `InfeasibleWeights.HalfUsedCpuHasNoThreshold` is an input without one. `LoadAggregator.FindThreshold` and
  `LoadAggregator.Aggregator.Calculate` give the exact condition, and it holds whenever the duty cycles sum to at
  least the number of CPUs.
- Pruning (src/evset.c:613-634) keeps the lines of every set that is overfull in the list, not only the target's.
  `EvictionSearch.PruningIsExactIff` gives the exact condition and `EvictionSearch.PruningKeepsARival` an input.
- With slack above 1, `build_evset_zhao` may return fewer lines than the cache has ways although enough exist:
  `EvictionSetBuild.SlackLosesALine` is such an input. `EvictionSetBuild.BuildEvsetZhao` says by the number of lines
  of the target's set when the returned set is complete.
- Releasing an index that is not live is refused if its leaf chunk does not exist, and leaves a wrong count if it does
  (`RadixAllocator.Allocator.FreeIdx` has the exact condition, `RadixAllocator.FreeOfFreeBreaks` an input).
- A command with an argument block can be sent without a helper and then waits forever (`HelperProtocol.BlockCommandHangs`).
- The 32-bit count of elapsed half-lives of the running average wraps: `RunningAverage.ReadIsExactIff` and
  `RunningAverage.ReadIsBoundedIff` say when reads are right and when they are bounded.
- Insertion into a fifo queue keeps arrival order until the 64-bit counter wraps (`Atq.Queue.Insert` has the exact
  condition, `Atq.WrapReorders` an input).

## Model

| member | source | states |
|---|---|---|
| LatencyClosure.ClosureIsMinimax | vm_tools/vtop.c:404-420 | a closed entry is at most v exactly when some path of the initial graph joins the pair using only classes up to v |
| LatencyClosure.ClosureUnknown | vm_tools/vtop.c:404-420 | an entry stays 0 exactly when no path joins the pair |
| LatencyClosure.ClosureIsUltrametric | vm_tools/vtop.c:404-420 | the closure is symmetric with diagonal 1, and a known entry is at most the larger of the two entries over any third vCPU |
| LatencyClosure.ClosureIdempotent | vm_tools/vtop.c:404-420 | a second run changes nothing |
| LatencyClosure.ClosureIsLargest | vm_tools/vtop.c:404-420 | every closed matrix that links what the initial one links also links what the closure links |
| LatencyClosure.RoundsInvariant | vm_tools/vtop.c:404-420 | after k rounds the matrix is still a class matrix and is closed over the first k vCPUs |
| LatencyClosure.RoundsSound | vm_tools/vtop.c:404-420 | every link present after k rounds is a path of the initial graph |
| TopologyProbe.ClassGrowsWithLatency | vm_tools/vtop.c:204-218 | readings from 0 to 90000 are classed in the order of their size, class 2 below 2000, class 3 below 8500 and class 4 from there on; exactly the others, negative ones included, are class 1 |
| TopologyProbe.Probe.constructor | vm_tools/vtop.c:774-799 | the matrix starts with 1 on the diagonal and everything else unknown |
| TopologyProbe.Probe.SetLatencyPair | vm_tools/vtop.c:363-367 | exactly the pair and its mirror image change |
| TopologyProbe.Probe.ApplyOptimization | vm_tools/vtop.c:404-420 | the in-place triple loop with mirrored writes ends in the closure of the matrix it started from |
| TopologyProbe.Probe.ApplyRound | vm_tools/vtop.c:404-420 | writes of a round do not disturb what the round still has to read |
| TopologyProbe.Probe.RelaxRow | vm_tools/vtop.c:404-420 | one row of a round, with its mirrored column, given the rows before it |
| TopologyProbe.CellRelaxed | vm_tools/vtop.c:404-420 | one entry and its mirror image become relaxed entries of the matrix the round began with, although earlier writes of the round are read |
| TopologyProbe.MeasureOne | vm_tools/vtop.c:464-475 | a leader measuring an ungrouped vCPU finds the pair unknown, and keeps the grouping first-fit and the matrix equal to what was measured |
| TopologyProbe.OpenGroup | vm_tools/vtop.c:459-463 | a new leader keeps all that is known about the earlier groups |
| TopologyProbe.LeaderProgress | vm_tools/vtop.c:459-475 | a leader's whole row keeps the bookkeeping and leaves no vCPU up to the leader ungrouped |
| TopologyProbe.ProgressDone | vm_tools/vtop.c:459-498 | at the end the groups are the first-fit grouping, leaders in increasing order, and only leaders' pairs have been measured |
| TopologyProbe.GroupingIsUnique | vm_tools/vtop.c:437-502 | the measured classes admit only one first-fit grouping, so the groups found are determined by them |
| TopologyProbe.ClosureIsStar | vm_tools/vtop.c:437-502 | whatever was measured, the closed entry of a pair is the longer of its two hops over the leader, or 4 across groups: none is unknown |
| TopologyProbe.Probe.FindNumaGroups | vm_tools/vtop.c:437-502 | the groups are the first-fit grouping of the measured classes, also where the two directions of a pair read differently, and the matrix is its star matrix |
| TopologyProbe.Probe.LeadGroup | vm_tools/vtop.c:459-475 | one turn of the outer loop: an ungrouped vCPU opens the next group and takes its members in |
| TopologyProbe.Probe.MeasureAgainst | vm_tools/vtop.c:463-475 | the inner loop is the row of measurements it stands for, in matrix and groups |
| TopologyProbe.SameSocketIffNear | vm_tools/vtop.c:437-502 | two vCPUs share a group exactly when their closed class is below 4 |
| TopologyProbe.Probe.PerformProbing | vm_tools/vtop.c:579-658 | after grouping the matrix is complete and closed, and the list of pairs handed to the worker threads is empty |
| TopologyProbe.Probe.UnknownPairs | vm_tools/vtop.c:607-648 | exactly the pairs of one group whose class is unknown are collected |
| TopologyProbe.SocketsAreExact | vm_tools/vtop.c:437-502 | if the classes come from a real machine the groups are its sockets |
| TopologyProbe.LeaderIsFirst | vm_tools/vtop.c:437-502 | a vCPU's leader is the first vCPU of its socket |
| TopologyProbe.InferredClassIsExactIff | vm_tools/vtop.c:437-502 | the inferred class is never too close, and is the true one except exactly on pairs that are equally far from the first vCPU of their socket and nearer to each other |
| TopologyProbe.OnlyLeaderCoreIsFound | vm_tools/vtop.c:437-502 | two vCPUs are reported on one core only if it is their leader's core |
| TopologyProbe.TwoCoresAreHardware | vm_tools/vtop.c:437-502 | that socket's latencies are those of a real machine, as the two results above assume |
| TopologyProbe.SecondCoreIsMissed | vm_tools/vtop.c:437-502 | on a socket with two cores of two threads, every first-fit grouping leaves the second core's threads in class 3 |
| TopologyProbe.AllIdsPartition | vm_tools/vtop.c:696-760 | on a complete closed matrix ids are equal exactly when the entry is below the limit, and are numbered without gaps |
| TopologyProbe.PulledSeparates | vm_tools/vtop.c:749-756 | after a vCPU has pulled its class in, two ids given out are equal exactly when the pair is near |
| TopologyProbe.PulledKeepsIds | vm_tools/vtop.c:749-756 | pulling never makes an id disappear |
| TopologyProbe.Probe.ParseTopology | vm_tools/vtop.c:696-760 | pair ids are the classes below 3 and core ids the classes below 2, from one double loop over both arrays |
| TopologyProbe.Probe.ParseRow | vm_tools/vtop.c:696-756 | one vCPU's turn takes both id assignments one step further |
| TopologyProbe.Probe.PullRow | vm_tools/vtop.c:749-756 | everyone near the vCPU takes over its ids and no one else changes |
| TopologyProbe.Probe.RelationMatrix | vm_tools/vtop.c:818-832 | each pair is reported by its core and group ids |
| TopologyProbe.ReportDescribes | vm_tools/vtop.c:805-832 | sockets, pairs and cores are the classes below 4, 3 and 2 of one closed matrix, so they nest, and the relation is its class |
| TopologyProbe.DetectVcpuTopology | vm_tools/vtop.c:763-832 | the whole detection, for every latency function: the reported topology describes the star matrix of the first-fit grouping, with one socket per leader; in latencies, a vCPU sits with the first leader it read below 8500 with, vCPUs of a socket share a pair id exactly if both read below 2000 with their leader, and a core id exactly if both readings are out of range |
| TopologyProbe.DetectTwoCores | vm_tools/vtop.c:763-832 | the detection itself reports the two threads of the second core as separate cores |
| VcpuPairs.PartnerIsFirst | src/evset_para.c:155-179 | the partner of a vCPU is the first later one on another core; without one all later vCPUs share its core |
| VcpuPairs.FindPartner | src/evset_para.c:155-179 | that partner is swapped next to the vCPU and nothing else moves; it fails, changing nothing, exactly if there is none |
| VcpuPairs.UnusedAre | src/evset_para.c:145-149 | the specification's list has exactly the unused vCPUs of the socket, each once |
| VcpuPairs.CollectSocket | src/evset_para.c:145-149 | the list holds the unused vCPUs of the socket in increasing order |
| VcpuPairs.TurnTakes | src/evset_para.c:152-194 | a turn either forms a pair on two cores or finds all the rest on one core |
| VcpuPairs.TurnPermutes | src/evset_para.c:155-179 | a turn only permutes the list |
| VcpuPairs.PairAt | src/evset_para.c:152-194 | the pair is stored and its two vCPUs marked, or nothing changes |
| VcpuPairs.PairUpSocket | src/evset_para.c:151-194 | what is stored is the first pairs of the list, as many as are still wanted, the flags mark exactly them, and the list stays a permutation |
| VcpuPairs.PairingStep | src/evset_para.c:151-194 | a turn keeps the pairs good and the flags tracking them, and after a first miss no further pair can be found |
| VcpuPairs.ListIsPaired | src/evset_para.c:151-194 | the pairs of a list are good beside all earlier ones, and no two of its unused vCPUs could still be paired |
| VcpuPairs.SocketDone | src/evset_para.c:134-197 | maximality extends from the sockets done to one more |
| VcpuPairs.AllPairsGood | src/evset_para.c:134-197 | the pairs of any number of sockets are good and leave none among the free vCPUs |
| VcpuPairs.PairSocket | src/evset_para.c:134-197 | one socket's turn adds its pairs to those of the sockets before it, up to the number asked for |
| VcpuPairs.FindOptimalVcpuPairs | src/evset_para.c:120-201 | the pairs are those the sockets give in order, cut off at the number asked for; all their vCPUs are distinct, each pair is on one socket and not on one core, and if fewer than asked for are found no further one exists |
| LargestPairing.WalkIs | src/evset_para.c:151-194 | the pairing's walk ends at e + 2 * (m / 2), for a plain walk that ends at e and reaches depth m, and leaves that many vCPUs over |
| LargestPairing.PairListIsWalk | src/evset_para.c:151-194 | where only one core has several threads, the loop with its swaps forms exactly as many pairs as the walk |
| LargestPairing.SocketBound | src/evset_para.c:151-194 | no choice of pairs on a socket has more than half its vCPUs, or more than its vCPUs outside the shared core |
| LargestPairing.LargerFamily | src/evset_para.c:151-194 | where the walk loses a pair, two left-over threads and a pair without any make one pair more |
| LargestPairing.SocketIsLargestIff | src/evset_para.c:151-194 | on a socket with one shared core the pairs formed are the most possible if and only if m < 2 or e + 2 * (m / 2) < 2 |
| LargestPairing.PairingIsLargestIff | src/evset_para.c:134-197 | over all sockets the pairs formed are the most possible if and only if no socket loses one |
| LargestPairing.DetectedSharesFirstCore | vm_tools/vtop.c:437-502 | on a detected socket two vCPUs are reported on one core exactly if both are on the first vCPU's core |
| LargestPairing.PairDetected | src/evset_para.c:120-201 | detection and pairing on every machine: if fewer pairs than asked for are found, no choice of pairs has more if and only if no socket loses one |
| LargestPairing.AtLeastHalf | src/evset_para.c:120-201 | no choice of pairs has more than twice as many as one in which no pair was missed, on any topology |
| MissedPair.AnotherPairExists | src/evset_para.c:120-201 | a machine of six vCPUs, as detected, on which three pairs exist and are asked for and two are found |
| VcpuPairs.DetectedSmtIsEquivalence | vm_tools/vtop.c:818-832 | for every topology the detection reports, sharing a core is an equivalence inside sockets, as maximality needs |
| CacheLines.LinesInPermutation | src/evset.c:613-634 | how many lines of a set a list has does not depend on its order |
| CacheLines.LinesInUpdate | src/evset.c:617-619 | replacing one line moves the counts by that line alone |
| EvictionSearch.QueryCount | src/evset.c:616-618 | the query about a line counts its set among the lines still in, with the target in the line's place |
| EvictionSearch.PruneFromPermutes | src/evset.c:613-634 | whatever the test answers, the lines are only permuted |
| EvictionSearch.PruneFromIdeal | src/evset.c:613-634 | with the ideal test the lines in front are exactly those of sets that stay full without one line |
| EvictionSearch.PruningIsExactIff | src/evset.c:613-634 | pruning a list that evicts the target leaves exactly the target's set in front if and only if no other set has more lines in it than ways |
| EvictionSearch.ShortListsPruneExactly | src/evset.c:613-634 | for lists of at most twice as many lines as ways it always does |
| EvictionSearch.PruningKeepsARival | src/evset.c:613-634 | with one way, pruning lines 1, 2 and 3 for target 0, two lines to a set, leaves lines of the other set in front |
| EvictionSearch.TestWithout | src/evset.c:617-619 | the query is made with the target swapped in and the list is put back |
| EvictionSearch.PruneStep | src/evset.c:616-626 | a line is kept or swapped behind the list, as the query says |
| EvictionSearch.PruneEvcands | src/evset.c:613-634 | the in-place loop is the pruning it stands for and leaves everything behind the list alone |
| EvictionSearch.SwapLines | include/utils.h:83-88 | exactly two places are exchanged |
| EvictionSetBuild.FirstCut | src/evset.c:880-888 | the first cut is the mean of the bounds, the upper one weighted by the lines still missing, rounded down |
| EvictionSetBuild.CutInside | src/evset.c:880-888 | the weighted first cut lies strictly between the bounds, so the guard against reaching the upper one never fires |
| EvictionSetBuild.BinarySearch | src/evset.c:894-907 | it ends with neighbouring bounds inside the candidates; with the ideal test the upper cut evicts and the lower one does not |
| EvictionSetBuild.CutLineIsHome | src/evset.c:894-920 | the line at which the cut starts to evict is of the target's set |
| EvictionSetBuild.MigratePermutes | src/evset.c:932-941 | migration only permutes the candidates |
| EvictionSetBuild.MigrateKeepsPrefix | src/evset.c:932-941 | migration leaves the current prefix alone |
| EvictionSetBuild.MigrateLines | src/evset.c:937-940 | the in-place loop is the migration it stands for |
| EvictionSetBuild.TryPlace | src/evset.c:875-920 | a line found is swapped behind the placed ones; with the ideal test it is of the target's set, and a miss means too few lines in reach |
| EvictionSetBuild.PlaceKeepsGood | src/evset.c:913-920 | placing a line keeps "only the target's set is placed, nothing missed while all are carried" or completes the set |
| EvictionSetBuild.MissKeepsGood | src/evset.c:909-912 | a miss happens only when there are too few lines in all or some placed lines are no longer carried |
| EvictionSetBuild.EnoughLines | src/evset.c:875-878 | an evicting cut that leaves out some placed lines needs that many more lines in all |
| EvictionSetBuild.MissLeavesRoom | src/evset.c:930-949 | while the next line is sure to be found, a miss leaves candidates to bring in |
| EvictionSetBuild.SpentIsBounded | src/evset.c:909-912 | with more backtracks allowed than slack minus one times the budget of a line, they run out only after the next line was no longer sure |
| EvictionSetBuild.CompleteSetIsNotPruned | src/evset.c:922-925 | a full set of the target's lines survives pruning unchanged |
| EvictionSetBuild.CheckComplete | src/evset.c:922-928 | pruning only permutes; a complete set ends the search with every line kept |
| EvictionSetBuild.SearchOnce | src/evset.c:875-920 | one search places a line or counts a backtrack, and keeps the invariant |
| EvictionSetBuild.SearchAndCheck | src/evset.c:875-928 | the first half of the loop body keeps the invariant or ends with the promised outcome |
| EvictionSetBuild.MigrateMoves | src/evset.c:937-940 | a migration brings in a step, or what closes the gap between the cut and the far end |
| EvictionSetBuild.MigrateBrings | src/evset.c:937-940 | what comes in behind the cut comes from the far end, in order, and what stood there goes to the far end |
| MissBudget.MissIsPaid | src/evset.c:930-941 | after a miss exactly one miss less is left until the cut reaches all candidates but one |
| MissBudget.CeilDivIs | src/evset.c:937-940 | a distance over the step, rounded up, is the number of steps that cover it |
| MissBudget.TurnsBound | src/evset.c:930-941 | because every closed gap halves what is out of reach, those misses are at most the distance over the step, rounded up, plus its number of bits |
| MissBudget.MissesBound | src/evset.c:930-941 | wherever the cut and the far end are, the misses left are within the budget of one line |
| EvictionSetBuild.BringIn | src/evset.c:930-949 | after a miss, and after a line found while placed lines are left out, a step of candidates is migrated in, which leaves one miss less to come unless only the last place is left; otherwise nothing moves; it fails exactly when the placed lines use up all candidates |
| EvictionSetBuild.BuildEvsetZhao | src/evset.c:847-961 | for any answers: termination, indices in bounds, permutation, size at most the capacity; with the ideal test: only lines of the target's set, none if too few exist, exactly as many as ways with no backtracks without slack, bounds on the size with slack, and with ample backtracks a complete set exactly if ways plus slack lines exist, unless there is just one less; a set completed with that many lines took at most slack minus one times the budget of a line in backtracks, an incomplete one all of them |
| EvictionSetBuild.CompleteIffEnough | src/evset.c:847-961 | that condition from the bounds on the size, where the budget of a line is candidates over step, rounded up, plus their number of bits, and less than the candidates |
| EvictionSetBuild.CompleteIsFew | src/evset.c:909-912 | a set whose last line was sure took at most slack minus one times that budget in backtracks |
| EvictionSetBuild.SlackLosesALine | src/evset.c:847-961 | two candidates that fill a two-way set, of which slack 2 finds one |
| MinHeap.SiftUpRestoresOrder | scx/lib/minheap.bpf.c:88-104 | a heap with one element possibly lighter than its parent becomes a heap |
| MinHeap.SiftUpPermutes | scx/lib/minheap.bpf.c:88-104 | the bottom-up loop only permutes |
| MinHeap.Lightest | scx/lib/minheap.bpf.c:61-76 | the index chosen is lightest among an element and its children |
| MinHeap.SiftDownRestoresOrder | scx/lib/minheap.bpf.c:53-85 | a heap with one element possibly heavier than its children becomes a heap |
| MinHeap.SiftDownPermutes | scx/lib/minheap.bpf.c:53-85 | the top-down loop only permutes |
| MinHeap.RootIsLightest | scx/lib/minheap.bpf.c:126-144 | in a heap the first element is a lightest one |
| MinHeap.PopRemovesFirst | scx/lib/minheap.bpf.c:126-144 | a pop removes exactly the first element |
| MinHeap.PopKeepsOrder | scx/lib/minheap.bpf.c:126-144 | a pop keeps heap order |
| MinHeap.InsertKeepsOrder | scx/lib/minheap.bpf.c:107-122 | an insertion keeps heap order |
| MinHeap.Heap.BalanceBottomUp | scx/lib/minheap.bpf.c:88-104 | the in-place loop is the sift it stands for |
| MinHeap.Heap.BalanceTopDown | scx/lib/minheap.bpf.c:53-85 | the in-place loop is the sift it stands for, and its child indices fit a C int |
| MinHeap.Heap.Insert | scx/lib/minheap.bpf.c:107-122 | refused exactly when full; otherwise the contents gain that element and stay a heap |
| MinHeap.Heap.Pop | scx/lib/minheap.bpf.c:126-144 | refused exactly when empty; otherwise the contents lose the returned element, which has least weight |
| Atq.Queue.Insert | scx/lib/atq.bpf.c:30-46 | the task is queued last, or refused when full or not in fifo mode; the counter advances even when full; arrival order stays weight order exactly if the last weight is below the counter |
| Atq.WrapReorders | scx/lib/atq.bpf.c:30-90 | two tasks inserted into an empty queue while the counter wraps come out in the wrong order |
| Atq.Queue.InsertVtime | scx/lib/atq.bpf.c:49-65 | the task is queued with its virtual time, or refused when full or in fifo mode |
| Atq.Queue.Pop | scx/lib/atq.bpf.c:68-90 | an element of least weight leaves; in arrival order it is the oldest; null exactly when empty |
| Atq.Queue.Peek | scx/lib/atq.bpf.c:93-112 | the task a pop could take, with nothing changed |
| Atq.AppendIncreasing | scx/lib/atq.bpf.c:30-46 | arrival order stays weight order exactly when the new weight is above the last one |
| Atq.IncreasingLeast | scx/lib/atq.bpf.c:68-90 | when weights grow in arrival order the only least one is the oldest |
| Atq.Step | scx/lib/atq.bpf.c:30-90 | one operation on the heap is that operation on a bounded first-in first-out queue; only an insert needs the counter to have room |
| Atq.RunFifo | scx/lib/atq.bpf.c:30-90 | every run with fewer than 2^64 inserts and any number of pops reports what a bounded first-in first-out queue reports |
| Atq.FifoConserves | scx/lib/atq.bpf.c:30-90 | over every run what was queued and accepted is what was handed out and is left, in the same order |
| Atq.StepVtime | scx/lib/atq.bpf.c:49-90 | in virtual-time mode one operation on the heap is that operation on a bounded multiset |
| Atq.RunVtime | scx/lib/atq.bpf.c:49-90 | every run in virtual-time mode is a run of a bounded multiset whose takes remove a least element |
| Atq.TakesAreSorted | scx/lib/atq.bpf.c:49-90 | takes with no insert between them come out in order of virtual time |
| Bitmap.Ffs | scx/scheds/include/lib/sdt_task.h:113-150 | the halving search finds the lowest set bit of a word that has one |
| Bitmap.FindEmpty | scx/lib/sdt_alloc.bpf.c:87-101 | the first clear bit, or the number of bits exactly when none is clear |
| Bitmap.SetBitCounts | scx/lib/sdt_alloc.bpf.c:320-336 | setting or clearing a bit moves the count of clear bits by one exactly if the bit changes, and leaves it otherwise |
| Bitmap.TestCpu | scx/lib/bitmap.bpf.c:88-91 | true exactly if the CPU is in the mask |
| Bitmap.Subset | scx/lib/bitmap.bpf.c:193-203 | true exactly if every CPU of the second mask is in the first |
| Bitmap.Intersects | scx/lib/bitmap.bpf.c:206-216 | true exactly if some CPU is in both masks |
| CpuTree.AddChildLinked | scx/lib/topology.bpf.c:68-90 | adding a child keeps parents, children and levels in agreement |
| CpuTree.AddChildLaminar | scx/lib/topology.bpf.c:68-90 | adding a mask inside its parent and apart from its siblings keeps the family laminar |
| CpuTree.BelowIsSubset | scx/lib/topology.bpf.c:92-154 | a descendant's mask is a subset of its ancestor's |
| CpuTree.DescendKeepsClear | scx/lib/topology.bpf.c:110-143 | descending into the child that holds the whole mask leaves only nodes behind that the mask does not cross |
| CpuTree.Topology.TopoAdd | scx/lib/topology.bpf.c:31-90 | the node is linked, or nothing changes when it would be too deep, its id too large or its parent full |
| CpuTree.Topology.ScanChildren | scx/lib/topology.bpf.c:117-126 | finds the first child that holds the mask or that it crosses |
| CpuTree.Topology.TopoInit | scx/lib/topology.bpf.c:92-154 | the tree stays laminar, and a mask is refused exactly if it is not inside the root or crosses some node |
| CpuTree.Topology.FindDescendant | scx/lib/topology.bpf.c:156-186 | a node returned is the only leaf below the start that holds the CPU; null exactly if there is none |
| CpuTree.LeafFound | scx/lib/topology.bpf.c:156-186 | in a laminar tree no other leaf holds the CPU |
| CpuTreeIter.PreorderIsComplete | scx/lib/topology.bpf.c:288-349 | the preorder lists every node of the tree exactly once |
| CpuTreeIter.AfterIsPreorderSuffix | scx/lib/topology.bpf.c:242-349 | what follows a node, with the node, is the rest of the preorder of the whole tree |
| CpuTreeIter.ChildHeads | scx/lib/topology.bpf.c:299-318 | a node's first child, or a right neighbour, heads what follows |
| CpuTreeIter.RightStep | scx/lib/topology.bpf.c:325-344 | what lies right of a node begins with its right neighbour, or else is what lies right of its parent |
| CpuTreeIter.Iter.StartFrom | scx/lib/topology.bpf.c:242-285 | at any node the recorded indices name the path to it from 0 at the root, and deeper ones are cleared |
| CpuTreeIter.Iter.ChildIndex | scx/lib/topology.bpf.c:258-261 | the position of the node among its parent's children |
| CpuTreeIter.Iter.Next | scx/lib/topology.bpf.c:288-349 | moves to the next node of the preorder with the indices naming it, and answers false exactly at the end |
| CpuTreeIter.Iter.Climb | scx/lib/topology.bpf.c:325-348 | moves to the first right neighbour of an ancestor, and fails exactly if there is none |
| CpuTreeIter.EnumerateFrom | scx/lib/topology.bpf.c:242-349 | calls until false, from any node, visit exactly the rest of the preorder |
| RadixTree.FullMeansLive | scx/lib/sdt_alloc.bpf.c:455-515 | below a descriptor without free entries every index is live |
| RadixTree.FlipLeaf | scx/lib/sdt_alloc.bpf.c:498-510 | flipping a leaf bit makes its index live or free and leaves at most the parent's bit to settle |
| RadixTree.FlipInterior | scx/lib/sdt_alloc.bpf.c:498-510 | flipping the pending interior bit settles it and passes the matter on exactly if the descriptor became full or stopped being full |
| RadixTree.GrowKeepsTree | scx/lib/sdt_alloc.bpf.c:489-495 | hanging an empty chunk below a missing entry keeps the whole invariant and the live set |
| RadixTree.AncestorAt | scx/lib/sdt_alloc.bpf.c:398-419 | an index with a leaf chunk has a chunk on every level |
| RadixTree.LeafPathExists | scx/lib/sdt_alloc.bpf.c:398-419 | the child pointers on the way to an existing leaf chunk are all there |
| RadixAllocator.MarkUpSettles | scx/lib/sdt_alloc.bpf.c:345-361 | either upward loop, on the path of an index, ends with counts equal to clear bits and interior bits equal to full children |
| RadixAllocator.LiveBelowStep | scx/lib/sdt_alloc.bpf.c:468-496 | choosing the first clear entry keeps every smaller index live |
| RadixAllocator.NothingFree | scx/lib/sdt_alloc.bpf.c:475-476 | no clear entry is met only when every index is live |
| RadixAllocator.LeafChosen | scx/lib/sdt_alloc.bpf.c:478-487 | at a leaf the first clear entry spells the least index that is not live |
| RadixAllocator.DoubleFreeMiscounts | scx/lib/sdt_alloc.bpf.c:338-362 | releasing an index that is not live leaves its leaf with a count one too high |
| RadixAllocator.IndexSpace | scx/lib/sdt_alloc.bpf.c:398-400 | the indices of the tree are the numbers below fanout to the power of the levels |
| RadixAllocator.Allocator.constructor | scx/lib/sdt_alloc.bpf.c:312-312 | one empty chunk satisfies the invariant with nothing live |
| RadixAllocator.Allocator.Descend | scx/lib/sdt_alloc.bpf.c:468-496 | the downward loop finds the path of the least index not live, or fails exactly when all are live |
| RadixAllocator.Allocator.ChildChunk | scx/lib/sdt_alloc.bpf.c:489-495 | the chunk behind a clear entry, made if missing, has a free entry and continues the path |
| RadixAllocator.Allocator.MarkTaken | scx/lib/sdt_alloc.bpf.c:498-510 | the in-place loop is the upward marking it stands for |
| RadixAllocator.Allocator.MarkNodesAvail | scx/lib/sdt_alloc.bpf.c:338-362 | the in-place loop is the upward marking it stands for |
| RadixAllocator.Allocator.AllocIdx | scx/lib/sdt_alloc.bpf.c:455-515 | the least index not live becomes live; fails exactly when all are live |
| RadixAllocator.Allocator.WalkDown | scx/lib/sdt_alloc.bpf.c:398-419 | the path of the index exactly if its leaf chunk exists, and failure otherwise |
| RadixAllocator.Allocator.FreeIdx | scx/lib/sdt_alloc.bpf.c:365-449 | a live index is freed, an index without a leaf chunk is refused with nothing changed, and the invariant holds afterwards exactly if the index was live or has no leaf chunk |
| RadixAllocator.FreeOfFreeBreaks | scx/lib/sdt_alloc.bpf.c:365-449 | releasing index 0 of a new one-level tree breaks the invariant |
| RadixAllocator.Step | scx/lib/sdt_alloc.bpf.c:365-515 | one operation on the tree is that operation on a plain set |
| RadixAllocator.Run | scx/lib/sdt_alloc.bpf.c:365-515 | every run of allocations and releases of live indices returns what a plain set that hands out its least free index returns |
| LoadSums.SumMonotone | scx/rust/scx_utils/src/infeasible.rs:389-397 | entry by entry larger values give a larger sum over a map |
| InfeasibleWeights.ApproxGeIff | scx/rust/scx_utils/src/infeasible.rs:254-260 | the approximate comparison is "at least the other minus 0.0001" |
| InfeasibleWeights.NextDivisor | scx/rust/scx_utils/src/infeasible.rs:453-462 | the divisor of the next threshold is strictly positive |
| InfeasibleWeights.GiveUpOne | scx/rust/scx_utils/src/infeasible.rs:459-461 | giving up the largest weight above the threshold keeps the accumulators equal to the sums they stand for and never raises the threshold |
| InfeasibleWeights.FellThrough | scx/rust/scx_utils/src/infeasible.rs:453-471 | if every weight has been given up the duty cycles sum to less than the CPUs |
| InfeasibleWeights.GuardIsReaches | scx/rust/scx_utils/src/infeasible.rs:453-457 | the loop stops at a weight exactly if the load up to it, shared by the CPUs left when all larger weights have their duty cycles, reaches it |
| InfeasibleWeights.HalfUsedCpuHasNoThreshold | scx/rust/scx_utils/src/infeasible.rs:441-471 | one task on one CPU half the time: the adjustment is entered and no threshold is found |
| InfeasibleWeights.ClampedLoad | scx/rust/scx_utils/src/infeasible.rs:453-457 | at the threshold found, the clamped load is threshold times CPUs, short of it by at most 0.0001 per duty cycle, and exact if no weight lies just above it |
| DomainRecords.RecordIsPlaced | scx/rust/scx_utils/src/infeasible.rs:336-353 | an accepted record lands in its own domain: for every single domain and every function of the weight its sums are those of the records made for it, and the domains are the started ones and those with records |
| DomainRecords.PairIffHeld | scx/rust/scx_utils/src/infeasible.rs:342-344 | a domain holds a value for a weight exactly if a record was made for the two |
| DomainRecords.IndexedByIdIff | scx/rust/scx_utils/src/infeasible.rs:229-238 | the position of every domain in the ledger is its id if and only if no id reaches the number of domains |
| LoadAggregator.RecordRegroups | scx/rust/scx_utils/src/infeasible.rs:336-359 | per-domain sums, per-weight sums and the sums over all accepted records stay equal for every function of the weight |
| LoadAggregator.RecordKeepsWeights | scx/rust/scx_utils/src/infeasible.rs:346-359 | the weights with loads are exactly the recorded ones and the maximum is the largest recorded one |
| LoadAggregator.OverwriteRegroupsIff | scx/rust/scx_utils/src/infeasible.rs:342-344 | overwriting an entry keeps the groupings equal exactly if the value is the same |
| LoadAggregator.Aggregator.constructor | scx/rust/scx_utils/src/infeasible.rs:277-288 | an aggregator without records is consistent |
| LoadAggregator.Aggregator.InitDomain | scx/rust/scx_utils/src/infeasible.rs:314-322 | a domain without records is added and every sum is kept; one that is there is left alone |
| LoadAggregator.Aggregator.RecordDomLoad | scx/rust/scx_utils/src/infeasible.rs:327-362 | the three outcomes by what was recorded before; an accepted record keeps all sums of its domain, of the others, per weight and in all equal to those of the records; a refused duplicate leaves them so exactly if its value is the one recorded |
| LoadAggregator.Aggregator.ApplyInfeasibleThreshold | scx/rust/scx_utils/src/infeasible.rs:385-398 | every domain's load and the global load become the clamped sums and nothing else changes |
| LoadAggregator.SumClamped | scx/rust/scx_utils/src/infeasible.rs:390-394 | the clamped load of one domain |
| LoadAggregator.GiveUp | scx/rust/scx_utils/src/infeasible.rs:459-461 | one turn of the loop keeps the accumulators equal to their sums and never raises the threshold |
| LoadAggregator.StoppedAt | scx/rust/scx_utils/src/infeasible.rs:453-461 | the loop stops at the largest weight that is reached; the threshold shares the load up to it by the CPUs left, is at least every weight up to it less 0.0001, and at most every other one by more than that |
| LoadAggregator.FindThreshold | scx/rust/scx_utils/src/infeasible.rs:448-471 | the divisor never reaches zero, the threshold is positive, at most the initial one, balances the load and is the one of the largest weight reached; one is found exactly if some recorded weight is reached by the load up to it, and always if the duty cycles sum to at least the CPUs |
| LoadAggregator.Aggregator.AdjustInfeasWeights | scx/rust/scx_utils/src/infeasible.rs:400-471 | exactly if a threshold exists the loads are clamped at it, with fair grants; otherwise nothing changed and the machine is under-utilized |
| LoadAggregator.Aggregator.ListSums | scx/rust/scx_utils/src/infeasible.rs:297-303 | the sums of all domains, in the order of their ids |
| LoadAggregator.Aggregator.Calculate | scx/rust/scx_utils/src/infeasible.rs:292-312 | the ledger lists, in the order of the ids, the duty cycles and the raw or clamped loads of the records of each domain; it is adjusted, with fair grants, exactly if the largest recorded weight is at least the load per CPU less 0.0001 and some weight is reached by the load up to it, where the second always holds on a fully used machine |
| LoadAggregator.LoneDomainStandsFirst | scx/rust/scx_utils/src/infeasible.rs:292-312 | a load recorded for domain 1 alone stands at position 0 of the ledger |
| LoadAggregator.ClampedGrantsAreFair | scx/rust/scx_utils/src/infeasible.rs:410-417 | after an adjustment every record with a clamped weight is granted at least its duty cycle and none more than it up to the tolerance, or not at all more if no weight lies just above the threshold |
| LoadAggregator.CapacityIsShared | scx/rust/scx_utils/src/infeasible.rs:410-417 | the grants of all records sum to the CPUs |
| RunningAverage.DividePow2 | scx/rust/scx_utils/src/ravg.rs:51-59 | halving a value n times is dividing it by 2^n |
| RunningAverage.TableTimes | scx/rust/scx_utils/src/ravg.rs:61-90 | each table entry is the decayed sum of that many full periods |
| RunningAverage.RunComposes | scx/rust/scx_utils/src/ravg.rs:40-102 | the unit-by-unit reference can be stopped and resumed anywhere |
| RunningAverage.RunIsFold | scx/rust/scx_utils/src/ravg.rs:40-102 | the unit-by-unit reference is a fold of one half-life at a time |
| RunningAverage.FoldIsClosed | scx/rust/scx_utils/src/ravg.rs:50-90 | over n full periods the distance to the value is halved n times |
| RunningAverage.AccumulateIsExact | scx/rust/scx_utils/src/ravg.rs:40-96 | where the 32-bit count of elapsed half-lives is positive the closed form is the reference after that many, minus what the table leaves out; where it is lost nothing decays |
| RunningAverage.ShortfallIsSmall | scx/rust/scx_utils/src/ravg.rs:61-90 | what the table leaves out is between 0 and the value times 2^-20 |
| RunningAverage.ExactComposes | scx/rust/scx_utils/src/ravg.rs:40-102 | saving the average on the way and going on from there changes nothing |
| RunningAverage.ReadIsExactIff | scx/rust/scx_utils/src/ravg.rs:25-102 | at given times reads equal the reference up to 21 elapsed half-lives, and are below it by less than the value times 2^-20 beyond, for all values if and only if fewer than 2^31 have elapsed |
| RunningAverage.ReadWithin | scx/rust/scx_utils/src/ravg.rs:25-102 | with no period end counted, the read is the stored average, divided by 2^frac_bits and faded linearly to one half over the period, plus half of what the period has gathered; a moment before the last update reads as that update |
| RunningAverage.ReadAcross | scx/rust/scx_utils/src/ravg.rs:25-102 | with n period ends counted, the average and the first period are divided by 2^n, full periods come to the value less its 2^(n-1)-th part, stopping at 2^20, and the current period enters as above |
| RunningAverage.ReadMoves | scx/rust/scx_utils/src/ravg.rs:25-102 | over 21 half-lives, a period end or not, every unit of time moves the read by the distance of the value from the tracked average over two half-lives: there is no jump where a period ends |
| RunningAverage.ReadForgetsTurns | scx/rust/scx_utils/src/ravg.rs:40-50 | if the wrapped count is positive the read is the one at the moment that many half-lives after the last update |
| RunningAverage.ReadIsBoundedIff | scx/rust/scx_utils/src/ravg.rs:25-102 | at given times every signal and average that never exceeded v reads as between 0 and v if and only if no half-life has elapsed or the 32-bit count of them is positive |
| HelperProtocol.MainKeepsInv | include/helper_thread.h:31-96 | every step of the main thread, in start, stop or any command, keeps the invariant of the handshake |
| HelperProtocol.HelperKeepsInv | src/helper_thread.c:7-48 | every step of the helper keeps the invariant of the handshake |
| HelperProtocol.EachCommandOnce | include/helper_thread.h:75-96 | in every interleaving the k-th command carried out is the k-th released, with the action, payload and all the arguments written, and none is open when the main thread is back in its caller |
| HelperProtocol.TraceLogsGrow | include/helper_thread.h:75-96 | a command once released or carried out stays so |
| HelperProtocol.ResumesAfterExecution | include/helper_thread.h:31-34 | the main thread gets past its wait only after the command it sent has been carried out |
| HelperProtocol.BlocksStayAlive | src/cache_ops.c:5-39 | while the helper reads an argument block it is live and holds what the main thread filled in, even if the main thread works meanwhile |
| HelperProtocol.FreedWhenUnused | src/cache_ops.c:37-38 | a block is freed only when the helper is back in its spin loop |
| HelperProtocol.LatencyIsItsOwn | include/helper_thread.h:85-96 | a latency returned is the one measured by that very command; back in its caller the main thread has returned one for every timed command, and no block is left over |
| HelperProtocol.WaitsEnd | include/helper_thread.h:31-73 | whenever the main thread is held up in a start, a stop or a command, a next step exists exactly unless it waits for a command without a helper, and every step is the helper's and brings it nearer to reporting back |
| HelperProtocol.BlockCommandHangs | src/cache_ops.c:5-39 | every command with an argument block can be sent before any helper runs, and then no thread can move |
| HottestColor.EwmaBetween | src/vcolor.c:448-455 | with factors between 0 and 1 the smoothed heat lies between the old heat and the new rate |
| HottestColor.SteadyApproaches | src/vcolor.c:448-455 | over n rounds at one rate the distance of a heat to it shrinks to its alpha_rise^n-th part from below and to its alpha_fall^n-th part from above |
| HottestColor.AsksIff | src/vcolor.c:757-762 | a round asks for a change exactly if another colour is on top and 40, 65 or 85 percent lies between the two heats |
| HottestColor.HotLevel | src/vcolor.c:478-488 | levels 1, 2 and 3 are reached at 40, 65 and 85 percent |
| HottestColor.LevelIsMonotone | src/vcolor.c:478-488 | more heat is never a lower level |
| HottestColor.SortedLists | src/vcolor.c:727-731 | any rearrangement of the table lists every colour once with its heat |
| HottestColor.OrderIsGood | src/vcolor.c:505-515 | the order has every colour once, the hottest first and the rest by non-increasing heat |
| HottestColor.BuildSortedOrder | src/vcolor.c:505-515 | the loop fills the order with the hottest and the others in table order, stops when full and leaves the rest of the array alone |
| HottestColor.CounterCounts | src/vcolor.c:761-771 | the counter is the number of rounds in a row, up to two, that asked for one and the same change |
| HottestColor.SwitchIff | src/vcolor.c:757-776 | the hottest colour changes to c in a round if and only if this round and the two before it met the same hottest colour with c on top and at least one level above it |
| HottestColor.TopIsHottest | src/vcolor.c:731-757 | the top of the sorted table has greatest heat |
| HottestColor.Monitor.constructor | src/vcolor.c:721-745 | after the first scan the top colour is the hottest and the published order is good |
| HottestColor.Monitor.UpdateEwma | src/vcolor.c:448-455 | every colour's heat is smoothed with its own rate |
| HottestColor.Monitor.Count | src/vcolor.c:761-776 | the decision fields after a round |
| HottestColor.Monitor.Publish | src/vcolor.c:773-788 | what is written out is the current order, hottest first, whether or not it had to be written again |
| HottestColor.Monitor.Turn | src/vcolor.c:747-788 | a turn of the loop keeps the decision equal to that of the rounds so far and the published order good |
| HottestColor.Watch | src/vcolor.c:721-788 | in every run, for every sequence of scans and every choice among equal heats, what is published after each round is a good order for the colour the decision has in force, and heats approach steady rates as above |

## Left out

- Buddy and stack allocators (scx/lib/sdt_alloc.bpf.c): their header and capacity bookkeeping does not have the natural invariants.
- Payload clearing and generation numbers of freed indices, allocation statistics, and the data blocks behind indices.
- Arena pages, spin locks, allocation failure and loop bounds of the BPF verifier: chunks are fresh and zeroed, operations are atomic, loops run to their end.
- `topo_find_sibling`, `topo_find_ancestor`, `topo_mask_level`, the level-filtered iteration and the table of nodes by level and id.
- Changes to a CPU mask after the tree has taken it over.
- The incidence tables filled beside the ids in `parse_topology`, `calc_gran_assignments`, and memory-allocation failure in the topology code.
- The latency measurement itself, its timeouts, retries and thread pinning: the measured latency is a function of the pair.
- `evcands_filter_batch`, `build_evsets_at`, `final_l3_evset`: retries, timeouts and re-targeting around the search.
- EvictionSetBuild.CompleteIffEnough: leaves open whether the set is complete when the target's set has exactly ways plus slack minus one lines among the candidates, because the last place among the candidates is never brought into reach and the missing line may stand there; nor does it cover a smaller limit on backtracks. The shipped limit of 20 is ample only for few candidates per step.
- EvictionSetBuild.BuildEvsetZhao: sums like ways plus extra lines are unbounded integers; only the 64-bit wrap of ways minus slack is modelled.
- A second `calculate` on one aggregator.
- Rounding of 64-bit floats: loads, averages and heats are reals. The decimal table entries of the running average that are longer than a double are the doubles they denote.
- Starting a helper that is already running; the foreign-evictor path; weak memory; the main thread's own traversal while the helper works.
- HottestColor.Watch: the scan that measures the rates is an input, and printing, sleeping and dropping caches are not modelled.
- Timing, inline assembly, cpuid, cgroups, kernel modules, monitoring, graphing, command lines and the scx_stats client and server.
