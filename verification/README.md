# A verified model of the Barnes-Hut simulator and its frame transfer

The simulator moves particles under gravity. Each step it sorts the particles along a Morton
curve, builds a binary radix tree with one thread per node, turns its edges into a sparse
octree, computes masses bottom-up with racing threads, walks the octree without a stack for
every particle, and advances with a kick-drift-kick step. Snapshots are sampled, quantised,
written to a spool and sent to clients that acknowledge them.

This project models that program in Dafny and proves what its parts promise one another, up to
the theorems about the whole:

* The radix tree written by independent threads is the tree obtained by cutting ranges at their
  lowest gap, duplicates included; the octree written by independent threads is the recursive
  division of the key cells. No construction error can occur and no index overflows, as long as
  the int counters of the program suffice: up to 2^30 radix leaves and 2^28 octree nodes, which
  124630747 particles never exceed.
* The mass pass is correct under every interleaving of its threads, and every schedule ends
  within 102 steps for each node.
* The stackless walk visits the nodes of the recursive walk and evaluates its items, in the same
  order. Each particle is accounted for once, the target is never absorbed, and with opening
  angle zero the force is the direct sum. Nodes taken as point masses appear smaller than the
  opening angle from the target.
* What a simulation computes is Newton's law of its particles, said of masses and places alone:
  a created simulation follows its configuration, and every successful step leaves accelerations
  that are the softened pulls of all other particles, singly or in groups that are small or far.
* Runs of the simulation are reversible for every opening angle, and conserve momentum for
  opening angle zero. The state machine keeps buffers, structure, time and step number in step.
* Transfers lose no frame, whatever connections break, if and only if no name is published with
  two different contents. A connection that is left alone hands over its whole spool in order,
  in a bounded number of steps. Written frames are read back; captured ones show the particles at
  evenly spread places of the source, each coordinate within half a step. The native reader and
  the browser's agree, up to exact conditions on what either refuses.

Each module is a file of the same name (`Simulation.dfy` holds the module `Simulations`).

| part | modules |
|---|---|
| radix tree | Ints, Prefixes, GapTrees, RadixTree, Threads |
| octree | Scan, LeafGroups, OctreePlan, OctreeIds, OctreeSize, OctreeLimits, PlanBuilder, OctreeBuilder, OctreeShape, OctreeTrees |
| traversal and forces | Vectors, Forests, BarnesHut, Coverage, Accounting, DirectSum, OpeningAngle, Accelerations |
| masses | Moments, MassKernels, MassPropagation, OctreeMasses |
| keys and cubes | MortonBits, BoundingBox, MortonKeys, MortonKernels, OctreeGeometry, StableSort |
| whole pipeline | SpatialStructure, Pipeline, Forces, FarField, Newton, Gravitation |
| motion | Leapfrog, Conservation, Options, Simulations |
| frames and transfer | FrameNames, Transfer, Listings, TransferProgress, Sampling, DeviceCapture, ByteFields, FrameFormat, FrameCodec, Delivery |

## How the program is modelled

* A kernel whose threads write disjoint cells is a loop that runs the threads in an arbitrary
  order over shared arrays. The mass pass, where threads meet, is a step relation over all
  interleavings: each read of a child, the write of a parent, and the fence with its atomic add
  are separate steps.
* `double` is `real`. The square root and the inverse distance are given functions; no proof
  assumes anything of them, except those in `FarField` and `Gravitation` that say so. Keys are naturals of 30
  bits, and the key words of the bit tricks are 32-bit vectors. In frames a `double` is its
  64-bit pattern, with a given interpretation.
* Failures of the device (allocation, launches) are a parameter of each operation of the class
  `Simulations.Simulation`; failures of the algorithms are computed.
* Members about the radix tree and the octree often require `Separated(Gaps(keys))` or
  `SpatialGaps(Gaps(keys))`. These ask no more than `SortedKeys(keys)` and `UniqueKeys(keys)`:
  `RadixTree.GapsAreSeparated` and `OctreePlan.UniqueKeysHaveSpatialGaps` derive them. The
  members work on the array of gaps and carry the fact along. In the same way `WellFormed(o)` and
  `GoodNet` are proved of everything the builders produce (`SpatialStructure.OctreeIsGood`,
  `OctreeMasses.NetIsGood`), and the methods in `Pipeline` ask for nothing but a non-empty
  particle set of at most 2^31 - 1 members whose octree has at most 2^28 nodes.
* Indices that the program computes in `int` are of the bounded type `Ints.Int`, so that each of
  them is proved to fit.

## Where the program and its documentation differ

* README.md:278 names CUB's SortPairs; the program sorts with Thrust's stable sort
  (gpu/cuda_kernels/morton.cu:221-224), and stability is what is modelled.
* README.md:1189-1190 says that unique run ids keep a backlog from being overwritten. The
  program also takes session ids from its caller and only refuses a name that is still queued.
  `Transfer.NothingIsLostExactly` says that different content under one name is the only way to
  lose a frame, and that some run then does lose one; `Transfer.ReuseCanLose` is an instance, and
  `Transfer.OrderlyRunsLoseNothing` a discipline that rules it out.
* A comment in src/streaming/network.cpp:422-423 says that follow mode lists the spool again
  after every acknowledgement; the program does so at the end of each listing (line 444), which
  is what `Transfer` models.
* The typed writer computes the payload size in 64 bits without a check, so an enormous frame is
  written that no reader accepts; `FrameCodec.TypedRoundTrip` gives the exact condition.
* The browser's reader does not check that there are as many sources as samples, that the time is
  finite and not negative, that the bounds are finite and ordered, that the total steps reach
  the step, nor, in the newest layout, that there is one type for each sample when there are
  none. On the other hand it refuses unknown types with the whole frame, and payloads beyond
  the safe integers. `FrameCodec.ReadersAgreeExactly` states both differences exactly;
  `FrameCodec.BrowserIsLaxer` gives instances.
* The node-count check of radix_to_octree.cu:239-241 admits octrees whose child slots no longer
  fit an int; `OctreeLimits.CountableNodesButNotSlots` is one.
* Particles in the same place stop the simulation if nothing is softened; README.md:83 only
  hints at it. `Forces.FailsExactlyOnCoincidence` gives the exact condition.

## Model

| member | source | states |
|---|---|---|
| `Prefixes.LeadingZerosOfXor` | gpu/cuda_kernels/tree_builder.cu:9-24 | counting the leading zeros of the exclusive or of two words gives the length of their common prefix, for every width |
| `Prefixes.CommonPrefixOfOuter` | gpu/cuda_kernels/tree_builder.cu:9-24 | for ordered words a <= b <= c the prefix of the outer pair is the smaller of the two inner ones |
| `RadixTree.PrefixOfPair` | gpu/cuda_kernels/tree_builder.cu:9-24 | the (key, index) prefix: below 32 exactly for different keys, otherwise 32 plus the prefix of the indices; symmetric; never 64 |
| `RadixTree.PrefixByGaps` | gpu/cuda_kernels/tree_builder.cu:9-24 | the prefix of two far leaves exceeds x exactly when every prefix of neighbours in between does |
| `RadixTree.GapsAreSeparated` | gpu/cuda_kernels/tree_builder.cu:9-24 | the neighbour prefixes of every sorted array, duplicates included, never take an equal minimum twice on a range; this is what makes the tree unique |
| `RadixTree.BoundReach` | gpu/cuda_kernels/tree_builder.cu:38-52 | the doubling loop ends with a power of two beyond the true reach of the node and at most twice as far; up to 2^30 leaves every doubling and every probed index fits an int |
| `RadixTree.SearchReach` | gpu/cuda_kernels/tree_builder.cu:53-62 | the halving loop finds the true reach exactly |
| `RadixTree.DetermineRange` | gpu/cuda_kernels/tree_builder.cu:30-62 | direction, doubling and halving together give the maximal range around leaf i, which has i as one end |
| `RadixTree.FindSplit` | gpu/cuda_kernels/tree_builder.cu:64-84 | the split is the last position that shares a longer prefix with the first leaf than the node does: the unique lowest gap of the range, before the last leaf |
| `GapTrees.ChildRanges` | gpu/cuda_kernels/tree_builder.cu:92-113 | the two children of a node cover its range up to and from the split |
| `GapTrees.OwnerOfSplit` | gpu/cuda_kernels/tree_builder.cu:64-113 | the node split at a gap is determined by the gap alone (Owner inverts Split) |
| `GapTrees.SplitOfOwner` | gpu/cuda_kernels/tree_builder.cu:64-113 | every gap is the split of exactly the node that Owner names (Split inverts Owner) |
| `GapTrees.ParentIsLarger` | gpu/cuda_kernels/tree_builder.cu:87-113 | a parent covers its child and is strictly larger, so there are no cycles |
| `GapTrees.ChildOfParent` | gpu/cuda_kernels/tree_builder.cu:87-113 | every node with a parent is one of the two children that its parent recorded |
| `RadixTree.OnlyTwoChildren` | gpu/cuda_kernels/tree_builder.cu:100-113 | a node has two different children and no third node takes it for its parent |
| `RadixTree.ComputeNode` | gpu/cuda_kernels/tree_builder.cu:87-100 | one thread computes its split, range, children and prefix without any other thread's results |
| `RadixTree.BuildTreeThread` | gpu/cuda_kernels/tree_builder.cu:87-113 | a thread writes its own record and the parent links of its two children, and nothing else |
| `RadixTree.BuildTreeKernel` | gpu/cuda_kernels/tree_builder.cu:87-113 | with the threads in any order the arrays end up with every node record and every parent link |
| `RadixTree.BuildTree` | gpu/cuda_kernels/tree_builder.cu:303-352 | for every sorted key array of at most 2^30 keys the kernel leaves exactly the records and parent links of the tree, one leaf included, and no int overflows |
| `Ints.RadixNodesFit` | gpu/cuda_kernels/tree_builder.cu:328-328 | the node count 2N - 1 fits an int if and only if there are at most 2^30 leaves |
| `RadixTree.ParallelTreeIsTopDown` | gpu/cuda_kernels/tree_builder.cu:87-113 | read from any node down, the independently written links are the tree obtained by cutting its range recursively at the lowest gap |
| `RadixTree.LeavesOfNode` | gpu/cuda_kernels/tree_builder.cu:95-100 | the leaves linked below an internal node are exactly its recorded contiguous range, in order |
| `RadixTree.RootCoversAll` | gpu/cuda_kernels/tree_builder.cu:87-113 | one node only has no parent; it is internal node 0, or leaf 0 for a single key, and it covers all leaves |
| `RadixTree.OneTree` | gpu/cuda_kernels/tree_builder.cu:303-352 | the whole array is one tree whose leaves are 0 to N-1 in order |
| `LeafGroups.RunLengthEncode` | gpu/cuda_kernels/morton_leaf_groups.cu:58-80 | runs of equal keys: distinct keys in order, positive lengths, nothing left over |
| `Scan.ExclusiveSum` | gpu/cuda_kernels/morton_leaf_groups.cu:80-102 | the exclusive scan as a loop |
| `Scan.SegmentIsUnique` | gpu/cuda_kernels/radix_to_octree.cu:221-227 | a running index lies in one segment of a scan only |
| `LeafGroups.BuildMortonLeafGroups` | gpu/cuda_kernels/morton_leaf_groups.cu:58-103 | unique keys with first position and count of each group, for every sorted key array |
| `LeafGroups.GroupOfPosition` | gpu/cuda_kernels/morton_leaf_groups.cu:76-102 | every sorted position lies in the range of exactly one group, and that group has its key |
| `LeafGroups.GroupingIsUnique` | gpu/cuda_kernels/morton_leaf_groups.cu:58-103 | there is only one grouping of a sorted array |
| `OctreePlan.LevelBounds` | gpu/cuda_kernels/radix_to_octree.cu:64-68 | levels never shrink from parent to child and stay in 0 to 10; a leaf lies one level below its parent, not at level 10 |
| `OctreePlan.CellOfEdge` | gpu/cuda_kernels/radix_to_octree.cu:104-144 | the keys inside a cell that a radix edge emits are exactly the keys below the radix node |
| `OctreePlan.CellNamesEdge` | gpu/cuda_kernels/radix_to_octree.cu:104-144 | no two edges emit the same cell |
| `OctreePlan.NothingBelowLeaf` | gpu/cuda_kernels/radix_to_octree.cu:116-131 | no cell is emitted below the level at which a key is first alone |
| `OctreePlan.PlanSucceedsForUniqueKeys` | gpu/cuda_kernels/radix_to_octree.cu:70-145 | no planning thread reports an error if and only if the keys strictly increase and fit 30 bits |
| `PlanBuilder.PlanKernel` | gpu/cuda_kernels/radix_to_octree.cu:70-145 | every thread writes its own entry; the error cell is zero exactly if no thread fails, and otherwise the code of a failing thread |
| `PlanBuilder.AssignIds` | gpu/cuda_kernels/radix_to_octree.cu:221-243 | ids by the scan, the root first; too many nodes are reported |
| `PlanBuilder.BuildPlan` | gpu/cuda_kernels/radix_to_octree.cu:174-244 | the plan exists exactly for strictly increasing 30-bit keys, and then it is the plan; the overflow error is unreachable |
| `OctreeSize.NodeCountFitsInt` | gpu/cuda_kernels/radix_to_octree.cu:228-243 | however many keys there are, the octree has at most 1227133513 nodes, so the int check never fires |
| `Ints.SlotsFit` | gpu/cuda_kernels/octree_builder.cu:193-193 | every index of a child slot, parent * 8 + octant, fits an int if and only if the octree has at most 2^28 nodes |
| `OctreeLimits.FewKeysFit` | gpu/cuda_kernels/radix_to_octree.cu:228-243 | up to 124630747 distinct keys, wherever they lie, the octree has at most 2^28 nodes |
| `OctreeLimits.ManyKeysDoNotFit` | gpu/cuda_kernels/radix_to_octree.cu:228-243 | an octree has more nodes than keys, so from 2^28 distinct keys on the slots never fit |
| `OctreeLimits.CountableNodesButNotSlots` | gpu/cuda_kernels/radix_to_octree.cu:239-243 | a concrete array of 2^28 keys whose node count passes the int check although its child slots overflow |
| `OctreeIds.CellNamesId` | gpu/cuda_kernels/octree_builder.cu:176-201 | two ids never stand for the same cell |
| `OctreeIds.CellOfParent` | gpu/cuda_kernels/octree_builder.cu:130-201 | the cell of a node is an octant of the cell of its parent id |
| `OctreeIds.CellTableIsGood` | gpu/cuda_kernels/octree_builder.cu:87-224 | the numbered cells form one linked octree over the keys: each holds its keys, hangs from its parent, and every divided cell has a child for each of its keys |
| `OctreeBuilder.FindParentNode` | gpu/cuda_kernels/octree_builder.cu:130-172 | the climb past ancestors whose edges emit nothing ends at the right parent id, without an error |
| `OctreeBuilder.ClaimSlot` | gpu/cuda_kernels/octree_builder.cu:190-200 | the octant that a node claims is still free, whatever has been written before |
| `OctreeBuilder.EmitNode` | gpu/cuda_kernels/octree_builder.cu:176-201 | one node and its octant are written, all others left alone, without an error; up to 2^28 nodes the slot index fits an int |
| `OctreeBuilder.EmitNodes` | gpu/cuda_kernels/octree_builder.cu:174-208 | the loop over the levels of one edge writes exactly the chain of cells of the edge |
| `OctreeBuilder.MaterializeThread` | gpu/cuda_kernels/octree_builder.cu:87-224 | a thread writes the nodes of its edge and no others, reports none of the errors 1 to 7, and gives a leaf its particle range |
| `OctreeBuilder.MaterializeNext` | gpu/cuda_kernels/octree_builder.cu:87-224 | after any set of threads the written ids are those of these threads, each written once |
| `OctreeBuilder.MaterializeKernel` | gpu/cuda_kernels/octree_builder.cu:87-224 | in any thread order all nodes and all child slots of an octree of at most 2^28 nodes get written and the error cell stays zero |
| `OctreeBuilder.BuildSparseOctree` | gpu/cuda_kernels/octree_builder.cu:254-362 | the host call yields the octree of the numbered cells and no error, up to 2^28 nodes |
| `OctreeBuilder.OctreeIsUnique` | gpu/cuda_kernels/octree_builder.cu:87-224 | the finished arrays do not depend on the order of the threads |
| `OctreeShape.ParallelOctreeIsTopDown` | gpu/cuda_kernels/octree_builder.cu:87-224 | read from any node down, the arrays are the recursive division of its cell |
| `OctreeShape.OctreeIsTopDown` | gpu/cuda_kernels/octree_builder.cu:87-224 | the octree is: the root; every cell with at least two keys divided into eight; every other non-empty cell a leaf with the particle range of its key |
| `OctreeTrees.MaterializedOctreeIsWellFormed` | gpu/cuda_kernels/octree_builder.cu:87-224 | parent and child links agree, levels grow by one, leaves hold particles and inner nodes children |
| `OctreeTrees.MaterializedLeavesPartition` | gpu/cuda_kernels/octree_builder.cu:210-223 | the particle ranges of the occupied leaves share out all sorted positions |
| `Forests.FirstTraversalChild` | gpu/cuda_kernels/barnes_hut.cu:90-112 | the first child of an opened node starts a walk over its children, highest octant first, followed by what was left |
| `Forests.NextTraversalNode` | gpu/cuda_kernels/barnes_hut.cu:115-162 | from parent and child links alone the next node is where a recursive walk goes on after the whole subtree |
| `BarnesHut.AccumulatePointMass` | gpu/cuda_kernels/barnes_hut.cu:56-80 | adds one pull, and fails exactly for a source with mass at softened distance zero |
| `BarnesHut.EvaluateParticle` | gpu/cuda_kernels/barnes_hut.cu:229-249 | one particle of a leaf; the target is left out |
| `BarnesHut.EvaluateLeaf` | gpu/cuda_kernels/barnes_hut.cu:227-249 | the particles of a leaf in order |
| `BarnesHut.VisitLeaf` | gpu/cuda_kernels/barnes_hut.cu:206-257 | an occupied leaf is always evaluated particle by particle |
| `BarnesHut.VisitWhole` | gpu/cuda_kernels/barnes_hut.cu:203-310 | a visited node is opened exactly if it is inner, has mass and is not accepted; otherwise it is dealt with whole |
| `BarnesHut.Visit` | gpu/cuda_kernels/barnes_hut.cu:192-316 | one turn of the loop: what has been evaluated plus what lies ahead stays the recursive traversal, the nodes visited plus those ahead stay its path, and what lies ahead gets smaller |
| `BarnesHut.AccelerationOfTarget` | gpu/cuda_kernels/barnes_hut.cu:164-322 | the stackless loop ends; it visits the nodes of the recursive pre-order walk, opened nodes included, one by one in that order (octants 7 to 0), evaluates the items of that walk in order, sums their pulls, and fails exactly if one of them is singular |
| `Coverage.CountBelow` | gpu/cuda_kernels/barnes_hut.cu:192-316 | a position lies below a node once if its leaf does and otherwise not at all |
| `Coverage.RootHoldsEachOnce` | gpu/cuda_kernels/barnes_hut.cu:192-316 | the leaves below the root hold every sorted position once |
| `Accounting.EachParticleOnce` | gpu/cuda_kernels/barnes_hut.cu:192-316 | for every theta and target each position is disposed of exactly once: singly, in one accepted node, or under one massless node |
| `Accounting.TargetIsNeverAbsorbed` | gpu/cuda_kernels/barnes_hut.cu:279-294 | the target is never part of a node that is taken as a point mass |
| `Accounting.EvaluatedMassIsOtherMass` | gpu/cuda_kernels/barnes_hut.cu:192-316 | the evaluated mass is the root's mass minus the target's, for every theta |
| `DirectSum.ZeroAngleIsAllPairs` | gpu/cuda_kernels/barnes_hut.cu:281-316 | with theta zero the traversal sums to the pulls of all other particles |
| `DirectSum.GatheringKeepsAllPairs` | gpu/cuda_kernels/simulation.cu:34-58 | the sum over gathered, Morton-ordered data is the sum over data in original order |
| `OpeningAngle.AcceptedAtLargerAngle` | gpu/cuda_kernels/barnes_hut.cu:273-315 | a node accepted at a smaller theta is accepted at a larger one |
| `OpeningAngle.SmallerAngleRefines` | gpu/cuda_kernels/barnes_hut.cu:273-315 | everything evaluated at the smaller theta lies inside something evaluated at the larger one |
| `Accelerations.AccelerationThread` | gpu/cuda_kernels/barnes_hut.cu:164-322 | a thread writes the original index of its target and no other |
| `Accelerations.ComputeBarnesHutAcceleration` | gpu/cuda_kernels/barnes_hut.cu:325-390 | in any thread order every output is the force on its particle, for gathered or original data; the call fails exactly if some thread does |
| `Accelerations.EveryOutputWrittenOnce` | gpu/cuda_kernels/barnes_hut.cu:318-322 | every output index belongs to exactly one thread |
| `Accelerations.ZeroAngleForce` | gpu/cuda_kernels/barnes_hut.cu:164-322 | with theta zero the output for a Morton position is the all-pairs sum at its original index |
| `Moments.TreeMomentIsMoment` | gpu/cuda_kernels/octree_physics.cu:206-240 | mass, and mass times centre, of a node are the sums over the particles below it, massless nodes included |
| `Moments.CenterOfMassInCube` | gpu/cuda_kernels/octree_physics.cu:206-240 | a node with mass has its centre of mass in every cube that holds its particles |
| `MassKernels.CountThread` | gpu/cuda_kernels/octree_physics.cu:64-93 | the number of occupied octants is the number of nodes that name this one as parent |
| `MassKernels.CountOctreeChildren` | gpu/cuda_kernels/octree_physics.cu:64-93 | all child counts are right and no error is reported |
| `MassKernels.LeafThread` | gpu/cuda_kernels/octree_physics.cu:95-154 | mass and centre of one leaf over its sorted particle range |
| `MassKernels.InitializeOctreeLeaves` | gpu/cuda_kernels/octree_physics.cu:95-154 | every occupied leaf gets its mass and centre |
| `MassPropagation.StepKeeps` | gpu/cuda_kernels/octree_physics.cu:156-245 | the invariant of the climbing threads survives every step of every thread: counters exact, announced nodes final, every finished node in one thread's hands, error 0 |
| `MassPropagation.ArrivalCounts` | gpu/cuda_kernels/octree_physics.cu:185-205 | an arrival never overshoots the counter (error 7 is unreachable) and elects its thread exactly if it is the last child |
| `MassPropagation.ArrivalKeeps` | gpu/cuda_kernels/octree_physics.cu:185-205 | the atomic add keeps the invariant, whoever is elected |
| `MassPropagation.ReadKeeps` | gpu/cuda_kernels/octree_physics.cu:206-224 | a child read by the elected thread is already final, under every interleaving |
| `MassPropagation.WriteKeeps` | gpu/cuda_kernels/octree_physics.cu:226-244 | the parent is written once, after all its children, with its final value |
| `MassPropagation.EveryRunIsKept` | gpu/cuda_kernels/octree_physics.cu:156-245 | the invariant holds along every run, and each step uses up some of the rank of the first state |
| `MassPropagation.RunsAreShort` | gpu/cuda_kernels/octree_physics.cu:156-245 | a run of the pass from its initial state keeps the invariant throughout and has at most 102 steps for each node of the octree |
| `MassPropagation.StepLowersRank` | gpu/cuda_kernels/octree_physics.cu:156-245 | every step lowers a rank, so every schedule ends |
| `MassPropagation.EveryNodeDone` | gpu/cuda_kernels/octree_physics.cu:156-245 | when no thread can go on, every node is final and announced: no election is ever missed |
| `MassPropagation.EndedIsComplete` | gpu/cuda_kernels/octree_physics.cu:156-245 | any ended run has all final moments, full counters, and each inner node aggregated once |
| `MassPropagation.Propagate` | gpu/cuda_kernels/octree_physics.cu:156-245 | under an arbitrary scheduler the pass ends complete |
| `OctreeMasses.NetIsGood` | gpu/cuda_kernels/octree_physics.cu:283-337 | the octree of the builder, with its counted children, meets what the pass relies on |
| `OctreeMasses.ComputeOctreeMassAndCenterOfMass` | gpu/cuda_kernels/octree_physics.cu:283-337 | counting, leaves and propagation leave the moment of its own tree at every node, under every schedule, without an error |
| `BoundingBox.ReductionIsTight` | gpu/cuda_kernels/globalbounding.cu:43-56 | every grouping of the bounds reduction gives the tight bounds of its points |
| `BoundingBox.ReductionsAgree` | gpu/cuda_kernels/globalbounding.cu:94-121 | two reductions of the same points agree, whatever their shape |
| `BoundingBox.BoundsFitTightly` | gpu/cuda_kernels/globalbounding.cu:43-56 | the reduced bounds hold all points and are met by a point on each of the six faces |
| `BoundingBox.RootCubeIsSnug` | gpu/cuda_kernels/globalbounding.cu:122-136 | the cube is centred midway between the outermost points, and on some axis 1.1 times their distance from the centre is its half size; points that coincide get the unit cube |
| `BoundingBox.ComputeBox` | gpu/cuda_kernels/globalbounding.cu:94-144 | the padded cube around the tight bounds, as snug as that, independent of how the device groups the reduction; no points are refused |
| `BoundingBox.PointsKeepClear` | gpu/cuda_kernels/globalbounding.cu:122-136 | every point keeps clear of the faces of the cube by the padding |
| `MortonBits.KeyWordIsInterleave` | gpu/cuda_kernels/morton.cu:119-139 | the shift-and-mask words are the bitwise interleaving of three ten-bit coordinates |
| `MortonBits.KeyOfWords` | gpu/cuda_kernels/morton.cu:119-139 | for three numbers of ten bits the shift-and-mask word of their 32-bit words has exactly the interleaved key as its value |
| `MortonBits.ShiftOfInterleave` | gpu/cuda_kernels/morton.cu:130-139 | dropping octal digits of the key drops as many bits of each coordinate |
| `MortonBits.InterleaveIsInjective` | gpu/cuda_kernels/morton.cu:119-139 | equal keys come from equal coordinates |
| `MortonKeys.ClampIsIdle` | gpu/cuda_kernels/morton.cu:98-117 | inside the padded cube the clamps of normalising and quantising never act |
| `MortonKeys.QuantisedInStep` | gpu/cuda_kernels/morton.cu:98-117 | a coordinate lies in the step of its quantised value |
| `MortonKeys.AxisHolds` | gpu/cuda_kernels/octree_geometry.cu:80-100 | halving along the bits of the quantised value keeps the coordinate inside, on every level |
| `OctreeGeometry.ValidPrefixesAreCells` | gpu/cuda_kernels/octree_geometry.cu:39-53 | the prefix check accepts exactly the prefixes of cells of the level |
| `OctreeGeometry.CubeOfAxes` | gpu/cuda_kernels/octree_geometry.cu:56-102 | the walk along octal digits is the three walks along the bits of the coordinates |
| `OctreeGeometry.PointInItsCube` | gpu/cuda_kernels/octree_geometry.cu:56-102 | on every level a point lies in the cube that its own key leads to |
| `OctreeGeometry.PointInCubeOfCell` | gpu/cuda_kernels/octree_geometry.cu:56-102 | a point lies in the cube of every node whose prefix its key extends |
| `OctreeGeometry.GeometryThread` | gpu/cuda_kernels/octree_geometry.cu:56-102 | the loop over the digits computes the cube of the prefix, or the error of an invalid node |
| `OctreeGeometry.ComputeOctreeGeometry` | gpu/cuda_kernels/octree_geometry.cu:137-172 | all nodes in any order; fails exactly if some node is invalid |
| `StableSort.SortingIsStable` | gpu/cuda_kernels/morton.cu:221-224 | the order is a permutation that sorts the keys and keeps equal keys in place order |
| `StableSort.StableOrderIsUnique` | gpu/cuda_kernels/morton.cu:221-224 | every stable sort gives this order |
| `StableSort.StableSortByKey` | gpu/cuda_kernels/morton.cu:221-224 | the insertion loop yields the stable order and the sorted keys |
| `SpatialStructure.GroupKeysAreUnique` | src/simulation.cpp:137-180 | the grouped keys of any particles meet what the tree builders ask for |
| `SpatialStructure.OctreeIsGood` | src/simulation.cpp:137-180 | the octree of any particles is well formed and its leaves share out the sorted positions |
| `SpatialStructure.OctreeOfBodiesIsTopDown` | src/simulation.cpp:137-180 | the octree that the whole pipeline builds from any particles is the recursive division of their keys |
| `SpatialStructure.StructureIsSound` | src/simulation.cpp:137-180 | box, order, octree, cubes and moments together meet what the force kernel relies on |
| `SpatialStructure.MemberInCube` | gpu/cuda_kernels/octree_geometry.cu:56-102 | every particle below an octree node lies in the cube of the node |
| `MortonKernels.NormaliseKernel` | gpu/cuda_kernels/morton.cu:98-103 | every coordinate is normalised against the box, by threads in any order |
| `MortonKernels.QuantiseKernel` | gpu/cuda_kernels/morton.cu:105-117 | every normalised coordinate becomes the word of its clamped grid cell |
| `MortonKernels.InterleaveBits` | gpu/cuda_kernels/morton.cu:119-139 | every output is the shift-and-mask combination of the three words |
| `MortonKernels.CreateKeys` | gpu/cuda_kernels/morton.cu:160-220 | the stages one after the other: the value of each computed word is the interleaved key of its particle |
| `Pipeline.SortKeys` | gpu/cuda_kernels/morton.cu:160-225 | keys and original indices in the stable order |
| `Pipeline.ComputeOrder` | src/simulation.cpp:137-147 | box, keys and stable order one after the other, whatever the grouping of the reduction |
| `Pipeline.BuildTopology` | src/simulation.cpp:147-159 | grouping, radix tree, plan and octree succeed one after the other for any particles whose octree has at most 2^28 nodes |
| `Pipeline.FewParticlesAreCountable` | src/simulation.cpp:147-159 | up to 124630747 particles, wherever they are, the octree has at most 2^28 nodes |
| `Pipeline.GeometryNeverFails` | gpu/cuda_kernels/octree_geometry.cu:39-102 | no node of a built octree fails the prefix check |
| `Pipeline.RebuildSpatialStructure` | src/simulation.cpp:137-180 | the rebuild never fails for finite positions whose octree has at most 2^28 nodes, and yields the structure of the particles, whatever the grouping of the reduction |
| `Pipeline.ComputeAccelerations` | src/simulation.cpp:182-198 | gather and force kernel write the accelerations of the particles at their original indices |
| `Pipeline.SceneIsPhysical` | src/simulation.cpp:182-198 | what the force kernel finds satisfies the hypotheses of all traversal theorems |
| `Forces.ZeroAngleIsDirectSum` | gpu/cuda_kernels/barnes_hut.cu:164-322 | end to end: with theta zero the acceleration of every particle is the direct all-pairs sum, which needs no tree |
| `Forces.TraversalAccountsForAll` | gpu/cuda_kernels/barnes_hut.cu:192-316 | end to end, for every theta: each particle disposed of once, the target never absorbed, evaluated mass the total minus the target's |
| `Forces.CentersOfMassLieInTheirCubes` | gpu/cuda_kernels/octree_physics.cu:206-240 | end to end: every node with mass has its centre of mass in its own cube |
| `Forces.FailsExactlyOnCoincidence` | gpu/cuda_kernels/barnes_hut.cu:56-80 | the force evaluation fails if and only if two particles share a position, the source has mass and nothing is softened |
| `Newton.StrengthIsUnique` | gpu/cuda_kernels/barnes_hut.cu:56-80 | at a softened distance other than zero only one factor has the square and the sign that Newton's law asks for |
| `Newton.PullIsDetermined` | gpu/cuda_kernels/barnes_hut.cu:164-322 | Newton's law leaves one acceleration only: sums of pulls with the right strengths agree |
| `Gravitation.StrengthIsNewtonian` | gpu/cuda_kernels/barnes_hut.cu:56-80 | a pull that is not singular has the strength of Newton's law: squared, times the cube of the softened squared distance, it is the square of constant times mass, with the same sign |
| `Gravitation.ZeroAngleIsNewtonian` | src/simulation.cpp:182-198 | end to end, over masses and places alone: with theta zero the acceleration of particle i is the sum over all others of strength times x[j] - x[i] |
| `Gravitation.AnyAngleIsNewtonian` | src/simulation.cpp:182-198 | end to end, for every theta: the other particles fall into groups, each particle into one; a group is a single particle, or has no mass, or lies in a cube that appears smaller than theta and leaves the target outside; the acceleration is the sum of Newton's pulls of the groups by their masses and centres of mass |
| `Gravitation.EvaluatesExactly` | gpu/cuda_kernels/barnes_hut.cu:56-80 | places can be evaluated if and only if the softening is positive or no particle shares its place with a massive one |
| `Gravitation.StructureHouses` | src/simulation.cpp:137-180 | the structure built of masses and places has each particle at one sorted position, and x[i] in the cubes of all nodes above it |
| `Gravitation.StructureWeighsAll` | gpu/cuda_kernels/octree_physics.cu:95-244 | every node has the mass and the mass times centre of the particles below it, and without mass its centre is the origin |
| `FarField.PullIsNewtonian` | gpu/cuda_kernels/barnes_hut.cu:56-80 | the pull is along the line to the source and towards it, with the strength of Newton's law at the softened distance |
| `FarField.AcceptedNodeAppearsSmall` | gpu/cuda_kernels/barnes_hut.cu:276-294 | an accepted node appears smaller than theta, seen both from its centre of mass and from its own centre |
| `FarField.PointMassesAppearSmall` | gpu/cuda_kernels/barnes_hut.cu:192-316 | end to end: so does every node that the traversal takes as a point mass |
| `FarField.ContainmentTestMatters` | gpu/cuda_kernels/barnes_hut.cu:279-294 | the check for the target inside the node is needed if and only if theta exceeds two over the square root of three |
| `FarField.AcceptsByDistance` | gpu/cuda_kernels/barnes_hut.cu:279-294 | up to that angle the acceptance test is its distance part alone |
| `FarField.AcceptsExactly` | gpu/cuda_kernels/barnes_hut.cu:273-294 | for every theta: a node is accepted if and only if the target lies outside its cube and the cube appears smaller than theta from a point nearer by the distance of its two centres |
| `Leapfrog.StepIsReversible` | gpu/cuda_kernels/integrator.cu:51-106 | one step, velocities negated, one step more gives the start with velocities negated |
| `Leapfrog.RunIsReversible` | src/simulation.cpp:100-127 | the same for n steps, for any force that depends on positions alone |
| `Leapfrog.ReversedRunSucceeds` | src/simulation.cpp:100-127 | a run that succeeded also succeeds on its way back |
| `Leapfrog.MomentumIsConserved` | gpu/cuda_kernels/integrator.cu:51-106 | with balanced forces total momentum stays and the centre of mass moves with it, over n steps |
| `Leapfrog.ElapsedIsProduct` | src/simulation.cpp:111-112 | adding dt n times gives n times dt |
| `Leapfrog.ConstantFieldIsExact` | gpu/cuda_kernels/integrator.cu:51-106 | in a field that does not depend on positions n steps follow the exact parabola, whatever the time step |
| `Leapfrog.HalfSquareIs` | gpu/cuda_kernels/integrator.cu:51-106 | the quadratic term of that parabola is half the square of the elapsed time |
| `Conservation.PairForcesCancel` | gpu/cuda_kernels/barnes_hut.cu:56-80 | action and reaction of two particles, massless ones included |
| `Conservation.SquareCancels` | gpu/cuda_kernels/barnes_hut.cu:56-80 | all entries of an antisymmetric square cancel |
| `Conservation.DirectSumsCancel` | gpu/cuda_kernels/barnes_hut.cu:164-322 | the direct sums on all particles, weighted with their masses, cancel |
| `Conservation.ZeroAngleIsBalanced` | src/simulation.cpp:182-198 | with theta zero the forces of the whole pipeline are balanced |
| `Conservation.SimulationIsReversible` | src/simulation.cpp:100-127 | for every theta and n: n steps of the whole pipeline, velocities negated, n steps more return to the start |
| `Conservation.SimulationConservesMomentum` | src/simulation.cpp:100-127 | with theta zero every run keeps total momentum, and mass times position advances by time times momentum |
| `Simulations.PipelineGoverns` | src/simulation.cpp:137-198 | the law of motion used by the class is the one computed by the pipeline |
| `Simulations.Simulation.ReadyIsAttracted` | src/simulation.cpp:78-119 | in every ready state the structure houses and weighs the particles where they are, and the accelerations are those of Newton's law at these places |
| `Simulations.ModelFollows` | src/simulation.cpp:21-43 | the law of a configuration, in its own terms: its time step; it evaluates places exactly if the softening is positive or no massive particle shares a place; its structure houses and weighs the particles; its accelerations are Newton's, softened by the square of the softening length, for theta zero as a sum over all others and for any theta in groups that appear smaller than theta |
| `Simulations.Create` | src/simulation.cpp:21-43 | a simulation comes into being exactly for a positive time step, theta and softening not negative and 1 to 2^31 - 1 particles; its law follows the configuration in the sense above |
| `Simulations.Simulation.constructor` | src/simulation.cpp:70-74 | a new simulation is created, holds the particles and has no structure; up to 124630747 particles it satisfies the class invariant |
| `Simulations.Simulation.UpdatePositions` | gpu/cuda_kernels/integrator.cu:51-83 | half kick and drift in place |
| `Simulations.Simulation.UpdateVelocities` | gpu/cuda_kernels/integrator.cu:86-106 | second half kick in place, with the new accelerations |
| `Simulations.Simulation.Rebuild` | src/simulation.cpp:137-180 | the staged rebuild replaces the structure by that of the present positions, or leaves the old one whole |
| `Simulations.Simulation.ComputeNextAccelerations` | src/simulation.cpp:182-198 | the second buffer gets the accelerations that the law assigns to the present positions, or the call fails; what the law assigns is said by Gravitation.ZeroAngleIsNewtonian and AnyAngleIsNewtonian |
| `Simulations.Simulation.Refresh` | src/simulation.cpp:106-107 | structure and next accelerations belong to the same positions |
| `Simulations.Simulation.SwapAccelerationBuffers` | gpu/cuda_kernels/simulation.cu:138-142 | the two buffers change places and nothing is copied |
| `Simulations.Simulation.Initialize` | src/simulation.cpp:78-98 | from created to ready or failed; a failure releases the structure; any other state is refused unchanged; once ready the accelerations are those of Newton's law at the places of the particles |
| `Simulations.Simulation.FinishStep` | src/simulation.cpp:108-112 | second kick, swap, time and step number; nothing of it after a failure of the kick |
| `Simulations.Simulation.CatchUp` | src/simulation.cpp:106-112 | rebuild, forces and second kick after the drift, with exactly the failures that can stop it |
| `Simulations.Simulation.Advance` | src/simulation.cpp:100-119 | a step that succeeds is one step of the law and leaves buffers, structure and time current |
| `Simulations.Simulation.Step` | src/simulation.cpp:100-119 | from ready to ready by exactly one step of the law, or to failed for good; refused unchanged in any other state; a successful step leaves every particle housed and its acceleration Newton's at the new places |
| `Simulations.Simulation.Run` | src/simulation.cpp:121-127 | so many steps of the law as the step number says; it succeeds if these are all, leaving structure and accelerations as a step does, and otherwise has failed because the next step has a fault or positions that cannot be evaluated |
| `FrameNames.NamesSortBySequence` | src/streaming/frame.cpp:123-129 | names of one session sort like their 64-bit sequence numbers, because of the padding |
| `FrameNames.NamesAreUnique` | src/streaming/frame.cpp:123-129 | a name determines its session and number |
| `FrameNames.NameSpellsSequence` | src/streaming/frame.cpp:123-129 | a name is the session between fixed words, and twenty decimal digits that spell the number |
| `Transfer.AnythingCanHappen` | src/streaming/network.cpp:414-541 | at any time new names can be published and connections can break, an unconnected client can connect in either mode, and a complete frame can outlive its server: no run of these is left out |
| `Transfer.StepKeeps` | src/streaming/network.cpp:310-395 | every event, the late rename of a client whose server has gone included, keeps every frame whose name was not used again for other content: queued, or whole and valid at some client |
| `Transfer.NothingIsLost` | src/streaming/network.cpp:414-541 | the same in every state of every run, with connections breaking at any event on either side |
| `Transfer.WithoutConflictNothingIsLost` | src/streaming/network.cpp:414-541 | a run in which no name gets two different contents keeps every frame at all times |
| `Transfer.NothingIsLostExactly` | src/streaming/network.cpp:310-541 | for every list of valid publications: all runs that publish it keep every frame at all times if and only if no name occurs in it with two different contents |
| `Transfer.ReuseCanLose` | src/streaming/network.cpp:347-395 | an instance: a delivered frame is lost to a later publication of its name that no client accepts |
| `Transfer.AcknowledgementsAscend` | src/streaming/network.cpp:291-308 | with increasing numbers, the acknowledgements of a session ascend over the whole run, across reconnects |
| `Transfer.OrderlyRunsLoseNothing` | src/streaming/network.cpp:414-541 | if every session numbers its frames upwards, no published frame is ever lost |
| `Listings.ListingExists` | src/streaming/network.cpp:291-308 | every spool of frames with 64-bit numbers has a listing in the order of its names |
| `Listings.ListingIsUnique` | src/streaming/network.cpp:291-308 | and only one |
| `TransferProgress.StepInRound` | src/streaming/network.cpp:428-437 | every event of a connection keeps to its listing: so many frames handed over, acknowledged in order and held by the client, the others still queued and next in order |
| `TransferProgress.PassIsComplete` | src/streaming/network.cpp:424-445 | when a connection comes to the end of a listing, whatever was published meanwhile, each listed frame has been acknowledged in order, is held valid by the client, and has left the spool unless its name was published again |
| `TransferProgress.BacklogIsHandedOver` | src/streaming/network.cpp:422-442 | a client in backlog mode is dismissed only after every frame listed when it connected has been handed over to it |
| `TransferProgress.UsefulStepLowersWork` | src/streaming/network.cpp:428-447 | in either mode every event but looking into an empty spool lowers the work left, a natural number |
| `TransferProgress.UsefulStepsAreFew` | src/streaming/network.cpp:428-447 | a connection left alone makes at most as many useful steps as there was work |
| `TransferProgress.LeftAloneAllIsDelivered` | src/streaming/network.cpp:414-456 | progress in either mode, from every reachable state about to go through its spool or idling in follow mode: left alone until nothing useful is possible, the spool is empty, the client holds every frame of it, the acknowledgements have grown by the listing in order; a following client is still connected, the other dismissed |
| `TransferProgress.LateFrameArrives` | src/streaming/network.cpp:347-395 | a client whose server has gone may still rename the frame it had received in full, which stays queued as well |
| `Sampling.SampleIsIncreasing` | src/streaming/device_capture.cu:51-52 | the sample picks existing particles, strictly in order, for samples up to the number of particles |
| `Sampling.PicksAreSpread` | src/streaming/device_capture.cu:51-52 | sample i is the particle k with k * samples <= i * sources < (k + 1) * samples, and the k increase strictly |
| `Sampling.SpreadIsUnique` | src/streaming/device_capture.cu:51-52 | there is only one such choice |
| `Sampling.ProductsFit` | src/streaming/device_capture.cu:51-52 | no product of a sample number and the source count wraps in 64 bits if and only if the last one does not |
| `Sampling.WrapIsIdle` | src/streaming/device_capture.cu:51-52 | with at most 2^31 - 1 sources the wrapping 64-bit product gives the index of the unbounded one |
| `Sampling.FullSample` | src/streaming/device_capture.cu:51-52 | without subsampling every particle is its own sample |
| `Sampling.QuantizationError` | src/streaming/device_capture.cu:107-115 | decoding misses by at most half of a 65535th of the range |
| `Sampling.RequantizationIsStable` | src/streaming/device_capture.cu:107-115 | encoding a decoded code gives the code back |
| `Sampling.BoundsAreExact` | src/streaming/frame.cpp:663-677 | both bounds are decoded exactly, an empty range included |
| `Sampling.QuantizeIsMonotone` | src/streaming/device_capture.cu:107-115 | codes keep the order of the coordinates |
| `DeviceCapture.BlockReduce` | src/streaming/device_capture.cu:69-104 | halving the stride in place leaves the combination of the whole block in its first entry |
| `DeviceCapture.BlockBounds` | src/streaming/device_capture.cu:27-105 | one block, its threads beyond the end included |
| `DeviceCapture.SampleIsSpread` | src/streaming/device_capture.cu:51-55 | the captured points are the particles at these evenly spread places of the source |
| `DeviceCapture.CaptureBounds` | src/streaming/device_capture.cu:248-299 | the tight bounds of the particles at evenly spread places, whatever the sizes of chunks and blocks |
| `DeviceCapture.Capture` | src/streaming/device_capture.cu:244-328 | bounds first, tight around the particles at evenly spread places; then for each of these a code that decodes to within half a step of its place |
| `DeviceCapture.CapturedError` | src/streaming/device_capture.cu:107-137 | the code of every captured coordinate decodes to within half a step of the bounds |
| `ByteFields.NumberOfLittle` | src/streaming/frame.cpp:30-51 | reading little-endian bytes undoes writing them |
| `ByteFields.WriteLittleEndian` | src/streaming/frame.cpp:30-37 | the byte loop |
| `ByteFields.FieldOfRecord` | src/streaming/frame.cpp:39-51 | every field of a record is read back at its offset, whatever follows |
| `ByteFields.EightBytes` | src/streaming/frame.cpp:39-51 | a number of eight bytes is the sum of its bytes times 1, 2^8, up to 2^56 |
| `ByteFields.WriteChunks` | src/streaming/frame.cpp:275-300 | the payload does not depend on the chunk size |
| `FrameFormat.HeaderHasItsLength` | src/streaming/frame.cpp:68-95 | each of the four layouts has the length it announces |
| `FrameFormat.HeaderIsParsed` | src/streaming/frame.cpp:507-612 | whatever follows it, a written header is parsed back field by field; so no two layouts overlap |
| `FrameCodec.WriteTypes` | src/streaming/frame.cpp:210-338 | the type loop fails exactly at a type above 4 |
| `FrameCodec.TypedIsFloatFile` | src/streaming/frame.cpp:68-95 | every byte of a written float frame: the magic, each number of the frame at its fixed offset by the weights of its bytes, the coordinates, the types |
| `FrameCodec.WriteTypedPositions` | src/streaming/frame.cpp:210-338 | exactly which float frames are accepted, and their bytes in that sense |
| `FrameCodec.QuantizedIsQuantizedFile` | src/streaming/frame.cpp:68-95 | the same of a written quantised frame: sequence at 16, step at 24, bounds from 72 on, two bytes for each code |
| `FrameCodec.WriteQuantizedPositions` | src/streaming/frame.cpp:340-471 | exactly which quantised frames are accepted, and their bytes in that sense |
| `FrameCodec.FloatsWrittenIfReadable` | src/streaming/frame.cpp:210-240 | the writer accepts exactly the float frames whose files the reader accepts, header and types, but for those beyond 64 bits |
| `FrameCodec.CodesWrittenIfReadable` | src/streaming/frame.cpp:340-365 | the same of quantised frames whose payload can be counted |
| `FrameCodec.DecodePositions` | src/streaming/frame.cpp:614-681 | the chunked decoding loop does not depend on the chunk size |
| `FrameCodec.TypedRoundTrip` | src/streaming/frame.cpp:507-720 | a written float frame is read back exactly if its size fits 64 bits: sequence, step, time, count and sources of the frame, total steps of a typed one, values and types |
| `FrameCodec.QuantizedRoundTrip` | src/streaming/frame.cpp:507-720 | the same for quantised frames, with the given bounds, and each code decoded within the bounds of its component |
| `FrameCodec.BrowserAgrees` | apps/browser_viewer/web/frame_parser.mjs:39-164 | whatever the native reader accepts the browser reader decodes to the same result, as long as the payload size is a safe integer |
| `FrameCodec.ReadersAgreeExactly` | apps/browser_viewer/web/frame_parser.mjs:39-164 | what the browser shows the native reader accepts if and only if the header passes the checks that only the native reader makes: sources, finite non-negative time, total steps, typed type count, bounds; what the native reader accepts the browser shows if and only if its types are known and its payload size is a safe integer; what both accept they decode alike |
| `FrameCodec.ShownIsReadExactly` | apps/browser_viewer/web/frame_parser.mjs:39-164 | the first equivalence alone, with equal headers |
| `FrameCodec.DescribedIsReadExactly` | src/streaming/frame.cpp:507-612 | the whole family on which the readers differ: any header that describes its frame and passes the checks of the browser is shown, and refused by the native reader exactly if one of its own checks fails |
| `FrameCodec.BrowserIsLaxer` | apps/browser_viewer/web/frame_parser.mjs:39-164 | instances of it: a float frame with its source count, its time or its total steps replaced is shown by the browser and refused by the native reader |
| `Delivery.WriteCapture` | src/streaming/device_capture.cu:244-328 | capture and writer together: a file exactly when the writer accepts; whoever reads it finds the given sequence, step, time and types, the number of particles, tight bounds, and every coordinate within half a step of the particle at its evenly spread place |
| `Delivery.CaptureIsReadBack` | src/streaming/frame.cpp:507-720 | the same of every captured frame that the writer accepts |
| `Delivery.CapturesAreValid` | src/streaming/network.cpp:529-533 | captured frames pass the check that the client makes before it acknowledges |
| `Delivery.AcknowledgedIsReadable` | src/streaming/network.cpp:529-533 | a client acknowledges only what it holds in full and what passes the reader |
| `Delivery.CapturesSurvive` | src/streaming/network.cpp:414-541 | end to end: at every moment of every run a captured frame whose name was not used again for other content can be read, from the spool or from a client, with its header and each coordinate within half a step of its particle |

## Left out

* The two-child climb on the radix tree (gpu/cuda_kernels/tree_builder.cu:115-233): the
  simulation never calls it, and it is the protocol of `MassPropagation` with two children.
* Launches, streams, allocation, copies, null and double-allocation checks, error texts.
* IEEE rounding, overflow and NaN in positions, masses and forces; positions are finite numbers.
* The memory model of the device below fence-then-add: the four stores of a parent's mass and
  centre are one step, and so are the four loads of one child.
* What the program does beyond its int counters: with more than 2^30 radix leaves, or more than
  2^28 octree nodes, an index overflows (undefined in the source). The methods that compute such
  indices require `|keys| <= MOST_KEYS` or `|nodes| <= MOST_NODES`, and the class invariant asks
  for at most 124630747 particles, which always stay within; above that number it
  depends on where they are.
* Sockets, timeouts, polling, stop requests and the HTTP server: a connection is a channel that
  may break at any step, on either side. A client is one process with a directory of its own; it
  connects again only after the rename of its last connection has happened or is given up.
* The file system: rename is atomic, a listing is a snapshot, a partial file is thrown away.
* The completion marker of a run, the timing of the frame sampler, byte swapping on big-endian
  hosts, and the bounds that the browser computes for display.
* The particle loader, apart from its promise that masses are not negative
  (src/particle.hpp:189-195).
* Kepler orbits, catalogues, downloaders, the Metal and WebGL viewers, command lines.
- Leapfrog.MomentumIsConserved: the centre of mass is stated as mass times position, not divided by the total mass, so that massless systems are included
- MassPropagation.Propagate: the scheduler picks any unfinished thread; stores become visible at once, as the fence promises
- FarField.ContainmentTestMatters: the witness is a cube, a centre of mass in it and a target, not the node of an octree built from particles
- Simulations.Create: an object is made for every count up to 2^31 - 1, as in the source, but its invariant is promised only up to 124630747 particles, where no index can overflow
