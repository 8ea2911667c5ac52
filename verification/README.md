# FAST-LIO: a verified model of its map, its synchroniser and its byte-level helpers

A Dafny project about the parts of the FAST-LIO ROS 2 repository on which the rest relies: the
ikd-Tree that holds the map, the sliding map window, the sensor synchroniser, and from the bundled
Livox SDK the table-driven CRCs, the JSON pool allocator and the JSON document's event round trip.
`dafny verify dfyconfig.toml` checks all of it.

## How the model is laid out

**ikd-Tree.** `KdModel`, `KdBuild`, `KdEdit`, `KdBalance` and `KdLean` describe subtrees as values: all
fields of a node in one record, deletion flags that may be stale, cached ranges and counters. `Live` is what a
subtree means, `WF` the invariant. The heart of `WF` is the rule about pending flags: a flag over a
son is pending only below a deleted node, or over a leaf that was just added and that the flag cannot
harm. `KdNode`, `KdOps`, `KdUpdates`, `KdRangeSearch`, `KdNearest` and `KdTree` are the
imperative form: nodes on the heap with a ghost footprint, recursive methods that return the node that
now heads the subtree, an array-based heap of results. Each method is proved against the function of
the same operation on values. `KdChoices` says which axis, which side
and when to rebuild. `Voxels` is downsampling, `VoxelMeaning` what it does in coordinates, `Balls` the geometry of the radius search,
`KdHistory` whole histories of operations.

**Background rebuild.** `RebuildThread` is a step relation over the real tree values: the main thread
edits and searches the old subtree, the rebuild thread snapshots, builds, replays the log and swaps.
`SearchGate` is the counter protocol that keeps k-nearest searches out of the snapshot and swap
sections, and what it does not keep out. `OpQueue` is the ring buffer of the log, `RebuildLog` the
protocol on that ring.

**Mapping.** `LocalMap` is lasermap_fov_segment, `MapUpdate` map_incremental and the map side of
timer_callback, `MapHistory` runs of it, `SensorSync` the callbacks and sync_packages with ghost histories of what was received
and delivered, proved against the same operations on values, over which runs are defined.

**Helpers of the SDK.** `CrcSlices` proves slicing-by-4 for every linear table with the slice relation,
`CrcBits` relates tables to bit-at-a-time registers in both directions, `Crc32` and `Crc16` are the
classes (section 8 of RFC 1952 for CRC-32), `CrcChecks` holds them against listed constants. `PoolAllocator` works on one flat memory. `JsonDocument`
is Accept, the number constructors and the handler's stack machine.

`Verdicts` holds one datatype: invariants are stated as functions into it, so that the verifier treats
an invariant as one fact.

## Results worth knowing

* `RebuildThread.CrashesExactlyOnEmptySnapshot`: the swap section reads the new root's size even when
  nothing was live at the snapshot. In every run the protocol fails exactly then, and
  `EmptySnapshotHappens` reaches it from a subtree of the size that is handed over.
* `SearchGate.BoxSearchOverlapsExactly`: box and radius searches do not pass through the gate. Below a
  held son they keep the mutex, which the rebuilder does not keep during its sections; when the root is
  held they take no lock at all, and the downsampling search of Add_Points is one of them. A search can
  run during a section exactly when the counter is -1 as it starts, or when the root is held and the
  swap is still to come.
* `RebuildLogs.OverrunLosesEdit`: the log queue has no overflow check, and one entry too many loses an
  edit. `BoundedSwapIsExact`: as long as the queue is not overrun, nothing is lost.
* `SensorSync.Run`: a backward lidar stamp clears the scans but not their stamps. Order and pairing hold
  if and only if no scan stamp goes back while scans are queued; `LoopBackSwallowsScan` shows what
  happens otherwise. For IMU messages it is the corrected stamp that counts, and `SelfSyncLosesMessage`
  shows that with time_sync_en messages sent in order can be lost.
* `LocalMaps.SensorIsKeptExactlyWhenWide`: a moved window is sure to hold the sensor if and only if
  cube_len >= 2 * DET_RANGE. The built-in defaults, 200 and 300, do not meet this.
  `RunsKeepSensorExactlyWhenWide` says the same of whole runs.
* `MapUpdates.SkipCanLeaveVoxelEmpty`: the pre-filter of map_incremental can skip a point whose voxel is
  empty; `SkipIsLosslessExactly` says exactly when skipping is lossless.
* `MapUpdates.RawCanCrowdVoxel`: a point that map_incremental adds without downsampling can be the second
  one in its voxel; `MapStaysThinExactly` says exactly when the map keeps one point per voxel in one call,
  `MapHistories.RunIsThinExactly` over whole runs of cycles.
* `PoolAllocator.BlocksAlignedExactly`: blocks are aligned except in a user buffer that is not.

## Model

| member | source | states |
|---|---|---|
| Geometry.BoxDistIsLowerBound | src/FAST_LIO_ROS2/include/ikd-Tree/ikd_Tree.cpp:1691-1709 | calc_box_dist never exceeds the squared distance to any point inside the node range, so pruning by it is sound |
| Geometry.BoxDistIsAttained | src/FAST_LIO_ROS2/include/ikd-Tree/ikd_Tree.cpp:1691-1709 | Some place in the node range is exactly calc_box_dist away, so the bound is the best there is |
| Geometry.DistIsEuclidean | src/FAST_LIO_ROS2/include/ikd-Tree/ikd_Tree.cpp:1683-1688 | calc_dist is the square of the difference along one axis, and the sum of three such squares |
| Geometry.UncoveredSurvivor | src/FAST_LIO_ROS2/include/ikd-Tree/ikd_Tree.cpp:774-795 | A half-open box that does not cover a tight range leaves at least one of its points outside |
| Geometry.TightHull | src/FAST_LIO_ROS2/include/ikd-Tree/ikd_Tree.cpp:1508-1602 | The min/max chains of Update turn two exact bounding boxes into the exact bounding box of both point sets |
| KdModel.CountersAreExact | src/FAST_LIO_ROS2/include/ikd-Tree/ikd_Tree.cpp:70-97 | In every well-formed subtree TreeSize is the number of stored points and TreeSize - invalid_point_num the number of live ones, whatever flags are pending |
| KdModel.DeadIffEmpty | src/FAST_LIO_ROS2/include/ikd-Tree/ikd_Tree.cpp:1466-1507 | tree_deleted holds exactly when nothing below is live; otherwise node_range is the exact bounding box of the live points |
| KdModel.ReceiveKeeps | src/FAST_LIO_ROS2/include/ikd-Tree/ikd_Tree.cpp:1368-1410 | A pushed flag empties a son of a deleted parent and leaves a freshly added live leaf alive: the two cases in which a flag can be pending over a son |
| KdModel.PushDownKeeps | src/FAST_LIO_ROS2/include/ikd-Tree/ikd_Tree.cpp:1360-1455 | Push_Down keeps the invariant and the live points; after it both sons of a deleted node say so themselves |
| KdModel.PushAllKeeps | src/FAST_LIO_ROS2/include/ikd-Tree/ikd_Tree.cpp:1627-1658 | Pushing every flag to the bottom, as flatten does, keeps the invariant, the live points, the size and invalid_point_num |
| KdModel.UpdateKeeps | src/FAST_LIO_ROS2/include/ikd-Tree/ikd_Tree.cpp:1458-1602 | Update re-establishes the whole invariant of a node from its own point and two well-formed sons, with the union of their live points |
| KdModel.SameMeaning | src/FAST_LIO_ROS2/include/ikd-Tree/ikd_Tree.cpp:1247-1289 | Two trees that differ only in where flags are pending have the same live points, size and counters |
| KdModel.SameSons | src/FAST_LIO_ROS2/include/ikd-Tree/ikd_Tree.cpp:1078-1100 | Replacing the sons of a pushed-down node by ones that differ in flags only changes nothing but flags |
| KdBuild.BuildStoresInput | src/FAST_LIO_ROS2/include/ikd-Tree/ikd_Tree.cpp:679-733 | BuildTree stores exactly the multiset it was given, for every selection std::nth_element may make |
| KdBuild.BuildIsWellFormed | src/FAST_LIO_ROS2/include/ikd-Tree/ikd_Tree.cpp:679-733 | A built tree satisfies the invariant, all of its points are live and its size is the input length |
| KdBuild.BuildIsOrdered | src/FAST_LIO_ROS2/include/ikd-Tree/ikd_Tree.cpp:708-731 | left <= node <= right on the division axis at every node of a built tree |
| KdBuild.BuildIsShallow | src/FAST_LIO_ROS2/include/ikd-Tree/ikd_Tree.cpp:679-733 | 2^(height - 1) <= n: a built tree has minimal height floor(log2 n) + 1 |
| KdChoices.BuildSplitsWidest | src/FAST_LIO_ROS2/include/ikd-Tree/ikd_Tree.cpp:686-706 | At every node of a built tree no two points below are farther apart on any axis than on the division axis, nor as far on an earlier one |
| KdEdit.RebuildKeeps | src/FAST_LIO_ROS2/include/ikd-Tree/ikd_Tree.cpp:736-764 | Rebuild keeps the live multiset and the invariant, and never flattens a live subtree to nothing |
| KdEdit.SettleKeeps | src/FAST_LIO_ROS2/include/ikd-Tree/ikd_Tree.cpp:1050-1058 | Update followed by the optional Rebuild keeps the live multiset of node and sons |
| KdEdit.AddKeeps | src/FAST_LIO_ROS2/include/ikd-Tree/ikd_Tree.cpp:995-1059 | Add_by_point adds exactly one live point and keeps the invariant, even below deleted nodes and stale flags |
| KdChoices.NewLeafSplits | src/FAST_LIO_ROS2/include/ikd-Tree/ikd_Tree.cpp:997-1005 | A new leaf splits on y below x, on z below y, on x below z |
| KdChoices.AddTakesSide | src/FAST_LIO_ROS2/include/ikd-Tree/ikd_Tree.cpp:1012-1031 | Without a rebuild a smaller coordinate stores the point on the left, an equal or larger one on the right, and the other side stores what it stored |
| KdChoices.RebuiltExactly | src/FAST_LIO_ROS2/include/ikd-Tree/ikd_Tree.cpp:1335-1357 | An edited node is rebuilt on the spot if and only if that is allowed, it has fewer points than Multi_Thread_Rebuild_Point_Num and more than 10, and more than half are deleted or a son is above 3/5 or below 2/5; the counts are those of stored and live points |
| KdEdit.MarkDeletedKeeps | src/FAST_LIO_ROS2/include/ikd-Tree/ikd_Tree.cpp:780-795 | The covered case of Delete_by_range removes all live points of the subtree, all of which are in the box, and reports their number |
| KdEdit.MissedRange | src/FAST_LIO_ROS2/include/ikd-Tree/ikd_Tree.cpp:778-779 | A box that misses the cached range contains no live point of the subtree |
| KdEdit.SomethingSurvives | src/FAST_LIO_ROS2/include/ikd-Tree/ikd_Tree.cpp:797-825 | After a partial delete a node still has a live point, so the rebuild that may follow is not empty |
| KdEdit.DeleteKeeps | src/FAST_LIO_ROS2/include/ikd-Tree/ikd_Tree.cpp:767-851 | Delete_by_range removes exactly the live points in the half-open box, returns how many, keeps the invariant and never turns a tree into null |
| KdBalance.AddOrdered | src/FAST_LIO_ROS2/include/ikd-Tree/ikd_Tree.cpp:1012-1031 | Add_by_point keeps the weak order on the division axes and stores nothing but old points and the new one |
| KdBalance.DeleteOrdered | src/FAST_LIO_ROS2/include/ikd-Tree/ikd_Tree.cpp:767-851 | Delete_by_range with its rebuilds keeps the weak order on the division axes |
| KdBalance.CriterionBalances | src/FAST_LIO_ROS2/include/ikd-Tree/ikd_Tree.cpp:1335-1357 | A node that passes Criterion_Check has both sons at no more than 3/5 of TreeSize - 1 |
| KdBalance.AddBalanced | src/FAST_LIO_ROS2/include/ikd-Tree/ikd_Tree.cpp:995-1059 | After Add_by_point with rebuilds every node of more than 10 (and fewer than the thread limit) points is balanced |
| KdBalance.DeleteBalanced | src/FAST_LIO_ROS2/include/ikd-Tree/ikd_Tree.cpp:767-851 | The same after every Delete_by_range |
| KdBalance.BalancedIsShallow | src/FAST_LIO_ROS2/include/ikd-Tree/ikd_Tree.cpp:1335-1357 | TreeSize >= (5/3)^(height - 10) in a balanced tree, so operations descend logarithmically far |
| KdLean.AddLean | src/FAST_LIO_ROS2/include/ikd-Tree/ikd_Tree.cpp:1335-1357 | After Add_by_point with rebuilds no live node of more than 10 (and fewer than the thread limit) points has more than half of them deleted |
| KdLean.DeleteLean | src/FAST_LIO_ROS2/include/ikd-Tree/ikd_Tree.cpp:1335-1357 | The same after every Delete_by_range |
| KdLean.PushAllLean | src/FAST_LIO_ROS2/include/ikd-Tree/ikd_Tree.cpp:1627-1658 | That does not depend on where deletion flags are pending |
| KdLean.StoredIsAtMostTwiceLive | src/FAST_LIO_ROS2/include/ikd-Tree/ikd_Tree.cpp:1335-1357 | Such a tree with a live point stores at most twice what is live |
| KdNodes.KdNode.constructor | src/FAST_LIO_ROS2/include/ikd-Tree/ikd_Tree.cpp:41-67 | InitTreeNode: a single node without sons, flags or counters |
| KdNodes.KdNode.PushDown | src/FAST_LIO_ROS2/include/ikd-Tree/ikd_Tree.cpp:1360-1455 | Push_Down on the heap: sons keep identity and footprint and the tree becomes PushDown of the old tree |
| KdNodes.KdNode.Update | src/FAST_LIO_ROS2/include/ikd-Tree/ikd_Tree.cpp:1458-1624 | Update on the heap: the new fields are those of Update on the value, over valid disjoint sons |
| KdNodes.KdNode.CriterionCheck | src/FAST_LIO_ROS2/include/ikd-Tree/ikd_Tree.cpp:1335-1357 | Criterion_Check answers exactly the criterion on the value of the subtree |
| KdNodes.KdNode.MarkDeleted | src/FAST_LIO_ROS2/include/ikd-Tree/ikd_Tree.cpp:780-795 | The covered case of Delete_by_range on the heap, returning TreeSize - invalid_point_num from before |
| KdOps.DivisionAxis | src/FAST_LIO_ROS2/include/ikd-Tree/ikd_Tree.cpp:686-706 | The two scans find the axis of largest extent, ties to the earlier axis |
| KdOps.PlaceMedian | src/FAST_LIO_ROS2/include/ikd-Tree/ikd_Tree.cpp:685-726 | nth_element moves the median to the middle of storage[l..r], touching nothing outside, so that the tree of the range is the median over the trees of both halves |
| KdOps.BuildTree | src/FAST_LIO_ROS2/include/ikd-Tree/ikd_Tree.cpp:679-733 | BuildTree on the heap and the shared storage array builds exactly Build of its range out of fresh nodes and leaves the rest of the array alone |
| KdOps.Flatten | src/FAST_LIO_ROS2/include/ikd-Tree/ikd_Tree.cpp:1627-1658 | flatten appends exactly the live points and leaves every flag pushed down |
| KdOps.Rebuild | src/FAST_LIO_ROS2/include/ikd-Tree/ikd_Tree.cpp:736-764 | Rebuild on the heap: at once below Multi_Thread_Rebuild_Point_Num, otherwise the subtree stays as it is |
| KdUpdates.AddByPoint | src/FAST_LIO_ROS2/include/ikd-Tree/ikd_Tree.cpp:995-1059 | Add_by_point on the heap refines AddPoint; every node of the result is old or fresh |
| KdUpdates.DeleteByRange | src/FAST_LIO_ROS2/include/ikd-Tree/ikd_Tree.cpp:767-851 | Delete_by_range on the heap refines DeleteRange, tree and count |
| Balls.CauchySchwarz | src/FAST_LIO_ROS2/include/ikd-Tree/ikd_Tree.cpp:1297-1307 | (a.b)^2 <= |a|^2 |b|^2, over exact reals |
| Balls.Triangle | src/FAST_LIO_ROS2/include/ikd-Tree/ikd_Tree.cpp:1297-1307 | The triangle inequality for vectors given by bounds on their squared lengths |
| Balls.InsideHalfDiagonal | src/FAST_LIO_ROS2/include/ikd-Tree/ikd_Tree.cpp:1606-1609 | Every point of a range is within the half diagonal cached in radius_sq of its centre |
| Balls.RejectIsSafe | src/FAST_LIO_ROS2/include/ikd-Tree/ikd_Tree.cpp:1301-1302 | dist > radius + sqrt(radius_sq) excludes every point of the range from the ball |
| Balls.TakeAllIsSafe | src/FAST_LIO_ROS2/include/ikd-Tree/ikd_Tree.cpp:1301-1307 | dist <= radius - sqrt(radius_sq) puts every point of the range in the ball |
| KdRangeSearch.SearchByRange | src/FAST_LIO_ROS2/include/ikd-Tree/ikd_Tree.cpp:1247-1289 | Search_by_range appends exactly the live points in the half-open box and changes nothing but where flags sit |
| KdRangeSearch.SearchByRadius | src/FAST_LIO_ROS2/include/ikd-Tree/ikd_Tree.cpp:1292-1332 | Search_by_radius appends exactly the live points of the ball below no node out of reach, for every radius; the tree changes in flags only |
| KdRangeSearch.ReachedIsBall | src/FAST_LIO_ROS2/include/ikd-Tree/ikd_Tree.cpp:1301-1312 | For radius >= 0 these are all live points with squared distance at most radius^2, in order |
| KdRangeSearch.ReachedIsLive | src/FAST_LIO_ROS2/include/ikd-Tree/ikd_Tree.cpp:1301-1312 | For every radius they are live points of the ball, none more often than it is stored |
| ManualHeaps.TopIsMax | src/FAST_LIO_ROS2/include/ikd-Tree/ikd_Tree.h:136-139 | The first entry of a heap-ordered array is a maximum of PointType_CMP's order |
| ManualHeaps.SinkingStep | src/FAST_LIO_ROS2/include/ikd-Tree/ikd_Tree.h:161-180 | Sinking below the larger son keeps heap order elsewhere and the multiset of entries |
| ManualHeaps.FloatStep | src/FAST_LIO_ROS2/include/ikd-Tree/ikd_Tree.h:181-198 | Floating above a smaller parent keeps heap order elsewhere |
| ManualHeaps.ManualHeap.Top | src/FAST_LIO_ROS2/include/ikd-Tree/ikd_Tree.h:136-139 | top returns an entry that no entry exceeds |
| ManualHeaps.ManualHeap.Pop | src/FAST_LIO_ROS2/include/ikd-Tree/ikd_Tree.h:127-135 | pop removes exactly one occurrence of the top and keeps the heap order; nothing happens on an empty heap |
| ManualHeaps.ManualHeap.Push | src/FAST_LIO_ROS2/include/ikd-Tree/ikd_Tree.h:140-148 | push adds exactly the given entry below capacity and drops it at capacity; heap order is kept |
| ManualHeaps.ManualHeap.MoveDown | src/FAST_LIO_ROS2/include/ikd-Tree/ikd_Tree.h:161-180 | The shifting loop restores heap order and keeps the multiset |
| ManualHeaps.ManualHeap.FloatUp | src/FAST_LIO_ROS2/include/ikd-Tree/ikd_Tree.h:181-198 | The shifting loop restores heap order and keeps the multiset |
| Nearest.BestTransitive | src/FAST_LIO_ROS2/include/ikd-Tree/ikd_Tree.cpp:1062-1244 | k nearest of (k nearest of A) and B are k nearest of A and B together, ties included |
| Nearest.ReplaceFarthest | src/FAST_LIO_ROS2/include/ikd-Tree/ikd_Tree.cpp:1078-1092 | Replacing the heap top by a strictly closer point keeps a k-nearest selection |
| KdNearest.SkipSon | src/FAST_LIO_ROS2/include/ikd-Tree/ikd_Tree.cpp:1096-1244 | A son whose box is no closer than the heap top cannot improve a full selection |
| KdNearest.NothingBeyondLimit | src/FAST_LIO_ROS2/include/ikd-Tree/ikd_Tree.cpp:1066-1069 | A subtree whose box is farther than max_dist contributes no candidate |
| KdNearest.Search | src/FAST_LIO_ROS2/include/ikd-Tree/ikd_Tree.cpp:1062-1244 | After Search the heap holds k nearest of its old entries and the live points within max_dist below the node; the tree changes in flags only |
| KdNearest.Drain | src/FAST_LIO_ROS2/include/ikd-Tree/ikd_Tree.cpp:454-459 | The pop-and-prepend loop returns the heap's entries in ascending order of distance |
| KdNearest.NearestSearch | src/FAST_LIO_ROS2/include/ikd-Tree/ikd_Tree.cpp:426-461 | Nearest_Search returns a k-nearest selection of the live points within max_dist, ascending |
| KdNearest.NearestMeaning | src/FAST_LIO_ROS2/include/ikd-Tree/ikd_Tree.cpp:426-461 | That selection has min(k, live points within max_dist) points, none more often than it is stored, each with its own distance, and every omitted live point within max_dist is at least as far as every returned one |
| KdNearest.NearestOfAll | src/FAST_LIO_ROS2/include/ikd-Tree/ikd_Tree.cpp:426-461 | Without a limit it is min(k, all live points), and nothing left out is closer than anything returned |
| KdNearest.NearestWithin | src/FAST_LIO_ROS2/include/ikd-Tree/ikd_Tree.cpp:1066-1088 | With max_dist it is min(k, live points whose squared distance is at most max_dist^2), nothing returned is farther, and nothing that near left out is closer than anything returned |
| Voxels.BoxIsCell | src/FAST_LIO_ROS2/include/ikd-Tree/ikd_Tree.cpp:492-501 | The half-open voxel boxes are exactly the classes of points with equal floor indices, negative coordinates included |
| Voxels.OwnCell | src/FAST_LIO_ROS2/include/ikd-Tree/ikd_Tree.cpp:502-522 | After one downsampled insertion the voxel of the point holds exactly the chosen point |
| Voxels.OtherCell | src/FAST_LIO_ROS2/include/ikd-Tree/ikd_Tree.cpp:502-522 | Every other voxel is unchanged |
| Voxels.ThinnedStep | src/FAST_LIO_ROS2/include/ikd-Tree/ikd_Tree.cpp:487-522 | Downsampled insertion of one more point extends the guarantee for a whole batch |
| Voxels.ThinnedStaysThin | src/FAST_LIO_ROS2/include/ikd-Tree/ikd_Tree.cpp:487-522 | At most one live point per voxel is preserved by a downsampled batch |
| VoxelMeanings.NoFartherExactly | src/FAST_LIO_ROS2/include/ikd-Tree/ikd_Tree.cpp:492-505 | The comparisons of distances to mid_point compare distances to the place midway between the corners that the floor gives |
| VoxelMeanings.OfferSettles | src/FAST_LIO_ROS2/include/ikd-Tree/ikd_Tree.cpp:492-522 | One downsampled insertion leaves the voxel with the offered point or a stored one nearer to its centre, no stored one nearer, and every other voxel as it was |
| VoxelMeanings.ThinnedInNumbers | src/FAST_LIO_ROS2/include/ikd-Tree/ikd_Tree.cpp:487-522 | After a batch each touched voxel holds one stored or offered point, none of which is nearer to the centre; every other point is there as often as before |
| VoxelMeanings.FirstClosestInNumbers | src/FAST_LIO_ROS2/include/ikd-Tree/ikd_Tree.cpp:502-512 | The scan stops at the first of the stored points nearest to the centre, unless none is nearer than the offered one |
| Voxels.ThinnedLeavesEmpty | src/FAST_LIO_ROS2/include/ikd-Tree/ikd_Tree.cpp:487-522 | A downsampled batch leaves a voxel empty exactly when it was empty and no point of the batch lies in it |
| Voxels.AddStaysThinExactly | src/FAST_LIO_ROS2/include/ikd-Tree/ikd_Tree.cpp:549-571 | Adding points without downsampling keeps at most one point per voxel if and only if they lie in distinct empty voxels |
| Voxels.FirstClosestIsFirst | src/FAST_LIO_ROS2/include/ikd-Tree/ikd_Tree.cpp:502-512 | The point that the tie-breaking scan picks is closest to the voxel centre; if it is a stored one, every stored point before it is strictly farther |
| Voxels.DeletionStaysThin | src/FAST_LIO_ROS2/include/ikd-Tree/ikd_Tree.cpp:632-658 | At most one live point per voxel is preserved by deletions |
| KdTrees.AddIsGood | src/FAST_LIO_ROS2/include/ikd-Tree/ikd_Tree.cpp:995-1059 | Add_by_point keeps invariant, order, balance and leanness together and adds exactly the point |
| KdTrees.DeleteIsGood | src/FAST_LIO_ROS2/include/ikd-Tree/ikd_Tree.cpp:767-851 | Delete_by_range keeps invariant, order, balance and leanness together, removes exactly the box and keeps a non-null root non-null |
| KdTrees.SearchedIsGood | src/FAST_LIO_ROS2/include/ikd-Tree/ikd_Tree.cpp:426-475 | Searches keep invariant, order, balance, leanness and live points |
| KdTrees.SparedAt | src/FAST_LIO_ROS2/include/ikd-Tree/ikd_Tree.cpp:632-658 | A point survives a list of deletion boxes with its multiplicity exactly when no box holds it, otherwise not at all |
| KdTrees.BoxedInNumbers | src/FAST_LIO_ROS2/include/ikd-Tree/ikd_Tree.cpp:464-468 | A box search returns a point as often as it is live if lo <= coordinate < hi on every axis, otherwise not at all |
| KdTrees.BallInNumbers | src/FAST_LIO_ROS2/include/ikd-Tree/ikd_Tree.cpp:471-475 | The ball of a radius search is x^2 + y^2 + z^2 <= radius^2 in coordinates relative to the centre |
| KdTrees.SparedInNumbers | src/FAST_LIO_ROS2/include/ikd-Tree/ikd_Tree.cpp:632-658 | Deletion boxes remove a point exactly if it lies in one of them, in coordinates |
| KdTrees.ReplacesInNumbers | src/FAST_LIO_ROS2/include/ikd-Tree/ikd_Tree.cpp:513-522 | The voxel is rewritten if and only if it holds more than one point or no stored point nearer to its centre than the offered one |
| KdTrees.KdTree.Build | src/FAST_LIO_ROS2/include/ikd-Tree/ikd_Tree.cpp:409-423 | Build: the tree stands for exactly the cloud; the root is null exactly for an empty cloud |
| KdTrees.KdTree.StoredCount | src/FAST_LIO_ROS2/include/ikd-Tree/ikd_Tree.cpp:70-97 | size() is the number of stored points, deleted ones included |
| KdTrees.KdTree.ValidNum | src/FAST_LIO_ROS2/include/ikd-Tree/ikd_Tree.cpp:140-163 | validnum() is the number of live points |
| KdTrees.KdTree.NearestSearch | src/FAST_LIO_ROS2/include/ikd-Tree/ikd_Tree.cpp:426-461 | Nearest_Search from the root, in distances alone: with INFINITY min(k, live points), with max_dist min(k, live points at most that far), in ascending order, each with its distance, every omitted one at least as far; the live points are unchanged |
| KdTrees.KdTree.BoxSearch | src/FAST_LIO_ROS2/include/ikd-Tree/ikd_Tree.cpp:464-468 | Box_Search returns exactly the live points in the box and leaves them unchanged |
| KdTrees.KdTree.RadiusSearch | src/FAST_LIO_ROS2/include/ikd-Tree/ikd_Tree.cpp:471-475 | Radius_Search returns exactly what is reached: for radius >= 0 exactly the live points in the closed ball, otherwise only such points; the live points are unchanged |
| KdTrees.KdTree.AddAll | src/FAST_LIO_ROS2/include/ikd-Tree/ikd_Tree.cpp:549-571 | Add_Points without downsampling adds exactly the given multiset |
| KdTrees.KdTree.ClosestOf | src/FAST_LIO_ROS2/include/ikd-Tree/ikd_Tree.cpp:502-512 | The scan finds exactly the first of the stored points closest to the voxel centre, or the new point unless one is strictly closer |
| KdTrees.KdTree.Offer | src/FAST_LIO_ROS2/include/ikd-Tree/ikd_Tree.cpp:487-522 | One downsampled insertion: delete the voxel and re-add the closest, or keep the one stored point; the answer says whether the voxel was rewritten |
| KdTrees.KdTree.AddDownsampled | src/FAST_LIO_ROS2/include/ikd-Tree/ikd_Tree.cpp:478-522 | Add_Points with downsampling: point by point, each touched voxel ends with the first of the points nearest to its centre, told in coordinates; every other voxel is unchanged, and the count is the number of rewrites |
| KdTrees.KdTree.DeletePointBoxes | src/FAST_LIO_ROS2/include/ikd-Tree/ikd_Tree.cpp:632-658 | Delete_Point_Boxes removes exactly the points in the union of the boxes and returns their number |
| KdTrees.KdTree.StaysLean | src/FAST_LIO_ROS2/include/ikd-Tree/ikd_Tree.cpp:1335-1357 | A map of more than 10 and fewer than Multi_Thread_Rebuild_Point_Num stored points, one of them live, stores at most twice what is live |
| KdHistories.Perform | src/FAST_LIO_ROS2/include/ikd-Tree/ikd_Tree.cpp:409-658 | Every operation on the heap, searches included, is a step of the relation on live points; a map that is there stays there |
| KdHistories.RunHistory | src/FAST_LIO_ROS2/include/ikd-Tree/ikd_Tree.cpp:409-658 | Every history of builds, edits and searches that builds first never dereferences a null root, and its trace explains what the tree holds |
| KdHistories.HistoryIsMultiset | src/FAST_LIO_ROS2/include/ikd-Tree/ikd_Tree.cpp:409-658 | Without downsampling the map is, point by point, the multiset counted over the history alone |
| KdHistories.NothingInvented | src/FAST_LIO_ROS2/include/ikd-Tree/ikd_Tree.cpp:409-658 | A live point was given to some operation after the last box that holds it |
| KdHistories.HistoryStaysThin | src/FAST_LIO_ROS2/include/ikd-Tree/ikd_Tree.cpp:487-522 | As long as built clouds are thin and points added as they are fit, no voxel ever holds two live points |
| KdHistories.HistoryIsThinExactly | src/FAST_LIO_ROS2/include/ikd-Tree/ikd_Tree.cpp:409-658 | Over a whole history no voxel ever holds two live points if and only if every built cloud is thin and every point added without downsampling lands in an empty voxel of its own |
| RebuildThread.RunOperationKeeps | src/FAST_LIO_ROS2/include/ikd-Tree/ikd_Tree.cpp:370-406 | Each logged operation does to the live points of a tree what it means, and keeps a tree well formed |
| RebuildThread.OperationKeepsSize | src/FAST_LIO_ROS2/include/ikd-Tree/ikd_Tree.cpp:995-1059 | No logged operation makes a subtree smaller when nothing is rebuilt in it, so a subtree handed over stays large |
| RebuildThread.PushIntoLargeSonDeletes | src/FAST_LIO_ROS2/include/ikd-Tree/ikd_Tree.cpp:1368-1410 | A flag pending over a subtree of more than one point is always a deletion, so a logged PUSH_DOWN always deletes |
| RebuildThread.ReplayFirst | src/FAST_LIO_ROS2/include/ikd-Tree/ikd_Tree.cpp:288-306 | Applying the oldest logged operation and then the rest is replaying the whole log in order |
| RebuildThread.StepKeepsInv | src/FAST_LIO_ROS2/include/ikd-Tree/ikd_Tree.cpp:241-353 | In every step the new subtree with the operations still in the log stands for what the old subtree stands for |
| RebuildThread.SwapIsExact | src/FAST_LIO_ROS2/include/ikd-Tree/ikd_Tree.cpp:307-353 | In every interleaving of edits, searches, snapshot, build, replay and swap, the swapped-in subtree has the old subtree's live multiset |
| RebuildThread.CrashesExactlyOnEmptySnapshot | src/FAST_LIO_ROS2/include/ikd-Tree/ikd_Tree.cpp:282-332 | In every run, once the rebuild thread is past BuildTree, it has crashed on a null new root if and only if its snapshot found nothing live |
| RebuildThread.EmptySnapshotHappens | src/FAST_LIO_ROS2/include/ikd-Tree/ikd_Tree.cpp:282-332 | A run, for every thread limit, in which that happens: a subtree of the size that is handed over is covered by a deletion box before the snapshot |
| SearchGate.StepKeepsInv | src/FAST_LIO_ROS2/include/ikd-Tree/ikd_Tree.cpp:260-277 | search_mutex_counter is -1 exactly while the rebuilder is inside and otherwise counts the gated searches, over any number of rebuilds of sons or of the root |
| SearchGate.GateExcludes | src/FAST_LIO_ROS2/include/ikd-Tree/ikd_Tree.cpp:307-349 | In every interleaving of any number of gated searches, none overlaps the snapshot or swap section |
| SearchGate.BoxSearchCanOverlap | src/FAST_LIO_ROS2/include/ikd-Tree/ikd_Tree.cpp:1268-1287 | Below a held son: a search that only holds the mutex can start inside the rebuilder's section |
| SearchGate.RootSearchCanBeOverlapped | src/FAST_LIO_ROS2/include/ikd-Tree/ikd_Tree.cpp:464-475 | With the root held: a search from the root takes no lock, starts while the counter is 0, and the rebuilder enters its section while it runs |
| SearchGate.BoxSearchOverlapsExactly | src/FAST_LIO_ROS2/include/ikd-Tree/ikd_Tree.cpp:1247-1332 | From every reachable state: a box or radius search that starts there can run during one of the rebuilder's sections if and only if the counter is -1, or the root is held and its swap is still to be done |
| SearchGate.LockedSearchOverlapsExactly | src/FAST_LIO_ROS2/include/ikd-Tree/ikd_Tree.cpp:1268-1287 | In every run and at every moment of a search below a held son: it overlaps the section if and only if the counter was -1 when it took the mutex |
| SearchGate.GateOpens | src/FAST_LIO_ROS2/include/ikd-Tree/ikd_Tree.cpp:437-449 | From every reachable state whoever is inside can leave and an empty gate admits the rebuilder |
| OpQueues.RingPush | src/FAST_LIO_ROS2/include/ikd-Tree/ikd_Tree.h:238-247 | Writing at the tail of a ring with room appends and disturbs no queued entry |
| OpQueues.PushExactly | src/FAST_LIO_ROS2/include/ikd-Tree/ikd_Tree.h:238-246 | A push leaves the queue intact if and only if there was room; then it appends, otherwise the newest entry takes the place of the oldest |
| OpQueues.OpQueue.Pop | src/FAST_LIO_ROS2/include/ikd-Tree/ikd_Tree.h:211-221 | pop is Popped on the queue's fields whatever their state: it removes the oldest entry of a queue that was never overrun, or nothing from an empty one |
| OpQueues.OpQueue.Push | src/FAST_LIO_ROS2/include/ikd-Tree/ikd_Tree.h:238-247 | push is Pushed on the queue's fields whatever their state: it appends below Q_LEN entries; on a full queue it overwrites the oldest entry and breaks the queue |
| OpQueues.OpQueue.Front | src/FAST_LIO_ROS2/include/ikd-Tree/ikd_Tree.h:222-225 | front is the oldest entry of a queue that is not empty |
| OpQueues.OpQueue.Empty | src/FAST_LIO_ROS2/include/ikd-Tree/ikd_Tree.h:247-250 | empty tells whether nothing is queued |
| RebuildLogs.BoundedRunRefines | src/FAST_LIO_ROS2/include/ikd-Tree/ikd_Tree.cpp:282-310 | Every run of the protocol on the ring that never holds more than its length is a run of the protocol with an unbounded log |
| RebuildLogs.BoundedSwapIsExact | src/FAST_LIO_ROS2/include/ikd-Tree/ikd_Tree.cpp:282-332 | With the ring as the log, the swapped-in subtree has the old subtree's live multiset in every run that never overran the ring |
| RebuildLogs.OverrunLosesEdit | src/FAST_LIO_ROS2/include/ikd-Tree/ikd_Tree.h:238-246 | For every length, a run with one entry too many whose swapped-in subtree lacks an added point |
| LocalMaps.SlabMissesWindow | src/FAST_LIO_ROS2/src/laserMapping.cpp:263-279 | No removal slab meets the new window |
| LocalMaps.LeftBehindIsInSlab | src/FAST_LIO_ROS2/src/laserMapping.cpp:263-279 | Every point of the old window outside the new one lies in some slab, corners moved on several axes included |
| LocalMaps.WindowIsKept | src/FAST_LIO_ROS2/src/laserMapping.cpp:250-281 | After the slabs are deleted no live point is left in old minus new, and every live point of the new window is there as often as before |
| LocalMaps.MovedDrifts | src/FAST_LIO_ROS2/src/laserMapping.cpp:250-274 | The window relation is exactly the shift by those distances on every axis |
| LocalMaps.MoveTrims | src/FAST_LIO_ROS2/src/laserMapping.cpp:263-279 | A live point goes exactly if, on some axis, it lies in the part given up, and inside the old window on the two others |
| LocalMaps.SensorIsKeptExactlyWhenWide | src/FAST_LIO_ROS2/src/laserMapping.cpp:235-274 | Every move, from every window and for every sensor position in it, leaves the sensor inside the moved window if and only if cube_len >= 2 * DET_RANGE |
| LocalMaps.RunsKeepSensorExactlyWhenWide | src/FAST_LIO_ROS2/src/laserMapping.cpp:235-281 | Over all runs from the first call on, with a sensor that no step takes out of the window: it is inside after every call if and only if cube_len >= 2 * DET_RANGE |
| LocalMaps.NarrowWindowLosesSensor | src/FAST_LIO_ROS2/src/laserMapping.cpp:252-270 | For every narrower window a sensor position inside it that one move leaves outside |
| LocalMaps.LocalMap.EdgeIsNear | src/FAST_LIO_ROS2/src/laserMapping.cpp:250-256 | The first loop: need_move exactly when some axis will move |
| LocalMaps.LocalMap.MoveWindow | src/FAST_LIO_ROS2/src/laserMapping.cpp:257-274 | The second loop: both edges of an axis shift by the same distance and the slabs are collected in axis order |
| LocalMaps.LocalMap.FovSegment | src/FAST_LIO_ROS2/src/laserMapping.cpp:235-281 | lasermap_fov_segment in numbers: centred on the first call; later, on an axis whose edge is within 1.5 * DET_RANGE, both edges shift by 0.45 * cube_len - 1.35 * DET_RANGE or, if that is less, by 0.5 * DET_RANGE, other axes stay, and exactly the points given up are deleted and counted |
| MapUpdates.Select | src/FAST_LIO_ROS2/src/laserMapping.cpp:444-478 | The selection loop splits the scan into downsampled, plain and skipped points, in order |
| MapUpdates.ChoiceInNumbers | src/FAST_LIO_ROS2/src/laserMapping.cpp:449-478 | A scan point is plain if and only if the filter is initialised and its nearest map point is outside its voxel on all three axes, skipped if and only if it is not plain and one of five is nearer to the voxel centre |
| MapUpdates.ChosenAppend | src/FAST_LIO_ROS2/src/laserMapping.cpp:444-478 | The groups keep the order of the scan |
| MapUpdates.IsBeaten | src/FAST_LIO_ROS2/src/laserMapping.cpp:463-471 | The inner loop: there are five neighbours, and one of the first five is nearer to the middle of the scan point's voxel |
| MapUpdates.MapIncremental | src/FAST_LIO_ROS2/src/laserMapping.cpp:438-487 | map_incremental thins the map with the first group and then adds the second as it is; a thin map stays thin exactly when the second group fits |
| MapUpdates.Cycle | src/FAST_LIO_ROS2/src/laserMapping.cpp:993-1070 | One mapping cycle: the window is centred or moves, a first map is built from more than five points, or a scan of at least five is added; a map stays a map |
| MapUpdates.OfferChangesNothing | src/FAST_LIO_ROS2/src/laserMapping.cpp:461-473 | In a thin map an offered point changes nothing exactly when the survivor was the voxel's only point already |
| MapUpdates.SkipIsLosslessExactly | src/FAST_LIO_ROS2/src/laserMapping.cpp:463-471 | In a thin map, skipping a scan point loses nothing if and only if the point is already in the map or a map point of its own voxel is strictly closer to the voxel centre |
| MapUpdates.SkipCanLeaveVoxelEmpty | src/FAST_LIO_ROS2/src/laserMapping.cpp:463-471 | A concrete scan point that is skipped although its voxel is empty: the closer neighbour lies in another voxel |
| MapUpdates.MapStaysThinExactly | src/FAST_LIO_ROS2/src/laserMapping.cpp:483-484 | map_incremental keeps at most one point per voxel if and only if the plain points lie in distinct voxels that neither the map nor the downsampled points touch |
| MapUpdates.RawCanCrowdVoxel | src/FAST_LIO_ROS2/src/laserMapping.cpp:457-460 | A concrete map and scan point for which it does not: the nearest map point is in another voxel, the second nearest in the scan point's own |
| MapHistories.RunCycles | src/FAST_LIO_ROS2/src/laserMapping.cpp:993-1070 | Any number of mapping cycles from any map is a run of the step relation on live points, tree and window |
| MapHistories.BuiltExactly | src/FAST_LIO_ROS2/src/laserMapping.cpp:1005-1019 | There is a map after a run of cycles if and only if there was one before or some scan had more than five points |
| MapHistories.RunIsThinExactly | src/FAST_LIO_ROS2/src/laserMapping.cpp:438-487 | Over a whole run of cycles no voxel ever holds two points if and only if the first map is built from a scan with one point per voxel and the plain points of every later scan fit what the moved window has kept |
| MapHistories.EveryPointWasScanned | src/FAST_LIO_ROS2/src/laserMapping.cpp:993-1070 | A live point was in the map at the start or is a point of some scan, and no slab left behind since then holds it |
| MapHistories.CyclesMoveWindow | src/FAST_LIO_ROS2/src/laserMapping.cpp:993-999 | The windows of a run of cycles are a run of lasermap_fov_segment, so the condition on cube_len applies to them |
| SensorSync.TakenSplits | src/FAST_LIO_ROS2/src/laserMapping.cpp:421-429 | The loop splits the sorted IMU queue in two: taken stamps <= lidar_end_time <= remaining stamps |
| SensorSync.TakenExactly | src/FAST_LIO_ROS2/src/laserMapping.cpp:421-429 | Exactly what is taken: nothing if the first stamp has reached the end, otherwise everything before the end and the first message at it |
| SensorSync.MeanStep | src/FAST_LIO_ROS2/src/laserMapping.cpp:405-407 | The incremental update keeps lidar_mean_scantime the exact mean of the accepted durations, and never negative |
| SensorSync.SyncPaces | src/FAST_LIO_ROS2/src/laserMapping.cpp:388-413 | sync_packages keeps: a group whose scan has more than one point and lasts at least half the mean of the durations accepted before ends when the scan does, any other after that mean |
| SensorSync.UniformEnds | src/FAST_LIO_ROS2/src/laserMapping.cpp:394-408 | If all scans have more than one point and last D, every delivered group ends D after it begins |
| SensorSync.ScanArrives | src/FAST_LIO_ROS2/src/laserMapping.cpp:301-302 | A received scan joins the queue with its own stamp |
| SensorSync.ScanLeaves | src/FAST_LIO_ROS2/src/laserMapping.cpp:431-433 | A delivered scan leaves the queues together with its stamp: delivered then queued is what was received |
| SensorSync.MessagesLeave | src/FAST_LIO_ROS2/src/laserMapping.cpp:420-429 | Delivered IMU groups followed by the queue are what was received |
| SensorSync.Synchronizer.StandardScan | src/FAST_LIO_ROS2/src/laserMapping.cpp:283-306 | standard_pcl_cbk: queue the scan and its stamp; a backward stamp clears the scans but not their stamps, and exactly those scans are lost |
| SensorSync.Synchronizer.LivoxScan | src/FAST_LIO_ROS2/src/laserMapping.cpp:311-348 | livox_pcl_cbk: the same, and the clock difference is set once |
| SensorSync.Synchronizer.ImuMessage | src/FAST_LIO_ROS2/src/laserMapping.cpp:350-379 | imu_cbk: the queue stays sorted whatever the stamps, because a backward stamp empties it |
| SensorSync.OffsetIsTakenOff | src/FAST_LIO_ROS2/src/laserMapping.cpp:357-362 | Without a clock difference the configured offset is taken off the stamp |
| SensorSync.SelfSyncAligns | src/FAST_LIO_ROS2/src/laserMapping.cpp:334-339 | The clock difference is set once, when due, so that a message stamped like the last one would be queued a tenth of a second after the scan |
| SensorSync.Synchronizer.Latch | src/FAST_LIO_ROS2/src/laserMapping.cpp:389-413 | The front scan is latched once, with the end time that SyncPaces relates to it |
| SensorSync.Synchronizer.SyncPackages | src/FAST_LIO_ROS2/src/laserMapping.cpp:383-435 | sync_packages delivers exactly when a scan is queued and the IMU has passed its end; it takes everything before lidar_end_time and the first message at it, or nothing if the first queued stamp has reached it, and leaves the rest |
| SensorSync.Run | src/FAST_LIO_ROS2/src/laserMapping.cpp:283-435 | Every run, whatever the stamps and time_sync_en: scans are delivered once each, in order and with their own stamps, if and only if no scan stamp goes back while scans are queued; delivered then queued IMU messages are all those received if and only if no corrected stamp goes back while messages are queued; every delivered group has the end that its scan or the mean so far gives it |
| SensorSync.ScansLostExactly | src/FAST_LIO_ROS2/src/laserMapping.cpp:283-348 | A run loses a scan if and only if some scan arrives with an earlier stamp than the last while scans are queued |
| SensorSync.ImuLostExactly | src/FAST_LIO_ROS2/src/laserMapping.cpp:350-379 | A run loses an IMU message if and only if some message arrives with an earlier corrected stamp than the last while messages are queued |
| SensorSync.RisingLosesNoScan | src/FAST_LIO_ROS2/src/laserMapping.cpp:283-348 | Scans whose stamps do not decrease are never lost |
| SensorSync.SortedLosesNoMessage | src/FAST_LIO_ROS2/src/laserMapping.cpp:350-379 | IMU messages whose corrected stamps do not decrease are never lost |
| SensorSync.SelfSyncLosesMessage | src/FAST_LIO_ROS2/src/laserMapping.cpp:329-379 | A run with time_sync_en whose IMU messages are sent in order and one of which is lost, because the clock difference found in between shifts stamps back |
| SensorSync.LoopBackSwallowsScan | src/FAST_LIO_ROS2/src/laserMapping.cpp:289-302 | After a loop-back under the latch the old scan is delivered, the new one popped undelivered, and a stale stamp stays queued |
| CrcSlices.TurnIsLinear | src/Livox-SDK2/3rdparty/FastCRC/FastCRCsw.cpp:421-425 | A table-driven byte step is linear when the first slice is |
| CrcSlices.SliceIsFourTurns | src/Livox-SDK2/3rdparty/FastCRC/FastCRCsw.cpp:421-431 | The four look-ups of crc_n4d equal the four chained look-ups of crcsm_n4d, from linearity and the relation between the slices alone |
| CrcSlices.WordIsFourBytes | src/Livox-SDK2/3rdparty/FastCRC/FastCRCsw.cpp:421-425 | One slice step with a little-endian word is four byte steps |
| CrcSlices.BytesAppend | src/Livox-SDK2/3rdparty/FastCRC/FastCRCsw.cpp:445-479 | The byte-wise register of a concatenation is that of the second part started from that of the first |
| CrcSlices.Update | src/Livox-SDK2/3rdparty/FastCRC/FastCRCsw.cpp:445-475 | Prologue to a 4-byte boundary, 16-byte blocks and tail together equal one byte at a time, for every address and length |
| CrcBits.StepsAreLinear | src/Livox-SDK2/3rdparty/FastCRC/FastCRC_tables.h:1006-1015 | Eight shift steps of the reflected register are linear |
| CrcBits.ByteIsEightSteps | src/Livox-SDK2/3rdparty/FastCRC/FastCRCsw.cpp:450-453 | Feeding eight message bits one by one equals xoring in the byte and stepping eight times |
| CrcBits.TurnIsEightSteps | src/Livox-SDK2/3rdparty/FastCRC/FastCRCsw.cpp:450-453 | One look-up in a table of eight-step entries is eight steps of the register |
| CrcBits.BytesAreReflectedCrc | src/Livox-SDK2/3rdparty/FastCRC/FastCRCsw.cpp:445-479 | The table form computes the bit-at-a-time reflected CRC, whatever the polynomial |
| CrcBits.TurnIsEightHighSteps | src/Livox-SDK2/3rdparty/FastCRC/FastCRCsw.cpp:504-507 | One look-up in a byte-swapped table is eight steps of the unreflected register, byte-swapped |
| CrcBits.BytesAreSwappedCrc | src/Livox-SDK2/3rdparty/FastCRC/FastCRCsw.cpp:499-532 | At every byte the register of the byte-swapped form is REV32 of the bitwise unreflected register |
| ByteOrder.Rev32OfHead | src/Livox-SDK2/3rdparty/FastCRC/FastCRCsw.cpp:58-69 | REV32 of a 16-bit value in the upper half is REV16 of it in the lower half |
| Crc32.Crc32TableIsReflected | src/Livox-SDK2/3rdparty/FastCRC/FastCRC_tables.h:1006-1263 | The rule that generates the CRC-32 table gives eight-step entries and slices in the required relation |
| Crc32.CksumTableIsSwapped | src/Livox-SDK2/3rdparty/FastCRC/FastCRC_tables.h:1332-1590 | The rule that generates the cksum table gives byte-swapped eight-step entries and slices in the required relation |
| Crc32.FastCRC32.Crc32Upd | src/Livox-SDK2/3rdparty/FastCRC/FastCRCsw.cpp:445-479 | crc32_upd advances the seed by the bitwise reflected CRC of the data and returns the complement |
| Crc32.FastCRC32.Crc32 | src/Livox-SDK2/3rdparty/FastCRC/FastCRCsw.cpp:481-486 | crc32 starts from 0xffffffff |
| Crc32.FastCRC32.CksumUpd | src/Livox-SDK2/3rdparty/FastCRC/FastCRCsw.cpp:499-532 | cksum_upd advances REV32 of the seed by the bitwise unreflected CRC and returns the complement of REV32 of the seed |
| Crc32.FastCRC32.Cksum | src/Livox-SDK2/3rdparty/FastCRC/FastCRCsw.cpp:534-539 | cksum starts from 0 |
| Crc32.BitCrcAppend | src/Livox-SDK2/3rdparty/FastCRC/FastCRCsw.cpp:475-486 | The bitwise CRC of a concatenation continues from the CRC of the first part |
| Crc32.Crc32Stream | src/Livox-SDK2/3rdparty/FastCRC/FastCRCsw.cpp:445-486 | crc32 and any number of crc32_upd calls, at any addresses and splits, return the CRC-32 of all the data |
| CrcChecks.Crc32OfDigits | src/Livox-SDK2/3rdparty/FastCRC/FastCRCsw.cpp:481-486 | crc32 returns the check value 0xcbf43926 for the nine digits |
| CrcChecks.Crc32Entries | src/Livox-SDK2/3rdparty/FastCRC/FastCRC_tables.h:1006-1263 | The rule gives the listed entries 1 and 0x80 of the CRC-32 table |
| CrcChecks.CksumEntry | src/Livox-SDK2/3rdparty/FastCRC/FastCRC_tables.h:1332-1590 | The rule gives the listed entry 1 of the cksum table |
| CrcChecks.ModbusEntries | src/Livox-SDK2/3rdparty/FastCRC/FastCRC_tables.h:415-545 | The rule gives the listed entries 1 and 0x80 of the modbus table |
| CrcChecks.KermitEntries | src/Livox-SDK2/3rdparty/FastCRC/FastCRC_tables.h:546-676 | The same for kermit |
| CrcChecks.X25Entries | src/Livox-SDK2/3rdparty/FastCRC/FastCRC_tables.h:808-938 | The same for x25 |
| CrcChecks.CcittEntry | src/Livox-SDK2/3rdparty/FastCRC/FastCRC_tables.h:153-283 | The rule gives the listed entry 1 of the ccitt table |
| CrcChecks.XmodemEntry | src/Livox-SDK2/3rdparty/FastCRC/FastCRC_tables.h:677-807 | The same for xmodem |
| Crc32.CksumStream | src/Livox-SDK2/3rdparty/FastCRC/FastCRCsw.cpp:499-539 | The same for cksum |
| Crc16.NextWord16 | src/Livox-SDK2/3rdparty/FastCRC/FastCRCsw.cpp:161-165 | crc_n4 with its truncating xor is the 32-bit slice step on a register whose upper half is zero |
| Crc16.Update16 | src/Livox-SDK2/3rdparty/FastCRC/FastCRCsw.cpp:178-193 | The 16-bit loops equal one byte at a time, for every address and length |
| Crc16.BitCrcWide | src/Livox-SDK2/3rdparty/FastCRC/FastCRCsw.cpp:376-397 | The 16-bit reflected bitwise CRC is the 32-bit one in the low half |
| Crc16.HighBitCrcWide | src/Livox-SDK2/3rdparty/FastCRC/FastCRCsw.cpp:173-199 | The 16-bit unreflected bitwise CRC is the 32-bit one in the upper half |
| Crc16.ReflectedTableIs | src/Livox-SDK2/3rdparty/FastCRC/FastCRC_tables.h:808-938 | The rule that generates the x25, kermit and modbus tables gives entries and slices in the required relation |
| Crc16.SwappedTableIs | src/Livox-SDK2/3rdparty/FastCRC/FastCRC_tables.h:153-283 | The rule that generates the ccitt and xmodem tables gives entries and slices in the required relation |
| Crc16.FastCRC16.ModbusUpd | src/Livox-SDK2/3rdparty/FastCRC/FastCRCsw.cpp:254-279 | modbus_upd advances the seed by the bitwise reflected CRC |
| Crc16.FastCRC16.KermitUpd | src/Livox-SDK2/3rdparty/FastCRC/FastCRCsw.cpp:294-319 | kermit_upd advances the seed by the bitwise reflected CRC |
| Crc16.FastCRC16.X25Upd | src/Livox-SDK2/3rdparty/FastCRC/FastCRCsw.cpp:376-403 | x25_upd advances the seed by the bitwise reflected CRC and returns the complement |
| Crc16.FastCRC16.CcittUpd | src/Livox-SDK2/3rdparty/FastCRC/FastCRCsw.cpp:173-199 | ccitt_upd advances REV16 of the seed by the bitwise unreflected CRC and returns it |
| Crc16.FastCRC16.XmodemUpd | src/Livox-SDK2/3rdparty/FastCRC/FastCRCsw.cpp:335-361 | xmodem_upd advances REV16 of the seed by the bitwise unreflected CRC and returns it |
| Crc16.X25Stream | src/Livox-SDK2/3rdparty/FastCRC/FastCRCsw.cpp:376-410 | x25 and any number of x25_upd calls return the CRC of all the data |
| Crc16.CcittStream | src/Livox-SDK2/3rdparty/FastCRC/FastCRCsw.cpp:173-205 | ccitt and any number of ccitt_upd calls return the CRC of all the data |
| PoolAllocator.NewBlock | src/Livox-SDK2/3rdparty/rapidjson/allocators.h:216-219 | A block bumped off the head chunk is inside the chunk, a whole number of eight bytes from its start, and clear of every block handed out |
| PoolAllocator.LongerBlock | src/Livox-SDK2/3rdparty/rapidjson/allocators.h:236-245 | Lengthening the last block of the head chunk keeps the layout |
| PoolAllocator.LastIsInHead | src/Livox-SDK2/3rdparty/rapidjson/allocators.h:236-241 | The pointer test of Realloc recognises only a block of the head chunk whose size is the caller's |
| PoolAllocator.SizeWithinCapacity | src/Livox-SDK2/3rdparty/rapidjson/allocators.h:191-205 | Size() <= Capacity() for every chain of chunks |
| PoolAllocator.AllocationIsCounted | src/Livox-SDK2/3rdparty/rapidjson/allocators.h:191-220 | A successful allocation adds its rounded size to Size(), and a new chunk's capacity to Capacity() |
| PoolAllocator.BlocksAlignedExactly | src/Livox-SDK2/3rdparty/rapidjson/allocators.h:153-220 | Every block of every valid pool is a multiple of eight if and only if it does not lie in a user-supplied buffer whose address is none |
| PoolAllocator.OddBufferGivesOddBlock | src/Livox-SDK2/3rdparty/rapidjson/allocators.h:153-167 | A pool over a buffer at address 1 hands out a block at an odd address |
| PoolAllocator.MemoryPool.OverBuffer | src/Livox-SDK2/3rdparty/rapidjson/allocators.h:153-167 | A user-supplied buffer at any address becomes the first chunk |
| PoolAllocator.MemoryPool.AddChunk | src/Livox-SDK2/3rdparty/rapidjson/allocators.h:268-281 | AddChunk prepends an empty chunk, or fails with the base allocator and changes nothing |
| PoolAllocator.MemoryPool.Malloc | src/Livox-SDK2/3rdparty/rapidjson/allocators.h:208-220 | Malloc hands out the next bytes of the head chunk, or the first of a new chunk of max(chunk_capacity_, rounded size) bytes behind its 24-byte header, disjoint from every other block; NULL for size 0, or with nothing changed when there is neither room nor memory |
| PoolAllocator.MemoryPool.Realloc | src/Livox-SDK2/3rdparty/rapidjson/allocators.h:223-253 | Realloc of a block, case by case: it stays if the rounded size does not grow; it grows by the difference if it ends a head chunk with room; otherwise it moves to what Malloc gives, or NULL only if that fails; the old contents are at the returned address in each case, and no byte of any other block changes |
| PoolAllocator.MemoryPool.Move | src/Livox-SDK2/3rdparty/rapidjson/allocators.h:247-253 | Allocate and copy: the new block holds the old contents and the original block is untouched |
| PoolAllocator.MemoryPool.Clear | src/Livox-SDK2/3rdparty/rapidjson/allocators.h:178-186 | Clear gives back every chunk but the user-supplied buffer, which it empties |
| PoolAllocator.MemoryPool.Size | src/Livox-SDK2/3rdparty/rapidjson/allocators.h:201-205 | Size() sums the bytes in use and never exceeds the capacity |
| PoolAllocator.MemoryPool.Capacity | src/Livox-SDK2/3rdparty/rapidjson/allocators.h:191-196 | Capacity() sums the capacities of the chain |
| JsonDocument.FlagsDependOnNumber | src/Livox-SDK2/3rdparty/rapidjson/document.h:858-899 | All four integer constructors give equal numbers equal flags and data, each flag saying whether the number fits its type |
| JsonDocument.FlagsInDecimals | src/Livox-SDK2/3rdparty/rapidjson/document.h:858-899 | The four flags are the ranges of the four integer types, in decimals |
| JsonDocument.ShortExactly | src/Livox-SDK2/3rdparty/rapidjson/document.h:2404-2412 | A copied string is stored inside the value if and only if it has at most 13 characters |
| JsonDocument.MemberIsAnnounced | src/Livox-SDK2/3rdparty/rapidjson/document.h:2298-2304 | Accept announces a member by a Key event with its name and copy flag, and sends its value next |
| JsonDocument.LeavesAreSent | src/Livox-SDK2/3rdparty/rapidjson/document.h:2286-2295 | Null, booleans, doubles and strings are sent as what they are |
| JsonDocument.CanonicalRoundTrip | src/Livox-SDK2/3rdparty/rapidjson/document.h:2319-2329 | Accept sends an integer as the narrowest of the four integer events that its flags allow, with the number intact |
| JsonDocument.NumberRoundTrip | src/Livox-SDK2/3rdparty/rapidjson/document.h:2319-2329 | A number sent and rebuilt has the same flags and data |
| JsonDocument.PairedSlots | src/Livox-SDK2/3rdparty/rapidjson/document.h:2982-2988 | Popping 2n stack slots as n members gives back the members |
| JsonDocument.RoundTrip | src/Livox-SDK2/3rdparty/rapidjson/document.h:2286-2331 | For every value and every stack, running the value's events leaves the stack followed by exactly that value |
| JsonDocument.RunAppend | src/Livox-SDK2/3rdparty/rapidjson/document.h:2926-3000 | Running two event strings in a row is running their concatenation, failure included |
| JsonDocument.Document.EndObject | src/Livox-SDK2/3rdparty/rapidjson/document.h:2982-2988 | EndObject pops 2n slots and fills the object below them |
| JsonDocument.Document.EndArray | src/Livox-SDK2/3rdparty/rapidjson/document.h:2995-3000 | EndArray pops n slots and fills the array below them |
| JsonDocument.Document.Accept | src/Livox-SDK2/3rdparty/rapidjson/document.h:2286-2331 | Accept with the document as handler succeeds and pushes exactly the value, equal to running its events |
| JsonDocument.Document.Populate | src/Livox-SDK2/3rdparty/rapidjson/document.h:2716-2725 | Populate with Accept as the generator makes the root equal to the value and clears the stack |

## Left out

- IEEE rounding in the ikd-Tree: coordinates are integers, so the 1e-10 tie test of operator< and the tolerance of same_point are equality; the radius search works on exact reals with sqrt as a parameter that is an exact square root.
- std::nth_element: any function that permutes and splits around the middle position (the type `Selector`); which one is a parameter of every tree.
- Node bookkeeping that no shown operation reads: father_ptr outside the rebuild thread, working_flag, per-node mutexes, alpha_bal and alpha_del; radius_sq is recomputed from the range instead of cached.
- Points_deleted and Multithread_Points_deleted: the caches of removed points are not modelled. The fields that only they and down_del_num's readers use (the downsample-deleted flags and down_del_num) are carried as in the source, and no result depends on them.
- KdOps.Rebuild: a subtree of at least `lim` (Multi_Thread_Rebuild_Point_Num) points is left alone, as when the rebuild thread is busy; the hand-over and the withdrawal of Rebuild_Ptr are not modelled. KdBalance and KdLean therefore state balance and leanness below that size; with `lim` above the tree size it covers every node.
- KdTrees.KdTree.AddAll: needs a root when there are points to add, because the source reads Root_Node->division_axis; KdHistory proves when that holds.
- KdTrees.KdTree.AddDownsampled: the same.
- KdTrees.KdTree.NearestSearch: k >= 1.
- KdTrees.KdTree.StoredCount: the answer from Treesize_tmp while a background rebuild holds the root is not modelled.
- KdTrees.KdTree.ValidNum: the answer from Validnum_tmp while a background rebuild holds the root is not modelled.
- Add_by_range, Add_Point_Boxes, Delete_by_point and Delete_Points: not called by the mapping node.
- tree_range, root_alpha and the Set_* setters read or write one field and take part in no operation shown here; the balance and deletion parameters are the class defaults 3/5 and 1/2.
- RebuildThread.StepKeepsInv: the walk that updates the ancestors after a swap and ancestor counters during a rebuild are not modelled; lines 350-352 are one step. A search of the old subtree is one atomic step, which it is not: a box or radius search can run during the snapshot or the swap, as SearchGate.BoxSearchOverlapsExactly says, and what it then reads is not modelled.
- RebuildLogs.BoundedSwapIsExact: the same; an edit and its log entry are one step.
- SearchGate.GateExcludes: usleep timing, liveness and pthread internals; locks are atomic steps. Edits and box searches come from one thread, as in the mapping node, so no rebuild is requested while a search runs.
- LocalMaps.LocalMap.FovSegment: lengths in units in which cube_len is 20 * cube and DET_RANGE is 20 * reach, so that the fractions in the code are integers; the float rounding of mov_dist is not modelled.
- MapUpdates.Cycle: the pose, the Kalman update and the nearest points found by the last search are inputs.
- SensorSync.Run: printing, plotting buffers and preprocessing are not modelled; stamps are exact reals.
- PoolAllocator.MemoryPool.Malloc: sizes are natural numbers, so the wrap-around of size_t for requests near 2^64 is not modelled; sizeof(ChunkHeader) is 24 as on 64-bit machines, and the addresses given by the base allocator are multiples of eight.
- PoolAllocator.MemoryPool.Realloc: chunk headers are counters beside the memory, not bytes in it.
- JsonDocument.RoundTrip: equality is structural; operator==, which looks members up by name, and NaN are not modelled. Doubles are reals, capacities of arrays and objects are not part of a value, and a string's text is a character sequence whether or not it is copied.
- JsonDocument.Document.Accept: the handler is the document; other handlers, which may answer false, are not modelled.
- Crc32.Crc32TableIsReflected: the table constants are represented by the rule that generates them, not listed; compare_tables.py compares the two for the seven tables in use. Loads are little-endian.
- FastCRC16::mcrf4xx has a seed that disagrees with its comment; the 7- and 8-bit CRCs are plain look-up loops without slices or byte swaps; FastCRChw.cpp drives a peripheral. No result here depends on them.
- The Kalman filter, plane fitting, SO(3), feature extraction, ROS publishers, drivers, sockets, configuration and plotting: not part of this model.
