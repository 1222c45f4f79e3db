# Verified models of Pointcaster's core

Dafny 4.11 models of the parts of Pointcaster that carry its hard invariants,
with proofs of what they keep. `dafny verify dfyconfig.toml` checks everything.

## What is modelled

**The device tree.** Groups and devices name their parents by id; published,
pushed and drawn paths are strings rooted at addresses read off that graph.
`Forests` is the graph alone: acyclicity, walks, moving, splicing, copying.
`DeviceTree` adds nodes, addresses, world transforms and sessions, `Matrices`
the product they need. `Siblings` and `NodeMoves` are the visual order of
siblings and what a move does to it. `Paths` and `NodePaths` are carrying paths
from prefix to prefix and its agreement with addresses. `GroupDeletion`,
`NodeCopies`, `Labels` and `TreeRows` are the remaining operations, and
`WorkspaceModel` the class whose methods change the configuration; `MovedRows`
says when a moved node is listed, `RowOrder` in what order nodes are,
`NodesAfter` what each operation makes of every node, and `TwinNames` and
`RenameExamples` are concrete trees. `Common` holds what several components
share. A tree is sound when ids are unique and not empty and no node, group or
device, is among its own ancestors. Devices count because a node may be moved
onto anything and the search for cycles follows devices too.

**The operator pipeline** (`OperatorPipeline`): serialised submits with
evict-oldest, any number of workers, a compare-and-exchange gate and a separate
store, as interleaved steps; `PipelineRest` shows that it comes to rest.

**The point stream** from end to end: `PointStreamer` is one tick of the
publisher and runs of ticks, `Wire` the NUL framing, `Subscriptions` the
socket's subscriptions and what reaches the publisher of them, `ReceiverQueue`
the receiver's conflating queue.

**Point clouds**: `Quantisation`, `PointClouds` (merge with promotion and
defaults), `CameraFilter` (compaction in place) and `MeshoptCodec`.

**The session clock** (`SessionClock`) and its use by two threads with
configurations from elsewhere (`SessionUse`), **the frame pool** of the
TouchDesigner plugin (`FramePool`) with the sequence kept beside its published
frame (`FrameSequences`), **the recorder** (`SessionRecorder`) and that it
closes once stopped (`RecorderClose`), **the workspace publisher**
(`WorkspacePublisher`) and **the frame-task slots** (`FrameTasks`).

## What the environment is taken to be

- Floats are reals. Where NaN and infinities decide a branch, the depth test of
  the pixel mask, they are separate values.
- Atomics are sequentially consistent; a step is one atomic operation or one
  locked region. A weak exchange may fail for no reason.
- Sockets are traces of messages that arrive; a send that fails is an input
  where the program tests for it and does not happen elsewhere.
- The order in which a hash map is walked is an arbitrary choice.
- Fresh ids are words that no node has as its id or parent, a different one each
  time; the word drawn for a node is a function of the node.
- An operator that returns nothing is an outcome of its own; one that throws is
  not modelled.
- `std::stable_sort` is a stable sort, shown to be the only one.
- The vertex coder gives back whole vertices and fills the buffer it is given;
  the serializer gives back what it was given.
- One thread updates a session and one controls it; each scrubs its devices
  after it has released the lock, and before it takes it again. Configurations
  may come at any time. The devices a session includes stay the same.
- The event loop applies a renamed configuration at once. The program queues it,
  so a move made before it is applied is overwritten by the rename itself.
- Counters are unbounded, except the recorder's depth, which wraps.
- The padding field of a position is not kept, except as bytes in the codec.

## What the code does not do

Each is a lemma with a concrete run or input, beside the exact condition.

- With two or more workers a frame that won the gate can be stored after a newer
  one and stay (`OperatorPipeline.OvertakenWinnerStoresLast`): the stored frame
  never goes back if and only if there is at most one worker.
- Two streams at one address are not cleared when the first goes empty while the
  other has a new cloud (`PointStreamer.SharedAddressIsNeverCleared`); over whole
  runs the frames sent stay in step with the cache if and only if that never
  happens (`PointStreamer.InStepUnlessSomeTickStrays`).
- An address whose frames keep coming can stay pending for ever while another is
  delivered again and again (`ReceiverQueue.RefreshedAddressCanStarve`); left
  alone it sees at most as many dequeues as addresses were ahead of it, and a
  longer wait always has a refresh in it
  (`ReceiverQueue.WaitsExactlyBehindThoseAhead`, `ReceiverQueue.OnlyRefreshesStarve`).
- The recorder's depth can be read below zero, though not by its producer
  (`SessionRecorder.OthersCanReadAWrappedDepth`), exactly in the gap that
  `SessionRecorder.DepthIsWrappedIff` names.
- Two devices whose ids are sanitised to one name write one file
  (`SessionRecorder.DifferentIdsCanShareAName`), and so do two that are added
  while recording, whatever their ids (`SessionRecorder.AddedDevicesShareAName`);
  each file is written once if and only if no two devices clash in one of these
  ways (`SessionRecorder.FilesWrittenOnceIffNoneClash`).
- A published update that failed to go out is lost while the value stays
  (`WorkspacePublisher.FailedUpdateIsLost`); a subscriber is current exactly when
  some tick since let the path through (`WorkspacePublisher.ReplayIsCurrentIff`).
- Deleting a group erases the paths of a child named like it
  (`TwinNames.TwinLosesItsPath`), those and no others of the paths below it when
  labels hold no slash (`GroupDeletion.NamesDecideWhatVanishes`), and the paths
  of a group of the same address beside it
  (`TwinNames.DeletedGroupTakesTwinsPaths`). Whatever the labels, a path of a
  node left survives if and only if its new form does not lie under the group's
  old address (`GroupDeletion.PathSurvivesIff`).
- Deleting a device erases the paths of its copy
  (`TwinNames.DeletedDeviceTakesCopysPath`); a path survives if and only if it
  does not lie under the device's address (`WorkspaceModel.DevicePathSurvivesIff`).
- Renaming a device leaves its drawn paths behind
  (`RenameExamples.DrawnPathIsLeft`), unless there are none or the address stays
  (`WorkspaceModel.RenameRerootsIffNothingDrawn`).
- Undoing a rename undoes everything since
  (`RenameExamples.UndoingARenameUndoesTheMove`), unless nothing was done
  (`WorkspaceModel.UndoLosesNothingElseIff`).
- Renaming a device takes the published paths of its copy beside it
  (`RenameExamples.RenamingTakesTheCopysPath`); a path of a node elsewhere is left
  right if and only if it does not lie under the old address
  (`NodePaths.OtherFieldPathStays`).
- Devices come to show another frame than their session when a playing frame
  outside the region snaps into it before a whole frame has passed
  (`SessionUse.RegionMovedAway`), when a configuration brings another frame
  (`SessionUse.ConfiguredElsewhere`), and when one thread's scrub lands after the
  other has moved the frame (`SessionUse.LateScrub`); they stay bound for it if
  and only if no step does one of these (`SessionUse.InStepUnlessSomeStepStrays`).
- The number kept beside a published frame can be another than the frame's after
  a reconnect (`FrameSequences.ClearedAfterStored`): the two agree if and only if
  nothing was published while the reconnect was clearing
  (`FrameSequences.SequenceAgreesUnlessPublishedIntoClearing`).
- A move onto a device, an unknown node or below a closed group succeeds and takes
  its node off the list (`MovedRows.MovedHasRowIff`).
- Without workers the pipeline keeps what is queued (`PipelineRest.NoWorkersNoRest`);
  with one or more it always comes to rest (`PipelineRest.PipelineComesToRest`).

## Model

| member | source | states |
|---|---|---|
| `WorkspaceModel.WorkspaceModel.MoveDeviceNode` | src/ui/models/workspace_model.cc:3845-3979 | the tree stays sound; a refused move changes nothing, and any other leaves the tree with the node among its new siblings, all three path sets carried to its new address, which may be the one it had |
| `WorkspaceModel.WorkspaceModel.WouldCycle` | src/ui/models/workspace_model.cc:3907-3913 | the search up from the new parent ends, and answers whether the destination lies in the moved node's own subtree |
| `WorkspaceModel.WorkspaceModel.PlaceNode` | src/ui/models/workspace_model.cc:3915-3969 | reparents one node and renumbers all its new siblings from 0, and changes no other field of any node |
| `WorkspaceModel.WorkspaceModel.SetParent` | src/ui/models/workspace_model.cc:3872-3886 | changes the parent of exactly the node with the id, group or device |
| `WorkspaceModel.WorkspaceModel.SetOrder` | src/ui/models/workspace_model.cc:3887-3900 | changes the order of exactly the node with the id, group or device |
| `WorkspaceModel.WorkspaceModel.SetOrders` | src/ui/models/workspace_model.cc:3968-3969 | numbers each id by its place in the list, one at a time, and leaves the rest |
| `WorkspaceModel.GatherSiblings` | src/ui/models/workspace_model.cc:3918-3943 | the destination's children in list order, groups before devices, without the moved node |
| `WorkspaceModel.OrderWith` | src/ui/models/workspace_model.cc:3948-3966 | the moved id stands before the sibling named, or last when that one is not there, and the others keep their order |
| `NodeMoves.MoveKeepsSound` | src/ui/models/workspace_model.cc:3907-3913 | of the moves that find their node, those that keep the whole graph acyclic are exactly those not refused |
| `NodeMoves.MoveShowsInserted` | src/ui/models/workspace_model.cc:3918-3969 | the destination then shows its old visible sequence with the node taken out and put back before the one named, and every order is the place shown |
| `NodeMoves.MoveLeavesOthers` | src/ui/models/workspace_model.cc:3915-3946 | every other parent shows what it showed, less the moved node |
| `NodeMoves.VisibleIsDistinct` | src/ui/models/workspace_model.cc:3775-3799 | no child of a parent is shown twice |
| `Siblings.StableSortIsUnique` | src/ui/models/workspace_model.cc:3944-3946 | a sequence is the stable sort of another exactly when it is in order and keeps each order's siblings as they came |
| `Siblings.DropCommutesWithSort` | src/ui/models/workspace_model.cc:3944-3946 | sorting without one sibling is sorting and then leaving it out |
| `Siblings.NumberedSortsAsListed` | src/ui/models/workspace_model.cc:3968-3969 | renumbered siblings sort into the sequence that numbered them, however they lie in the two lists |
| `Forests.AcyclicIffNoNodeIsItsOwnAncestor` | src/ui/models/workspace_model.cc:3907-3913 | the rank that bounds every walk exists exactly when no node can be reached from itself |
| `Forests.MoveKeepsAcyclic` | src/ui/models/workspace_model.cc:3907-3916 | giving a node a new parent keeps the graph acyclic if and only if the parent is not below the node |
| `Forests.SpliceWalk` | src/ui/models/workspace_model.cc:3672-3709 | taking a node out and giving its children to its parent removes that node, and only it, from every walk |
| `Forests.CopyKeepsAcyclic` | src/ui/models/workspace_model.cc:1852-1890 | copies under fresh ids, hung from copied parents where there are any, close no cycle |
| `Forests.CopyWalk` | src/ui/models/workspace_model.cc:1852-1890 | the walk up from a copy is the walk up from its original with copies in place of what was copied |
| `WorkspaceModel.MoveCarriesEveryField` | src/ui/models/workspace_model.cc:3971 | whatever fields of which nodes are published, pushed and drawn, the three path sets are the paths of the same fields of the same nodes after the move, and the nodes are as placed |
| `WorkspaceModel.RerootCarriesEveryField` | src/ui/models/workspace_model.cc:456-474 | rerooting a node takes each of the three path sets, each of fields of its own, to the paths of the same fields, for moves and labels alike |
| `NodesAfter.MoveKeepsTheRest` | src/ui/models/workspace_model.cc:3915-3969 | a move changes one parent and the orders of the siblings there, and of the nodes nothing else |
| `NodesAfter.MovedStandsBefore` | src/ui/models/workspace_model.cc:3948-3969 | the moved node is shown just before the sibling named, or last without one, and the others in the order they had |
| `NodePaths.RerootCommutes` | src/ui/models/workspace_model.cc:386-398 | rerooting commutes with addressing for any set of fields, if no other node's path lies under the old address |
| `NodePaths.FieldPathFollows` | src/ui/models/workspace_model.cc:386-398 | every path of every node in the subtree is carried to that node's own new address with the same field |
| `NodePaths.OtherFieldPathStays` | src/ui/models/workspace_model.cc:381-398 | a path of a node outside the subtree is left right if and only if it was not under the old address, or the address did not change |
| `NodePaths.TwinPathGoesAlong` | src/ui/models/workspace_model.cc:381-398 | the paths of a node elsewhere with the same address are carried along to where this node went, which is wrong for them exactly when its address changed |
| `NodePaths.LikeNamedSiblings` | src/plugins/devices/device_tree.cc:159-176 | siblings known by one name have one address |
| `RenameExamples.RenamingTakesTheCopysPath` | src/ui/models/workspace_model.cc:1786-1810 | a sound tree of a device and its duplicate: renaming the device takes the published path of the duplicate |
| `NodePaths.InsideAddress` | src/plugins/devices/device_tree.cc:159-176 | the address of a node below another extends that one's by a part that does not depend on where the upper one hangs |
| `Paths.RerootPaths` | src/ui/models/workspace_model.cc:386-398 | the loop computes the image of the path set under carrying from one prefix to the other |
| `Paths.SegmentsDecide` | src/ui/models/workspace_model.cc:381-384 | for labels without a slash, a path whose next segment is a label lies under a prefix ending in another exactly when the labels are equal |
| `Paths.ThereAndBackRestores` | src/ui/models/workspace_model.cc:386-398 | rerooting there and back restores a path set if and only if no path outside the old prefix was already under the new one |
| `Paths.CarriedAllFixes` | src/ui/models/workspace_model.cc:386-398 | carrying a set of paths leaves the set as it was if and only if the prefixes are equal or none of the paths lies under the old one |
| `WorkspaceModel.RerootNodePaths` | src/ui/models/workspace_model.cc:456-475 | all three path sets are carried to the node's present address; equal prefixes change nothing |
| `WorkspaceModel.WorkspaceModel.SetDeviceGroupLabel` | src/ui/models/workspace_model.cc:3731-3741 | unknown ids change nothing; else the group alone is relabelled and all paths are carried to its new address |
| `WorkspaceModel.RelabelRehomes` | src/ui/models/workspace_model.cc:3731-3741 | relabelling a node changes no parent and no other name, so the laws of paths hold of it |
| `NodesAfter.RelabelShows` | src/ui/models/workspace_model.cc:3731-3741 | the node carries the new label, is known by it or by its id when it is empty, and nothing else of any node changes |
| `WorkspaceModel.WorkspaceModel.SetDeviceLabel` | src/ui/models/workspace_model.cc:1895-1932 | an unknown device or an unchanged label pushes no command; else the command made is applied, and the tree stays sound |
| `WorkspaceModel.UndoRestoresTheBase` | src/ui/models/workspace_model.cc:608-645 | undoing gives back the whole configuration the rename was made on; doing carries published and pushed paths and leaves the drawn ones |
| `WorkspaceModel.RenameRerootsIffNothingDrawn` | src/ui/models/workspace_model.cc:1916-1927 | renaming leaves the fully rerooted tree if and only if the address does not change or nothing drawn lies under it |
| `RenameExamples.DrawnPathIsLeft` | src/ui/models/workspace_model.cc:1916-1927 | a renamed device leaves its drawn path at an address that no field of any node has |
| `WorkspaceModel.UndoLosesNothingElseIff` | src/ui/models/workspace_model.cc:624-645 | whatever is on show, undo gives back the base; it loses nothing but the rename if and only if nothing was done since the rename, and exactly then redo brings back what was on show |
| `WorkspaceModel.UndoTakesBackMoves` | src/ui/models/workspace_model.cc:624-645 | undoing a rename takes back a move made since: its node is under the parent moved to afterwards if and only if it was under it in the base |
| `RenameExamples.UndoingARenameUndoesTheMove` | src/ui/models/workspace_model.cc:3845-3979 | a history on a sound tree: rename, move into a group, undo, and the device is out of the group |
| `WorkspaceModel.RedoneIsSound` | src/ui/models/workspace_model.cc:624-645 | the configuration redo puts in place is sound, shows the new label and paths, and is the base in everything else |
| `WorkspaceModel.WorkspaceModel.UndoSetDeviceLabel` | src/ui/models/workspace_model.cc:624-645 | for a command made by a rename the configuration is the one it was made on, whatever it was before; a device missing from the base changes nothing |
| `WorkspaceModel.WorkspaceModel.RedoSetDeviceLabel` | src/ui/models/workspace_model.cc:624-645 | for such a command the tree is sound, shows the new label and paths, and differs from the base in nothing else; a missing device changes nothing |
| `WorkspaceModel.WorkspaceModel.ApplyLabelState` | src/ui/models/workspace_model.cc:631-645 | the base with one state put in replaces the configuration, or nothing happens when the base lacks the device |
| `WorkspaceModel.WorkspaceModel.DeleteDeviceGroup` | src/ui/models/workspace_model.cc:3660-3719 | unknown ids change nothing; else the tree is sound, has the group spliced out, and holds the paths and session switches that leaves |
| `WorkspaceModel.ChildPrefixesIn` | src/ui/models/workspace_model.cc:3677-3693 | the children in list order with their prefixes in the old tree |
| `WorkspaceModel.RerootChildren` | src/ui/models/workspace_model.cc:3711-3712 | paths are carried through each child's pair of prefixes in turn |
| `WorkspaceModel.AdoptAndRemove` | src/ui/models/workspace_model.cc:3695-3709 | every child hangs from the group's parent, the group alone is gone, and order in the lists is kept |
| `WorkspaceModel.RenameCommand` | src/ui/models/workspace_model.cc:1916-1927 | the command keeps the base, the old label and paths, and the new ones read off a renamed copy |
| `WorkspaceModel.GroupRemoved` | src/ui/models/workspace_model.cc:3672-3714 | prefixes are read before the children are reparented, the children rerooted in turn, and what is left under the group erased |
| `NodesAfter.GroupIsGone` | src/ui/models/workspace_model.cc:3672-3714 | the group alone is gone from the list, its children carry its parent and are otherwise what they were, and no session holds a switch of it |
| `GroupDeletion.DeletionKeepsSound` | src/ui/models/workspace_model.cc:3689-3709 | the parent graph afterwards is the old one with the group spliced out, and stays acyclic |
| `GroupDeletion.AncestorsLoseOnlyTheGroup` | src/ui/models/workspace_model.cc:3689-3709 | every node left has the ancestors it had, less exactly the group |
| `GroupDeletion.OtherGroupsKeepTheirDevices` | src/plugins/devices/device_tree.cc:179-208 | every other group holds the same devices in the same order |
| `GroupDeletion.WorldLosesOneFactor` | src/plugins/devices/device_tree.cc:104-113 | a descendant's world was above times the group's transform times below, and is now above times below |
| `GroupDeletion.WorldElsewhereStays` | src/plugins/devices/device_tree.cc:104-113 | nodes not below the group keep their world transform |
| `GroupDeletion.EnabledWithoutTheGroup` | src/ui/models/workspace_model.cc:477-484 | what is switched on for a session is as it was with the group switched on |
| `GroupDeletion.ChildPathsFollowOrVanish` | src/ui/models/workspace_model.cc:3711-3713 | a path at or below any child of the group, whatever the names of the others, ends at its node's new address if and only if that address is not under the group's old one |
| `GroupDeletion.ChildrenActAlike` | src/ui/models/workspace_model.cc:3711-3712 | children whose old addresses both hold a path, like-named siblings among them, carry it to the same place |
| `Paths.CarriedOnce` | src/ui/models/workspace_model.cc:3711-3712 | a path carried out from below all the prefixes is carried once, however many pairs are tried |
| `GroupDeletion.NamesDecideWhatVanishes` | src/ui/models/workspace_model.cc:3711-3713 | for labels without a slash, of the paths below the group those below the children named like it are lost and no others |
| `GroupDeletion.PathSurvivesIff` | src/ui/models/workspace_model.cc:3662-3722 | a published path of any node left goes to that node's new address if and only if the new path does not lie under the group's old address |
| `GroupDeletion.PathElsewhereSurvivesIff` | src/ui/models/workspace_model.cc:486-495 | a path of a node that is not below the group is still there if and only if it does not lie under the group's old address |
| `GroupDeletion.TwinSubtreeLosesPaths` | src/ui/models/workspace_model.cc:3711-3713 | every path at or below a group that has the deleted one's address is gone, although its nodes stay where they are |
| `TwinNames.DeletedGroupTakesTwinsPaths` | src/ui/models/workspace_model.cc:3711-3713 | two groups of one label: deleting the empty one loses the published path of a device in the other |
| `WorkspaceModel.DevicePathSurvivesIff` | src/ui/models/workspace_model.cc:1741-1759 | when a device is deleted a path of another node is still there if and only if it does not lie under the device's address |
| `WorkspaceModel.TwinDeviceLosesPaths` | src/ui/models/workspace_model.cc:1755-1757 | every path of a device that has the deleted one's address is gone |
| `TwinNames.DeletedDeviceTakesCopysPath` | src/ui/models/workspace_model.cc:1755-1757 | deleting a device loses the published path of its copy, made by duplicating it |
| `TwinNames.TwinLosesItsPath` | src/ui/models/workspace_model.cc:3711-3713 | a device named like its group loses its published path when the group is deleted |
| `GroupDeletion.PathsElsewhereStay` | src/ui/models/workspace_model.cc:486-495 | nothing is left under the group's old address and every path not under it stays |
| `GroupDeletion.AddressElsewhereStays` | src/plugins/devices/device_tree.cc:159-176 | nodes not below the group keep their address |
| `WorkspaceModel.WorkspaceModel.DeleteDevice` | src/ui/models/workspace_model.cc:1741-1759 | unknown ids change nothing; else no device has the id any more, every other is found as it was, the groups stay, its paths and session switches are gone and the tree stays sound |
| `WorkspaceModel.DeviceDeletionKeepsAddresses` | src/ui/models/workspace_model.cc:1755-1759 | deleting a device changes no other node's address or world transform |
| `NodesAfter.DeviceIsGone` | src/ui/models/workspace_model.cc:1741-1758 | the device alone is gone from the list, the others in the order they had, and no session holds a switch of it |
| `WorkspaceModel.WorkspaceModel.CreateDeviceGroup` | src/ui/models/workspace_model.cc:3633-3658 | a missing parent is refused; else one group is added with the lowest free numbered label, and the tree stays sound |
| `WorkspaceModel.CreationKeepsSound` | src/ui/models/workspace_model.cc:3645-3655 | a group with an unused id hung from another node closes no cycle and changes no other parent |
| `NodesAfter.GroupIsAdded` | src/ui/models/workspace_model.cc:3643-3655 | the new group is found under its id, where there was none, and nothing else changes |
| `Labels.NextAvailableLabel` | src/core/util/string_utils.h:39-47 | the unbounded loop ends, at the least number from 1 whose label is free |
| `Labels.TakenRunIsShort` | src/core/util/string_utils.h:43-46 | n different candidates in use need at least n labels in use |
| `Labels.DecimalIsInjective` | src/core/util/string_utils.h:44 | numbers are written differently |
| `Labels.DecimalReadsBack` | src/core/util/string_utils.h:44 | the number is written in decimal digits that read back as it, with no zero in front |
| `Labels.CandidateReads` | src/core/util/string_utils.h:44 | a candidate is the prefix, an underscore and the decimal of its number |
| `WorkspaceModel.WorkspaceModel.DuplicateDeviceNode` | src/ui/models/workspace_model.cc:1786-1893 | an unknown id changes nothing; a device is added once more under a fresh id, a group is copied with its whole subtree, everything else stays, and the tree stays sound |
| `NodeCopies.CollectSubtree` | src/ui/models/workspace_model.cc:1823-1848 | the recursion ends and maps exactly the group and every node whose walk comes to it |
| `NodeCopies.SubtreeIs` | src/ui/models/workspace_model.cc:1823-1848 | a subtree is its root, its child groups' subtrees and its devices |
| `NodeCopies.DuplicateKeepsSound` | src/ui/models/workspace_model.cc:1852-1890 | copying any set of nodes under fresh ids keeps ids unique and the graph acyclic |
| `NodeCopies.CopyHangsAlike` | src/ui/models/workspace_model.cc:1852-1861 | the ids above a copied group are those above its original with the copied groups replaced |
| `NodeCopies.CopiedDeviceHangsAlike` | src/ui/models/workspace_model.cc:1862-1890 | and so are those above a copied device |
| `NodesAfter.CopyIsAlike` | src/ui/models/workspace_model.cc:1852-1890 | a copy has its original's label, order, collapsed state and transform, and the copy of its parent, or the parent itself, as its parent |
| `NodesAfter.NothingElseIsAdded` | src/ui/models/workspace_model.cc:1852-1890 | every id that is no copy's finds what it found |
| `NodesAfter.CopyShowsAlike` | src/ui/models/workspace_model.cc:1823-1890 | a copied group shows the copies of the children its original shows, in the same order |
| `NodesAfter.CopyHangsFromCopies` | src/ui/models/workspace_model.cc:1823-1890 | the ids above a copy are those above its original with copies in place of copied groups |
| `NodesAfter.CopyStandsAlike` | src/ui/models/workspace_model.cc:1823-1890 | every copy stands where its original stands in the world |
| `TreeRows.DeviceTreeRows` | src/ui/models/workspace_model.cc:3743-3843 | the recursive walk ends and lists the rows the specification lists |
| `MovedRows.MovedHasRowIff` | src/ui/models/workspace_model.cc:3845-3979 | after a move carried out its node has a row if and only if the way up from the destination is open, and never on a device or an unknown id |
| `TreeRows.RowsAreTheNodesShown` | src/ui/models/workspace_model.cc:3773-3841 | the rows are each node whose way up to the root is open, once, at its depth, and no other |
| `RowOrder.RowsAreInOrder` | src/ui/models/workspace_model.cc:3773-3841 | one row comes before another if and only if its node is an open group above the other's, or of the siblings the two lie below or are, its own is shown first |
| `RowOrder.PrecedesOneWay` | src/ui/models/workspace_model.cc:3797-3816 | of two nodes at most one precedes the other |
| `RowOrder.HasRowIffOpenAbove` | src/ui/models/workspace_model.cc:3773-3841 | a node has a row if and only if every step up to the root comes to a group that is not collapsed, and its depth is the number of those steps |
| `DeviceTree.DeviceAddress` | src/plugins/devices/device_tree.cc:129-177 | the climb and the reversed loop give the names from the root down joined by slashes, or the id itself when there is no node |
| `DeviceTree.EffectiveWorldTransform` | src/plugins/devices/device_tree.cc:80-114 | the world multiplied up from the node is the product read from the root down |
| `DeviceTree.WorldRecurses` | src/plugins/devices/device_tree.cc:104-113 | a child's world is its parent's world times its parent's transform |
| `DeviceTree.EffectiveSessionEnabled` | src/plugins/devices/device_tree.cc:15-54 | a node is on exactly when neither it nor any id on its way up is switched off |
| `DeviceTree.EnabledIffNothingAboveIsOff` | src/plugins/devices/device_tree.cc:15-54 | on means that the node is not switched off and, if there is such a node, nothing that any number of steps up from its parent comes to is |
| `DeviceTree.DeviceIdsInGroup` | src/plugins/devices/device_tree.cc:179-208 | the devices whose walk comes to the group, in list order |
| `DeviceTree.DeviceIdsOneMore` | src/plugins/devices/device_tree.cc:183-206 | one more device adds its id at the end if and only if it has one and some number of steps up from its parent comes to the group |
| `DeviceTree.IsDescendantOf` | src/ui/models/workspace_model.cc:3610-3631 | a group counts as its own descendant, a device does not, and a missing node has no ancestors |
| `DeviceTree.WalkMeets` | src/plugins/devices/device_tree.cc:196-204 | the loop ends and finds an id exactly when it is on the walk |
| `Forests.WalkIsUp` | src/plugins/devices/device_tree.cc:197-204 | an id is on the walk exactly when some number of single steps up comes to it |
| `DeviceTree.GroupIndexById` | src/plugins/devices/device_tree.cc:116-121 | the first index of the id, or -1 when no group has it |
| `DeviceTree.FindNode` | src/ui/models/workspace_model.cc:3854-3871 | a group of the id, else the first device of it, else nothing |
| `Matrices.Multiply` | src/core/util/geometry_utils.cc:11-22 | the three loops compute the matrix product |
| `Matrices.ProductEntry` | src/core/util/geometry_utils.cc:11-22 | each of the sixteen entries, from the numbers of the two matrices |
| `Matrices.ProductAssociates` | src/core/util/geometry_utils.cc:11-22 | the product is associative over the reals |
| `Matrices.IdentityIsNeutral` | include/pointcaster/core_types.h:31-39 | the default matrix is neutral on both sides |
| `OperatorPipeline.EveryFrameInExactlyOnePlace` | src/pipeline/concurrent_operator_pipeline.cc:73-139 | in every interleaving each submitted frame is in exactly one of queued, evicted, held, superseded, dropped, returned as nothing or published, and no other frame is anywhere |
| `OperatorPipeline.GateIsMonotonic` | src/pipeline/concurrent_operator_pipeline.cc:113-125 | the gate never goes back, wins strictly increase, and the stored frame never runs ahead of the gate |
| `OperatorPipeline.LatestBehindGate` | src/pipeline/concurrent_operator_pipeline.cc:117-127 | the stored frame is never newer than the gate |
| `OperatorPipeline.SubmitEvictsAtMostOne` | src/pipeline/concurrent_operator_pipeline.cc:79-82 | one submit evicts at most one frame, whatever the workers do between its steps |
| `OperatorPipeline.OldestLeavesFirst` | src/pipeline/concurrent_operator_pipeline.cc:79-97 | over every run a frame evicted, taken by a worker or done with is older than every frame still queued |
| `OperatorPipeline.QueueKeepsTheNewest` | src/pipeline/concurrent_operator_pipeline.cc:73-84 | submitted and not yet taken, the queue holds the newest frames, as many as there is room for, in order, and all older ones were evicted; the room is the size asked for, else the workers', else one |
| `OperatorPipeline.CheckPassesOverIff` | src/pipeline/concurrent_operator_pipeline.cc:98-101 | over every run a taken frame is passed over if and only if it or a newer one has won the gate |
| `OperatorPipeline.NewestIsPublishedAtRest` | src/pipeline/concurrent_operator_pipeline.cc:98-127 | at rest the gate is at the last frame submitted if and only if no operator returned nothing for it |
| `PipelineRest.PipelineComesToRest` | src/pipeline/concurrent_operator_pipeline.cc:62-139 | from every reachable state, with no more submissions and no spurious exchange failures, every way of running on is bounded, and it can stop exactly at rest |
| `PipelineRest.StepProgresses` | src/pipeline/concurrent_operator_pipeline.cc:62-139 | every step but a submission and a spurious failure leaves less to do, retries at the gate included |
| `PipelineRest.RestIffNoProgress` | src/pipeline/concurrent_operator_pipeline.cc:92-127 | with at least one worker, at rest means that nothing but a submission can happen |
| `PipelineRest.NoWorkersNoRest` | src/pipeline/concurrent_operator_pipeline.cc:73-84 | without workers a queued frame stays queued |
| `OperatorPipeline.OneWorkerStoresWhatItPublishes` | src/pipeline/concurrent_operator_pipeline.cc:117-127 | with one worker the stored frame is the published one except between its gate and its store |
| `OperatorPipeline.OvertakenWinnerStoresLast` | src/pipeline/concurrent_operator_pipeline.cc:117-127 | with two workers or more a run exists that ends at rest with an older frame stored than published |
| `OperatorPipeline.StoreNeverGoesBackIffOneWorker` | src/pipeline/concurrent_operator_pipeline.cc:117-127 | the stored frame never goes back to an older one in any interleaving if and only if there is at most one worker |
| `OperatorPipeline.StepKeepsInv` | src/pipeline/concurrent_operator_pipeline.cc:62-139 | every step of submit and of any worker keeps the invariant |
| `PointStreamer.Streamer.ProcessTick` | src/point_streamer/point_streamer.cc:168-361 | one tick sends, caches and forgets per address as the tick relation says, for every configuration, subscription and stream list |
| `PointStreamer.Streamer.HandleSubscriberMessage` | src/point_streamer/point_streamer.cc:141-156 | counts a topic up or down, never below zero, and remembers new subscribers |
| `PointStreamer.Streamer.ReceiveSubscriptions` | src/point_streamer/point_streamer.cc:200-205 | every waiting message is counted once, in order |
| `PointStreamer.Streamer.StoppedChannels` | src/point_streamer/point_streamer.cc:221-236 | lists exactly the cached addresses whose first publishing stream is missing, null or empty |
| `PointStreamer.Streamer.RedirectStopped` | src/point_streamer/point_streamer.cc:238-246 | each stopped address sends the clearing cloud in place of its first stream, or after the others |
| `PointStreamer.Streamer.CacheDirty` | src/point_streamer/point_streamer.cc:249-305 | exactly the changed streams are framed and cached |
| `PointStreamer.Streamer.Send` | src/point_streamer/point_streamer.cc:310-346 | what goes out is the cached frame of each publishing stream that changed, was newly subscribed or is sent every tick |
| `PointStreamer.FramesFollowLiveness` | src/point_streamer/point_streamer.cc:207-354 | over any run of ticks that leave the socket bound, with one stream to an address, the frames sent to it form (shown+ clear)* shown*, and clears equal the times it stopped |
| `PointStreamer.CacheHoldsLiveStreams` | src/point_streamer/point_streamer.cc:249-305 | after a tick exactly the subscribed, enabled, non-empty streams are cached, each with its framed packet |
| `PointStreamer.TickSends` | src/point_streamer/point_streamer.cc:307-345 | each address gets its newest frame when it changed or someone needs it, one clearing frame when it stops, else nothing |
| `PointStreamer.TickOfOneStream` | src/point_streamer/point_streamer.cc:219-305 | the same of one address fed by at most one stream, cached or not |
| `PointStreamer.StoppingTick` | src/point_streamer/point_streamer.cc:219-345 | a stopping channel sends a single clearing frame if and only if at most one stream publishes at its address, and nothing but clearing frames if and only if no further stream there has something new |
| `PointStreamer.InStepUnlessSomeTickStrays` | src/point_streamer/point_streamer.cc:207-354 | over any run, shared addresses included, the frames sent show an address exactly while it is cached, after every tick, if and only if no tick stopped it with something new from a further stream |
| `PointStreamer.SharedAddressIsNeverCleared` | src/point_streamer/point_streamer.cc:238-246 | a run from an empty cache in which two streams share an address, stop and go: the last frame sent still shows something and nothing was ever cleared |
| `PointStreamer.CountsCoverSubscriptions` | src/point_streamer/point_streamer.cc:141-156 | a topic's count is at least what was subscribed less what was unsubscribed, in every order of messages, and exactly that when no unsubscription came before its subscription |
| `PointStreamer.SubscriberIsNeverMissed` | src/point_streamer/point_streamer.cc:158-162 | an address someone is subscribed to is always found subscribed |
| `PointStreamer.ListenersAreSubscribers` | src/point_streamer/point_streamer.cc:374-381 | has_listeners answers yes only for addresses found subscribed, and for all of those when every topic is empty or a whole address |
| `PointStreamer.TopicIdentifiesAddress` | src/point_streamer/point_streamer.cc:147 | a frame tells its address apart from every other |
| `PointStreamer.Streamer.SyncSocket` | src/point_streamer/point_streamer.cc:168-205 | the socket is rebound exactly when settings changed or a retry is due, and what is counted and newly subscribed follows from that |
| `PointStreamer.TickRebinds` | src/point_streamer/point_streamer.cc:187-205 | when a tick binds anew, what it then counts, and what was tried |
| `PointStreamer.SettingsByCase` | src/point_streamer/point_streamer.cc:171-186 | the address or a star, the port, and the limit configured or twice the enabled streams, never below what is allowed |
| `PointStreamer.EnabledCountIs` | src/point_streamer/point_streamer.cc:172-175 | the streams whose channel is on, counted |
| `PointStreamer.ChannelIsOffIff` | src/point_streamer/point_streamer.cc:47-55 | a channel is off if and only if the first configuration of its address says so |
| `PointStreamer.Streamer.EraseStopped` | src/point_streamer/point_streamer.cc:350-354 | exactly the stopped addresses leave both caches |
| `PointStreamer.Streamer.PublishAndSend` | src/point_streamer/point_streamer.cc:207-354 | each address is cached and sent to as one tick of its channel says |
| `PointStreamer.Streamer.Wants` | src/point_streamer/point_streamer.cc:314-324 | a frame is wanted when all are, when it changed, or when a new topic is a prefix of its address |
| `PointStreamer.ResendsIff` | src/point_streamer/point_streamer.cc:314-324 | an unchanged frame goes out again if and only if every frame does, or a message this tick subscribed to a prefix of its address on a bound socket |
| `PointStreamer.SubscribedMembers` | src/point_streamer/point_streamer.cc:141-151 | the new topics are those of the messages whose first byte is 1, less a trailing NUL |
| `PointStreamer.SubscriberIsFoundIff` | src/point_streamer/point_streamer.cc:158-162 | with no unsubscription before its subscription, an address has a subscriber if and only if more subscribed than unsubscribed to some prefix of it |
| `PointStreamer.TickExtendsFrames` | src/point_streamer/point_streamer.cc:207-354 | one tick keeps a client's frames in step with the cache and adds a clear exactly when the address stops |
| `Wire.FrameMatchesItsAddress` | src/pointreceiver/pointreceiver.cc:204-205 | for addresses without NUL a frame for one matches the topic of another exactly when that is empty or the same |
| `Wire.TopicIsInjective` | src/pointreceiver/pointreceiver.cc:204-205 | no two addresses have one topic |
| `Wire.UnframeInvertsFrame` | src/pointreceiver/pointreceiver.cc:312-316 | splitting a frame at its NUL gives back the address and the exact payload |
| `Wire.FrameInvertsUnframe` | src/pointreceiver/pointreceiver.cc:312-326 | and any frame that splits is the frame of its parts |
| `Wire.FindNul` | src/pointreceiver/pointreceiver.cc:313 | the first NUL, or none exactly when there is none |
| `Wire.UnframeFinds` | src/pointreceiver/pointreceiver.cc:313-314 | a frame splits exactly when it holds a NUL, at the first one |
| `Subscriptions.SyncSubscriptions` | src/pointreceiver/pointreceiver.cc:194-218 | whatever the socket held for the previous snapshot, it then holds exactly one subscription for each address of the latest |
| `Subscriptions.SubscribeNew` | src/pointreceiver/pointreceiver.cc:202-207 | one subscription is added for each address that is new |
| `Subscriptions.UnsubscribeOld` | src/pointreceiver/pointreceiver.cc:212-216 | one is taken away for each address that is gone |
| `Subscriptions.Receiver.Sync` | src/pointreceiver/pointreceiver.cc:299-302 | the worker's socket matches the snapshot it has just loaded |
| `Subscriptions.Receiver.Subscribe` | src/pointreceiver/pointreceiver.cc:626-638 | adds the address to a new snapshot; the socket waits for the next sync |
| `Subscriptions.Receiver.Unsubscribe` | src/pointreceiver/pointreceiver.cc:640-652 | takes the address out of a new snapshot |
| `Subscriptions.Receiver.RestartWorker` | src/pointreceiver/pointreceiver.cc:287-293 | a new worker starts from a fresh socket and no snapshot |
| `Subscriptions.NetCountsHolders` | src/point_streamer/point_streamer.cc:141-156 | the net of all receivers' messages for a topic is the number of receivers that hold it |
| `Subscriptions.NetOfPermutation` | src/point_streamer/point_streamer.cc:141-156 | in whatever order they arrive |
| `Subscriptions.ReceiversAreHeard` | src/point_streamer/point_streamer.cc:158-162 | the publisher finds an address subscribed whenever some receiver would be sent its frames |
| `ReceiverQueue.Queue.Arrive` | src/pointreceiver/pointreceiver.cc:343-354 | a received cloud replaces the one waiting for its address and takes a new, greatest timestamp |
| `ReceiverQueue.Queue.CollectLatest` | src/pointreceiver/pointreceiver.cc:304-317 | of a batch of frames the last of each address is kept and frames without NUL are skipped |
| `ReceiverQueue.LastPacketIsLast` | src/pointreceiver/pointreceiver.cc:309-317 | the payload kept for an address is what follows it and a NUL in the last message that begins so |
| `ReceiverQueue.Queue.ReceiveBatch` | src/pointreceiver/pointreceiver.cc:304-356 | a batch is received as one arrival for each address whose last frame decodes, in some order |
| `ReceiverQueue.BatchIsArrivals` | src/pointreceiver/pointreceiver.cc:319-356 | a received batch is a run of single arrivals |
| `ReceiverQueue.Queue.Dequeue` | src/pointreceiver/pointreceiver.cc:654-690 | with nothing pending it times out and changes nothing; else it borrows the cloud of the least timestamp and that address is no longer pending |
| `ReceiverQueue.Queue.Stop` | src/pointreceiver/pointreceiver.cc:605-620 | every frame is forgotten and the timestamp kept |
| `ReceiverQueue.DeliveriesAreInOrder` | src/pointreceiver/pointreceiver.cc:666-690 | over any run the timestamps of deliveries strictly increase, so no cloud is delivered twice, and what still waits is newer than all of them |
| `ReceiverQueue.TakeDeliversNewest` | src/pointreceiver/pointreceiver.cc:687-690 | a dequeue hands out the cloud that arrived last at its address |
| `ReceiverQueue.SlotsHoldWaitingAndBorrowed` | src/pointreceiver/pointreceiver.cc:687-690 | over any run each address holds exactly the cloud waiting and the one borrowed, which stays until the address is dequeued again or all is stopped |
| `ReceiverQueue.OldestExists` | src/pointreceiver/pointreceiver.cc:669-681 | if anything is pending one address has the least timestamp |
| `ReceiverQueue.Queue.OldestPending` | src/pointreceiver/pointreceiver.cc:665-680 | finds the pending address of least timestamp, or that there is none |
| `ReceiverQueue.DequeuesDrainInOrder` | src/pointreceiver/pointreceiver.cc:666-690 | n dequeues without arrivals deliver the n pending addresses, least timestamp first |
| `ReceiverQueue.BoundedOvertaking` | src/pointreceiver/pointreceiver.cc:666-690 | over any run in which a waiting address is neither refreshed, taken nor stopped, its slot stays, and the dequeues and those still ahead of it are together at most those that were ahead, whatever arrives elsewhere |
| `ReceiverQueue.WaitsExactlyBehindThoseAhead` | src/pointreceiver/pointreceiver.cc:666-690 | so it can see n dequeues go by if and only if at least n addresses were ahead of it |
| `ReceiverQueue.OnlyRefreshesStarve` | src/pointreceiver/pointreceiver.cc:351-353 | any longer wait without a stop has a refresh of that address in it |
| `ReceiverQueue.RefreshedAddressCanStarve` | src/pointreceiver/pointreceiver.cc:351-353 | an address that receives before every dequeue stays pending through any number of them, while another is delivered each time |
| `FramePool.VisibleFramesAreNeverWritten` | src/pointreceiver/touchdesigner/PointreceiverPlugin.cc:175-185 | in every interleaving a published frame, or one a reader holds or is testing, is not written by any step |
| `FramePool.HeldViewsAreStable` | src/pointreceiver/touchdesigner/PointreceiverPlugin.cc:670-703 | a view shows the same frame for as long as it is held, through further frames and reconnects |
| `FramePool.SequencesOnlyIncrease` | src/pointreceiver/touchdesigner/PointreceiverPlugin.cc:372-379 | published sequences strictly increase, reconnects included, and a reader, however long it takes between loading and testing, is only handed newer frames |
| `FramePool.SequencesCountFrames` | src/pointreceiver/touchdesigner/PointreceiverPlugin.cc:372-379 | over every run the sequences published are 1, 2, 3 and on, as many as frames received but for one under way, reconnects included |
| `FramePool.PublishShowsWhatWasWritten` | src/pointreceiver/touchdesigner/PointreceiverPlugin.cc:365-379 | a frame filled and stamped is then on show with that data, that many points and the next number |
| `FramePool.TestHandsOutIff` | src/pointreceiver/touchdesigner/PointreceiverPlugin.cc:680-703 | a reader's test gives a view if and only if the frame has a number other than the one seen last, and points; and changes nothing else |
| `FramePool.ReaderGetsPublished` | src/pointreceiver/touchdesigner/PointreceiverPlugin.cc:670-703 | a reader undisturbed gets a view of the published frame under the same condition |
| `FramePool.ViewsAreCounted` | src/pointreceiver/touchdesigner/PointreceiverPlugin.cc:670-703 | the views of a frame grow by one when one is handed out or copied, shrink by one when one goes, and at no other step |
| `FramePool.RepoolIsFresh` | src/pointreceiver/touchdesigner/PointreceiverPlugin.cc:163-174 | a new pool has the size asked for, of distinct empty frames that none has had, and is scanned from its first; what is on show and held stays |
| `FramePool.NextScanStartsAfter` | src/pointreceiver/touchdesigner/PointreceiverPlugin.cc:175-185 | the slot found free is taken, and the next scan begins with the one after it |
| `FramePool.ScanWithAFreeFrameSucceeds` | src/pointreceiver/touchdesigner/PointreceiverPlugin.cc:175-185 | a scan that began with a free frame never gives up |
| `FramePool.FreeFrameUnlessReadersHoldTheRest` | src/pointreceiver/touchdesigner/PointreceiverPlugin.cc:175-185 | no frame is free if and only if older frames readers refer to, tests in progress included, and the published one fill the pool; at most pool size less two such frames leave one |
| `FramePool.OnlyInPool` | src/pointreceiver/touchdesigner/PointreceiverPlugin.cc:177-184 | a pooled frame is used by the pool alone exactly when it is not published and no reader refers to it |
| `FramePool.ScanWithoutAFreeFrameFails` | src/pointreceiver/touchdesigner/PointreceiverPlugin.cc:177-184 | an undisturbed scan with nothing free passes every slot and gives up with nothing changed |
| `FrameSequences.SequenceAgreesUnlessPublishedIntoClearing` | src/pointreceiver/touchdesigner/PointreceiverPlugin.cc:272-286 | over every interleaving the sequence kept ends as the published frame's, however the stores due land, if and only if no frame was published while a reconnect was clearing |
| `FrameSequences.OnCourseIffSettlesAgreed` | src/pointreceiver/touchdesigner/PointreceiverPlugin.cc:372-379 | the states from which that is so whatever the order of the stores due |
| `FrameSequences.PutRight` | src/pointreceiver/touchdesigner/PointreceiverPlugin.cc:372-379 | a frame published with no reconnect under way puts the two right again, and so does beginning a reconnect |
| `FrameSequences.ClearedAfterStored` | src/pointreceiver/touchdesigner/PointreceiverPlugin.cc:281-284 | a run that publishes between the two clears comes to rest with a frame of sequence 1 on show and the number 0 beside it |
| `SessionRecorder.QueueIsBoundedAndTicksAreAccountedFor` | src/recorder/session_recorder.cc:135-155 | in every interleaving at most 100 frames are queued, and between ticks enqueued plus dropped is the frame counter |
| `SessionRecorder.ProducerReadsTheTrueDepth` | src/recorder/session_recorder.cc:138-150 | where the producer reads it the depth is the queue's length, or one more |
| `SessionRecorder.DropsOnlyWhenFull` | src/recorder/session_recorder.cc:138-150 | over every run a tick drops its frame if and only if a hundred are queued or taken and not yet counted out |
| `SessionRecorder.FramesAreTakenInOrder` | src/recorder/session_recorder.cc:192-206 | over every run frames are taken for writing in the order queued, none passed over |
| `SessionRecorder.NameIsSafe` | src/recorder/session_recorder.cc:108-114 | a sanitised id is letters, digits, dashes and underscores, of the same length, those kept that were so |
| `RecorderClose.StoppedProducerLeaves` | src/recorder/session_recorder.cc:126-156 | once recording is stopped it stays so, and every step of the producer's, and no other, brings it nearer the end of its loop |
| `RecorderClose.StepProgresses` | src/recorder/session_recorder.cc:164-211 | after that every step of the writer and the pool, waiting aside, leaves less to do |
| `RecorderClose.NothingLeftIffClosed` | src/recorder/session_recorder.cc:199-211 | nothing is left to do if and only if the writer has closed: it never waits for a write that cannot end |
| `RecorderClose.StoppedRecordingCloses` | src/recorder/session_recorder.cc:126-211 | from every reachable state in which the producer has left its loop, every way of running on is bounded, and can stop only with the flag down, the queue empty and each owed file written once |
| `SessionRecorder.DepthIsWrappedIff` | src/recorder/session_recorder.cc:138-166 | over every run the counter has wrapped if and only if a frame is queued and not yet counted, already taken and counted out, and none is left queued |
| `SessionRecorder.OthersCanReadAWrappedDepth` | src/recorder/session_recorder.cc:144-147 | elsewhere it can be wrapped: a run exists that counts a frame out before it was counted in |
| `SessionRecorder.ClosedMeansEverythingWasWrittenOnce` | src/recorder/session_recorder.cc:164-211 | once the writer is done each device's share of each queued frame was written exactly once, nothing else was, and nothing is in flight |
| `SessionRecorder.FileWritingCoversTheWriter` | src/recorder/session_recorder.cc:164-211 | the flag is down exactly before the writer starts and after it is done |
| `SessionRecorder.EachFileOwedOnce` | src/recorder/session_recorder.cc:169-190 | frames of increasing index owe each device's file at most once |
| `SessionRecorder.FilesWrittenOnceIffNoneClash` | src/recorder/session_recorder.cc:104-142 | once the writer is done a queued frame has written the file of each name as often as its devices share the name, so each once if and only if no two devices clash: both present when recording started under ids sanitised alike, or neither present then |
| `SessionRecorder.NamesDifferIff` | src/recorder/session_recorder.cc:104-142 | the names of a frame's devices differ if and only if no two clash |
| `SessionRecorder.AddedDevicesShareAName` | src/recorder/session_recorder.cc:140-142 | two devices added while recording write one file, although their ids differ |
| `SessionRecorder.DifferentIdsCanShareAName` | src/recorder/session_recorder.cc:110-114 | two devices present from the start write one file when their different ids become one name |
| `WorkspacePublisher.Publisher.Tick` | src/publishers/workspace_publisher.cc:60-100 | a tick takes the new snapshot and sends, once each, the changed or pushed paths with a payload whose message does not fail |
| `WorkspacePublisher.Registry.Snapshot` | src/config/config_registry.cc:56-67 | exactly the asked paths that exist, with their values |
| `WorkspacePublisher.ReplayReproducesSnapshot` | src/publishers/workspace_publisher.cc:69-100 | so when none of its messages fail, replaying all updates since startup gives the current value after every tick, for any history of path sets |
| `WorkspacePublisher.OnlyPublishedPathsAreSent` | src/publishers/workspace_publisher.cc:70-84 | a path a subscriber holds was published at some tick, with the value it had then; pushing alone sends nothing |
| `WorkspacePublisher.ReplayIsCurrentIff` | src/publishers/workspace_publisher.cc:69-100 | over every run, failures included, what a subscriber holds of a published path with a payload is current if and only if it was so before the value came, or a tick since let the path through: the first, or one that pushed it, with its message not failing |
| `WorkspacePublisher.UpToDateAfterTick` | src/publishers/workspace_publisher.cc:69-100 | after a tick a subscriber is up to date at a published path exactly when the tick sent it or it was up to date already |
| `WorkspacePublisher.FailedUpdateIsLost` | src/publishers/workspace_publisher.cc:86-98 | a run of two ticks after which a subscriber has never heard of a path whose message failed once |
| `WorkspacePublisher.AppliedAt` | src/publishers/workspace_publisher.cc:72-99 | what a subscriber holds of a path after one tick's updates |
| `SessionClock.TwoAdvancesAreOne` | src/session/session.cc:231-275 | advancing by one time and then another is advancing by their sum, through fractions, loops and stops |
| `SessionClock.SplittingTimeChangesNothing` | src/session/session.cc:231-275 | any way of splitting elapsed time into calls gives the same clock |
| `SessionClock.FrameAfterAnySplit` | src/session/session.cc:257-272 | after any split of time at the frame rate, or at 1 when that is less, the frame is the closed form: wrapped within the region when looping, else held at its end with playing stopped on overrun |
| `SessionClock.AdvancedStaysInRegion` | src/session/session.cc:244-272 | the frame stays within the loop region |
| `SessionClock.AdvancedByCase` | src/session/session.cc:257-272 | the closed form of one advance, case by case, with the snap into the region, the time at the frame rate, and the fraction kept |
| `SessionClock.RegionByCase` | src/session/session.cc:223-247 | the ends of the region, case by case, from the configured ones and the length |
| `SessionClock.LockedFrameByCase` | src/session/session.cc:197-214 | the frame locked to, written out: the out point, the in point within it, and the offset round or held |
| `SessionClock.LockedFrameIsUnique` | src/session/session.cc:206-214 | the frame a device is locked to is the only one that meets the law: congruent to the session's frame in its own range, or held at its end |
| `SessionClock.SequenceDevice.Scrub` | src/session/session.cc:180-219 | a device stops advancing itself and takes the frame the session locks it to, inside its own clamped range |
| `SessionClock.Session.ScrubDevices` | src/session/session.cc:164-221 | every included sequence device is scrubbed and no other is touched |
| `SessionClock.Session.AdvancePlayback` | src/session/session.cc:231-279 | the clock advances by the specification, devices are scrubbed exactly when a frame was applied, and stay where they were otherwise |
| `SessionClock.Session.AdvanceClock` | src/session/session.cc:237-275 | the fields become the advanced clock and the frame to apply is returned, if any |
| `SessionClock.Session.Play` | src/session/session.cc:92-103 | playing from the current frame with no fraction, devices snapped to it |
| `SessionClock.Session.Pause` | src/session/session.cc:105-111 | stops and keeps frame and fraction |
| `SessionClock.Session.Stop` | src/session/session.cc:113-124 | stops at the start frame, not below zero, with no fraction |
| `SessionClock.Session.ScrubTo` | src/session/session.cc:126-135 | goes to the frame, not before the start, and locks the devices to it |
| `SessionClock.Session.SetLoop` | src/session/session.cc:137-144 | sets the region with a start not below zero |
| `SessionClock.Session.SetLooping` | src/session/session.cc:146-152 | sets whether the region is looped |
| `SessionClock.Session.SetFps` | src/session/session.cc:154-160 | sets a rate of at least 1 |
| `SessionClock.Session.UpdateConfig` | src/session/session.cc:29-53 | the whole state afterwards: the timeline is taken over, and the frame too unless it is the one configured before, when only a later region start moves it |
| `SessionClock.MovesUnseenIff` | src/session/session.cc:29-279 | the frame moves without a scrub if and only if a drifted frame snaps to the region before a whole frame is counted, or a configuration puts another in place |
| `SessionUse.InStepUnlessSomeStepStrays` | src/session/session.cc:29-279 | over every interleaving of the update thread, the controls, configurations and scrubs device by device, the devices stay bound for the session frame if and only if no step moves the frame without a scrub or under a scrub of the other thread |
| `SessionUse.OnCourseIffSettlesInStep` | src/session/session.cc:164-221 | however the scrubs due land the devices end on the session frame, if and only if each is on it or will be scrubbed to it and nothing else |
| `SessionUse.StepStaysOnCourse` | src/session/session.cc:29-279 | one step of any kind keeps that if and only if it is none of those |
| `SessionUse.LatestConfigurationIsKept` | src/session/session.cc:29-53 | over every run a configuration is compared with the frame of the one before it, or with the first there was |
| `SessionUse.LatestCountIsKept` | src/session/session.cc:231-233 | over every run the clock reads the latest count of the devices' frames |
| `SessionUse.RegionMovedAway` | src/session/session.cc:252-259 | moving the region away from a playing frame and advancing by less than a frame moves the session and not its devices |
| `SessionUse.ConfiguredElsewhere` | src/session/session.cc:44-52 | a configuration with another frame moves a paused session and not its devices |
| `SessionUse.LateScrub` | src/session/session.cc:275-279 | a stop between the clock and its scrub leaves a stopped session at 0 and its device a frame on |
| `SessionClock.Session.EnterRegion` | src/session/session.cc:244-259 | the resolved region, and the clock snapped into it |
| `SessionClock.Session.CountFrames` | src/session/session.cc:261-275 | the whole frames leave the accumulator and the frame moves on by them, wrapped or stopped |
| `PointClouds.PointCloud.Append` | src/core/point_cloud.cc:193-284 | operator+= leaves the merge of the two values |
| `PointClouds.PointCloud.GrowAttributes` | src/core/point_cloud.cc:210-262 | each attribute the left holds is grown by the right's share |
| `PointClouds.PointCloud.AdoptAttributes` | src/core/point_cloud.cc:264-281 | each attribute only the right holds is taken on, defaulted over the left's points |
| `PointClouds.MergeIsWellFormed` | src/core/point_cloud.cc:193-284 | the merge of well-formed clouds is well-formed |
| `PointClouds.MergeDecodes` | src/core/point_cloud.cc:193-284 | a merged scalar attribute reads back as the left's values and then the right's, defaults where one lacked it |
| `PointClouds.MergeAllDecodes` | src/core/point_cloud.cc:193-290 | in any left fold each point's attribute reads back with its own cloud's value, or, where that cloud lacked it, with exactly the default as the first cloud that brought the name stores it, or the plain default once the name was promoted to floats |
| `PointClouds.MergedIsStoredAs` | src/core/point_cloud.cc:212-281 | the merged cloud holds a name exactly when some cloud with points brought it, stored like the first that did, or as floats once another stored it otherwise |
| `PointClouds.StartingFromFirst` | src/point_streamer/stream_channels.cc:52-70 | starting from a copy of the first cloud with points gives the merge of them all but for the bounds, and those too when the first one came with its own |
| `PointClouds.MergeAllKeepsPoints` | src/core/point_cloud.cc:193-205 | in any left fold each point of each cloud is one point of the result, in order, position and colour together |
| `PointClouds.MergeAllSize` | src/core/point_cloud.cc:193-208 | the result has everyone's points, and the bounds of all of them |
| `PointClouds.GrownScalarDecodes` | src/core/point_cloud.cc:212-262 | growing keeps every decoded value, takes the right's and defaults the rest, promoted or not |
| `PointClouds.AdoptedScalarDecodes` | src/core/point_cloud.cc:264-281 | adopting defaults the left's points and keeps every decoded value |
| `PointClouds.AdoptedPositions` | src/core/point_cloud.cc:264-281 | an attribute of positions the left cloud lacks comes with the origin for each of its points |
| `PointClouds.BroughtFloatsDefault` | src/core/point_cloud.cc:66-84 | points of a cloud without the attribute get 2.5 for the point scale and 0 for any other name |
| `PointClouds.MergedIsSized` | src/core/point_cloud.cc:212-281 | after a merge every attribute has an element for each point, and comes from one of the two |
| `PointClouds.RangesAreTheTypes` | include/pointcaster/core_types.h:103-108 | raw values are those of the four integer types |
| `PointClouds.GrownPositions` | src/core/point_cloud.cc:217-261 | an attribute of points joins only one of points in the same encoding |
| `PointClouds.GrownScalarOverPositions` | src/core/point_cloud.cc:212-262 | a scalar attribute meeting one of points is grown as if the right lacked it |
| `PointClouds.StoredDefaultIsNearDefault` | src/core/point_cloud.cc:66-84 | a quantised default is within half a step of the default, when that is representable |
| `PointClouds.BoundsAreTightest` | include/pointcaster/core_types.h:70-89 | encompassing some points gives the smallest box around them |
| `PointClouds.EncompassAllConcatenates` | include/pointcaster/core_types.h:80-88 | encompassing two runs of points is encompassing one after the other |
| `Quantisation.QuantiseIsNearest` | include/pointcaster/core_types.h:103-116 | the result is in the raw range and no raw value reads back nearer |
| `Quantisation.QuantiseIsMonotone` | include/pointcaster/core_types.h:103-116 | greater values never quantise lower |
| `Quantisation.QuantiseInvertsToValue` | include/pointcaster/core_types.h:100-116 | every raw value comes back from its real value |
| `Quantisation.QuantiseErrorIsHalfAStep` | include/pointcaster/core_types.h:103-116 | on the representable range the error is at most half a step |
| `Quantisation.EncodingForRangeCoversIt` | include/pointcaster/core_types.h:118-128 | the raw extremes read back as exactly the ends of the range |
| `Quantisation.EmptyRangeIsIdentity` | include/pointcaster/core_types.h:125 | an empty range gives the identity encoding |
| `CameraFilter.FilterCloudByPixelMask` | src/camera/camera_frame.cc:171-248 | which error there is, if any, and that it leaves the cloud alone; else the cloud is exactly the selection of the points not dropped |
| `CameraFilter.SelectionFiltersPoints` | src/camera/camera_frame.cc:233-247 | the selection is the order-preserving filter of points taken whole, with colour and every attribute |
| `CameraFilter.SelectionKeepsTheRest` | src/core/point_cloud.cc:165-191 | the bounds, the names, types and encodings of attributes are kept, each with as many elements as points, zero where it had none |
| `CameraFilter.GoneIffHit` | src/camera/camera_frame.cc:192-208 | with hits, a point is gone if and only if a masked pixel has a hit on it that no depth range excuses: there is none, nothing finite is in front, or the hit is no further behind than the range, which a NaN and minus infinity never are |
| `CameraFilter.GoneIffInFront` | src/camera/camera_frame.cc:224-230 | without hits, if and only if a masked pixel shows it in front |
| `CameraFilter.MarkHits` | src/camera/camera_frame.cc:192-208 | a point is kept exactly when no masked pixel hits it within the depth range |
| `CameraFilter.MarkPixel` | src/camera/camera_frame.cc:197-207 | the same for the hits of one more pixel |
| `CameraFilter.MarkFrontmost` | src/camera/camera_frame.cc:224-230 | without hits, exactly when no masked pixel shows it in front |
| `CameraFilter.CollectKept` | src/camera/camera_frame.cc:233-237 | the kept indices, in order |
| `CameraFilter.Compact` | src/camera/camera_frame.cc:239-244 | moving kept elements down in place reads each one before it is overwritten |
| `CameraFilter.GatherAttributes` | src/core/point_cloud.cc:165-191 | every attribute keeps its encoding and holds its elements at the indices, zero where it had none |
| `MeshoptCodec.CloudRoundTrip` | src/core/codec/meshopt.cc:112-169 | with a lossless coder a cloud with points decodes to the same positions, colours and bounds and every size-matching attribute with its type and encoding |
| `MeshoptCodec.StreamRoundTrip` | src/core/codec/meshopt.cc:27-72 | elements of any size, padded or not, come back from their stream |
| `MeshoptCodec.ShapeHoldsElements` | src/core/codec/meshopt.cc:21-25 | whole vertices hold every element with less than one to spare, and none to spare for whole words |
| `MeshoptCodec.EncodeStream` | src/core/codec/meshopt.cc:27-50 | the stream is the coded padded bytes, padded only when they do not fill whole vertices |
| `MeshoptCodec.DecodeStream` | src/core/codec/meshopt.cc:52-72 | fails exactly when the coder does, else gives the elements without the padding |
| `MeshoptCodec.EncodeMeshopt` | src/core/codec/meshopt.cc:112-141 | one stream for each attribute with an element a point, in some order, and none for the others |
| `MeshoptCodec.DecodeMeshopt` | src/core/codec/meshopt.cc:143-169 | fails exactly when some stream or tag does, else is the cloud of all of them |
| `MeshoptCodec.RebuildAttributes` | src/core/codec/meshopt.cc:88-108 | the alternative each tag names is rebuilt; one failure fails the whole |
| `MeshoptCodec.UnflatInvertsFlat` | src/core/codec/meshopt.cc:37-41 | elements come back from their bytes |
| `MeshoptCodec.Compress` | src/core/point_cloud.cc:88-130 | an empty cloud is packed plainly whatever the codec, and the packet names codec and point count |
| `MeshoptCodec.Decompress` | src/core/point_cloud.cc:132-156 | each codec id is decoded by its own decoder; an unknown one, or a body of another kind, fails |
| `MeshoptCodec.PacketRoundTrip` | src/core/point_cloud.cc:88-156 | decompressing what was compressed, plainly or with meshopt, gives back any cloud, less attributes of the wrong size |
| `FrameTasks.SlotsAreBoundedAndAttemptsConserved` | src/plugins/devices/device_plugin.h:223-252 | in every interleaving at most two tasks are in flight, as many as hold slots, and every attempt is dropped, done or under way |
| `FrameTasks.RefusedOnlyWhenFull` | src/plugins/devices/device_plugin.h:227-244 | an attempt is turned away only on seeing both slots held |
| `FrameTasks.LoserTriesAgain` | src/plugins/devices/device_plugin.h:227-244 | after an exchange lost to another thread or for no reason, the next undisturbed one takes a slot when there is room, else the attempt is dropped |
| `FrameTasks.StepKeepsInv` | src/plugins/devices/device_plugin.h:227-252 | every step of claiming, dropping and leaving keeps the counts |

## Left out

- render_path_node_id, session and operator path prefixes: the same prefix tests as the node paths.
- Undo commands other than the device rename: each replaces the configuration by a stored one in the same way.
- Deleting a device while no device adapters exist, which returns at once, and choosing between deleting a device and a group.
- WorkspaceModel.DuplicateDeviceNode: does not model the fresh ids that a copied device's operators take, because nothing else here reads them.
- NodeCopies.CollectSubtree: does not model drawing a second word for a node met twice, because in a sound tree none is.
- TreeRows.DeviceTreeRows: a row is its node's id and depth; the kind, label and parent it also carries are that node's, and its two session flags are DeviceTree.EffectiveSessionEnabled of it and the node's own switch.
- WorkspaceModel.MoveDeviceNode on a tree that is not sound: the program's own walks need not end there.
- OperatorPipeline: stopping, exceptions thrown by operators, and the camera snapshots stored beside the newest frame.
- PointStreamer: the retry interval of binding and the pacing of ticks are inputs to a tick.
- SubSocket and the transport under it: ZeroMQ's delivery is a trace without loss.
- ReceiverQueue: the attribute descriptors a dequeue builds for its caller, their sorting and the copying of floats out of them.
- FramePool: the reference counts of channels and the replay of subscriptions on reconnect; the pool is replaced as a whole when its capacity changes.
- SessionRecorder.EachFileOwedOnce: counts a device's files by its place in the frame; FilesWrittenOnceIffNoneClash says when those are different files.
- SessionRecorder: the PLY file itself, the pacing of ticks and a second recording on one recorder.
- WorkspacePublisher: setting fields, notifying and subscribing in the configuration registry.
- SessionClock: the cached device lengths and which devices a session includes are inputs.
- SessionUse: a device that is added, included or given other in and out points while nothing scrubs is not followed; a device shows the session frame it was last scrubbed to.
- WorkspaceModel.SetDeviceLabel: puts the renamed configuration in place at once, because the event loop that the program hands it to is outside the model.
- PointClouds.Append: does not model appending a cloud to itself, which the program does not support.
- MeshoptCodec.Decompress: a body of another kind than its codec id says is refused, where the program would try to read its bytes.
- MeshoptCodec: Draco, meshoptimizer and the serializer are functions of other libraries; elements are their bytes in memory.
- Filling fringe masks, flood fill, point filters and their parallel reductions, rotation matrices: image processing and arithmetic of their own.
- Reconciling device plugins with the configuration, and the logger's buffers and file rotation.
- Qt adapters, QML, signals, saving and loading, MQTT, OSC and metrics.
