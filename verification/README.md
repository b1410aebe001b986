# Hetu runtime: a verified model

Hetu trains large models on many devices. This project models the parts of its C++ runtime whose
correctness does not depend on any kernel, and proves what they are for:

- **Device meshes** (`MixedRadix`, `DeviceMesh`, `MeshBuilding`, `DigitMerging`, `SplitMerging`,
  `MeshChecks`, `LocalScatter`, `LocalSplit`, `SubMesh`, `HeteroDim`, and the objects in
  `DistributedStates`, `CombineLoops`, `DistributedStatesUnion`, `DeviceGroupUnion`). A `DistributedStates` is a mixed-radix numbering of
  devices: its order lists the digits, most significant first, its states give the radices, -2 is
  partial, -1 is duplicate, 0 and above are split dimensions. Communication groups, merged digits,
  local scatters, cuts into sub-meshes and moves of the heterogeneous dimension are all statements
  about coordinates. The two pure files `MixedRadix` and `DeviceMesh` carry the arithmetic; the
  objects are proved to compute exactly these functions.
- **The pipeline** (`PipelineDeduction`, `PipelineSchedule`, `PipelineRuns`, `Executor`, `ReadyInputs`,
  `GradientAccumulation`, `CrucialRun`, `LateTransfers`, `StageValues`, `EarlyRelease`,
  `ExecutableGraph`, `LocalTopo`, `LocalRuns`, `NcclGroups`). Stages are
  deduced from parameter placements, get a 1F1B task list, and run it; neighbours exchange untagged
  messages over FIFO channels; every micro-batch drops a tensor when its reference count reaches
  zero; gradients are accumulated over micro-batches; sends and receives are bracketed by group
  start and end, and storages dropped inside a bracket are freed at its end.
- **Reverse-mode differentiation** (`Gradients`, `GradientReduction`): the walk over the reversed
  topological order, compared with the sum over all paths, and the reduction of gradient branches that
  end in communications.
- **Strided views** (`Strides`, `NDArrayMeta`, `StridedViews`, `ViewChains`, `NDArrayViews`,
  `FoldedMatmul`): what every index of a view reads, that chains of views stay inside the base
  array, when a reshape keeps the elements, and the folding of a batched product into one product.
- **Shape plans** (`ShapePlans`, `ExtraShapes`, `PlanCache`): the cache of executable graphs and of their
  shape plans, when a cached plan is the one a fresh deduction would give, and the shapes of the tensors
  that only the executable graph has.

## How it is modelled

Objects whose methods write fields are classes, loops are loops, and each is tied by its contract to
a function of its inputs or of its old state; the theorems are about those functions. An exception or
failed assertion of the runtime is an `Option` result or an out-parameter `ok`. Kernels are exact
functions given as parameters: gradients are linear maps over any addition, tensors any type with an
associative and commutative addition, and a transfer between neighbours is a message in a queue.
Integers are unbounded. A topological order is taken to be correct, with one producer per tensor.

The proofs hide definitions a lemma does not need (`hide`), so that each obligation stays small.
`dafny verify dfyconfig.toml` checks the whole project.

## Where the code does not do what one would expect

These are results, each proved with the exact condition or a concrete input.

- `DistributedStatesUnion::to_hetero` asks the list constructor for a union without a hetero
  dimension, so it succeeds exactly for a homogeneous union, a count of one and a dimension in its
  states, and what it returns is never a hetero union (`ToHetero`).
- `set_order` accepts an order with repeated dimensions; the layout is proper exactly when there are
  none (`BuildValid`, and `RepeatsAccepted` for an accepted input without a proper layout).
- `change_hetero_dim` keeps every local layout exactly when the new dimension is not the NULL marker
  (`ChangeKeepsLocals`, `MoveToNullAccepted`).
- Merging a split dimension renumbers the states always, the order only if it contains the source or
  the destination; a mesh can be built from the two exactly if it does, or if nothing above the source
  is split (`SplitMergeBuildsIff`). So the embedding gradient refuses an output gradient that is split
  along dimension 1 alone (`UnsplitSourceRefused`).
- The local scatter keeps the right block for all devices exactly when the duplicate digit directly
  follows the scattered dimension or the source does not split that dimension (`ScatterRightIff`); with
  several dimensions split at once, exactly when each that was split before keeps its device stride up
  to the number of its splits (`SplitRightIff`). `DuplicateFirstMisses` and `CopiesFirstMisses` are
  layouts with a device that keeps the wrong block.
- A bubble finds an open group exactly when the stage's last warm-up forward ends with a send and
  there is a micro-batch (`BubbleFindsGroupIff`, and `BubbleWithoutGroup` for one that does not).
- The hand-over of micro-batch 0's transferred tensors misses one that only the backward pass makes.
  On a plan that is sound otherwise a stage gets through exactly if it is the last one, or there is one
  micro-batch, or no operation of the later micro-batches reads such a tensor (`StageRunsIff`).
- The storage check is not a safety check for empty views. On a safe view inside the storage it fires
  exactly for a slice or diagonal that takes nothing and starts beyond the storage (`OpFiresIff`), and
  along a chain exactly when some step is one (`ChainFiresIff`).
- A partial gradient branch without a communication gets one to the layout of the others, and is then
  counted as a reducing branch. Beside a duplicate branch without a communication, the case it is there
  for, the counts do not match and the reduction is refused (`PlainBranchesIff`, and
  `PartialBesideDuplicate` for such a pair).
- An array given for the result of a folded product may have any shape if the product is empty, unless
  the result is transposed back (`MatmulInto`).
- `view` and `split` rebuild row-major strides and so need an input that is row-major where it
  matters; that is also enough (`ReshapeKeepsElementsIff`).
- All micro-batches of one split array are recorded with the first chunk's shape; that is right
  exactly when the batch divides evenly (`SplitEvenlyIff`).
- A cached shape plan answers for a run that feeds fewer tensors than the run that made it, though its
  shapes are not what would be deduced (`OtherFeedIsMissed`); `ChosenIsDeducedIff` is the exact
  condition. A plan deduced with a fed tensor outside the topological order is never found again
  (`FoundAgainIff`).
- Regrouping the local operations keeps the order topological exactly when nothing depends on a later
  list (`RegroupedTopologicalIff`, `SendersFollowersBreak`), and only then does every operation of the
  regrouped pass find its inputs (`RegroupedReadyIff`).

## Model

| member | source | states |
|---|---|---|
| MixedRadix.DigitsOfRank | hetu/graph/distributed_states.cc:379-399 | composing in-range digits and taking them apart again gives the same digits, and the composed index is in range |
| MixedRadix.RankOfDigits | hetu/graph/distributed_states.cc:379-399 | taking an in-range index apart and composing it again gives the same index |
| MixedRadix.RankIsDot | hetu/graph/distributed_states.cc:379-387 | the weights computed for the order turn a coordinate tuple into the device index by a weighted sum |
| MixedRadix.DigitsFuse | hetu/graph/distributed_states.cc:162-209 | fusing two neighbouring radices gives left digit times right radix plus right digit and changes no other digit |
| MixedRadix.RankReplace | hetu/graph/distributed_states.cc:418-434 | replacing one digit and its radix moves an index by whole blocks, keeping quotient and remainder around that digit |
| DeviceMesh.DeviceFromCoords | hetu/graph/distributed_states.cc:379-399 | a device index is recovered from its state index with the loop sizes as weights |
| DeviceMesh.CoordsFromDevice | hetu/graph/distributed_states.cc:379-399 | every tuple of in-range coordinates belongs to a device of the mesh, which has exactly these coordinates |
| DeviceMesh.SameCoordsSameDevice | hetu/graph/distributed_states.cc:389-399 | the state index is injective on the devices of the mesh |
| DeviceMesh.SiblingCoords | hetu/graph/distributed_states.cc:418-434 | member j of a communication group has coordinate j on its dimension and the device's own coordinates elsewhere |
| DeviceMesh.SiblingsExact | hetu/graph/distributed_states.cc:418-434 | the group along a dimension is exactly the set of devices agreeing on every other dimension |
| DeviceMesh.SiblingsPartition | hetu/graph/distributed_states.cc:418-434 | groups along one dimension partition the mesh |
| DeviceMesh.DupGroupExact | hetu/graph/distributed_states.cc:401-415 | two devices share a duplicate group index if and only if their split coordinates agree |
| DeviceMesh.DupGroupOrdered | hetu/graph/distributed_states.cc:401-415 | the group indices order devices by their split coordinates, the lowest dimension deciding first |
| MeshBuilding.BuildValid | hetu/graph/distributed_states.cc:45-99 | what the setters accept is a proper mixed-radix numbering if and only if the order has no repeats; the default order never has |
| MeshBuilding.RepeatsAccepted | hetu/graph/distributed_states.cc:70-99 | an accepted order that repeats a dimension and does not number the devices |
| MeshBuilding.RebuildIsIdentity | hetu/graph/distributed_states.cc:22-35 | setting a proper layout again changes nothing |
| MeshBuilding.OrderProduct | hetu/graph/distributed_states.cc:50-66 | the radices along an order that lists every key once multiply to the product the setter checks |
| MeshBuilding.DefaultNumbering | hetu/graph/distributed_states.cc:70-99 | a mesh built without an order counts devices with the highest dimension fastest, whose coordinate is the remainder, and the lowest, which is the partial one where there is one, slowest, whose coordinate is the quotient |
| DigitMerging.CombinedStatesOfOne | hetu/graph/distributed_states.cc:101-155 | one source of any kind: its size goes to the destination; a split source disappears and the dimensions above it move down, the others keep size 1 |
| DigitMerging.CombinedOrderOfOne | hetu/graph/distributed_states.cc:162-209 | merging one source succeeds if and only if source and destination are not both present and apart; then the pair becomes one place, and the order is renumbered if it contains either |
| DigitMerging.MergeKeepsMesh | hetu/graph/distributed_states.cc:101-213 | for a partial or duplicate source, merged states and order build a proper mesh over the same devices |
| DigitMerging.MergeCoords | hetu/graph/distributed_states.cc:101-213 | for every source, a device keeps all other coordinates and gets left digit times right radix plus right digit on the destination |
| SplitMerging.SplitMergeBuildsIff | hetu/graph/distributed_states.cc:101-213 | for a split source, merged states and order build a mesh if and only if the order contains source or destination or nothing above the source is split; the mesh is then the merged one, renumbered |
| SplitMerging.SplitMergeCoords | hetu/graph/distributed_states.cc:101-213 | that mesh is proper, and every device keeps all other coordinates under the new numbers |
| SplitMerging.UnsplitSourceRefused | hetu/graph/ops/EmbeddingLookup.cc:101-106 | a gradient split along dimension 1 alone, whose dimension 0 cannot be made partial |
| MeshChecks.CheckMeansMerged | hetu/graph/distributed_states.cc:258-266 | for one source of any kind that splits something, the combine check answers exactly where merging succeeds and says yes if and only if the target has the merged layout |
| MeshChecks.AllReduceMeansMerged | hetu/graph/distributed_states.cc:313-316 | an all-reduce is recognised if and only if the target is the mesh with the partial digit made a duplicate |
| MeshChecks.ChecksMeanMerged | hetu/graph/distributed_states.cc:318-337 | scatter, reduce-scatter and all-gather are recognised if and only if one mesh is the other with that digit merged into some split dimension |
| MeshChecks.SplitDimOfMerged | hetu/graph/distributed_states.cc:357-377 | the finer dimension found is the one that was merged into |
| DistributedStatesObjects.DistributedStates.SetStates | hetu/graph/distributed_states.cc:45-68 | accepts states exactly when their sizes above one multiply to the device number; keeps exactly those, puts -1 and -2 back, and leaves the old ones on error |
| DistributedStatesObjects.DistributedStates.SetOrder | hetu/graph/distributed_states.cc:70-99 | accepts an order exactly when it names every split dimension; a given order is stored as its subsequence of split dimensions, an empty one as the ascending sequence of exactly these |
| DistributedStatesObjects.DistributedStates.Construct | hetu/graph/distributed_states.h:25-32 | the object built, when it is, with the same two cases for its order, and exactly when it is proper |
| DistributedStatesObjects.DistributedStates.SetDistributedStates | hetu/graph/distributed_states.cc:22-31 | copies any layout, with its exact error condition; a proper one is copied unchanged |
| DistributedStatesObjects.DistributedStates.GetLoopSizes | hetu/graph/distributed_states.cc:379-387 | the loop computes for every place the product of the radices after it |
| DistributedStatesObjects.DistributedStates.MapDeviceToStateIndex | hetu/graph/distributed_states.cc:389-399 | the loop computes every coordinate of the device and has exactly the dimensions of the order as keys |
| DistributedStatesObjects.DistributedStates.GetDupGroupIndex | hetu/graph/distributed_states.cc:401-415 | the loop numbers a device's split coordinates, whose meaning DupGroupExact gives |
| DistributedStatesObjects.DistributedStates.GetDevicesByDim | hetu/graph/distributed_states.cc:418-434 | the strided loop collects exactly the group along the dimension, in coordinate order |
| CombineLoops.CombineStates | hetu/graph/distributed_states.cc:101-155 | the two-phase loop computes the combined states for any list of sources, with the same error |
| CombineLoops.MoveDown | hetu/graph/distributed_states.cc:120-135 | moving keys down one by one, lowest first, loses no entry |
| CombineLoops.CombineOrder | hetu/graph/distributed_states.cc:162-209 | collecting, sorting, erasing and renumbering computes the combined order, with the same errors |
| CombineLoops.GetSplitDim | hetu/graph/distributed_states.cc:357-377 | the loop finds the one finer dimension, none, or raises an error for a second one |
| CombineLoops.ScatterPlan | hetu/graph/executable_graph.cc:492-541 | the split keys are the changed split dimensions of the destination order; each index is the device's coordinate modulo the split number |
| LocalScatter.ScatterKeys | hetu/graph/executable_graph.cc:524-553 | a duplicate digit merged into one dimension makes exactly that dimension a split key |
| LocalScatter.ScatterRightIff | hetu/graph/executable_graph.cc:524-553 | for evenly divisible lengths, every device keeps exactly its destination block if and only if the duplicate digit follows the dimension or the source does not split it |
| LocalScatter.DuplicateFirstMisses | hetu/graph/executable_graph.cc:524-553 | a layout with the duplicate digit before the scattered dimension, and a device that keeps the wrong block |
| LocalSplits.RightAlongIff | hetu/graph/executable_graph.cc:492-523 | along one of several dimensions split at once, all devices keep their destination block if and only if the dimension was not split or its stride matches |
| LocalSplits.SplitRightIff | hetu/graph/executable_graph.cc:492-523 | all devices keep their destination blocks along all dimensions if and only if every stride matches |
| LocalSplits.CopiesFirstMisses | hetu/graph/executable_graph.cc:492-523 | a layout whose duplicate digit is spread over two dimensions, with a device that keeps the wrong block along the first |
| SubMesh.GroupExact | hetu/graph/distributed_states.h:487-503 | a device is in exactly the group its coordinate divided by the span names: disjoint and covering |
| SubMesh.GroupSize | hetu/graph/distributed_states.h:487-503 | all groups have the same size, the device number divided by their count |
| SubMesh.GroupIncreasing | hetu/graph/distributed_states.h:487-503 | groups keep the devices in their original order |
| SubMesh.LocalIsMesh | hetu/graph/distributed_states.h:255-277 | one member's local layout is a proper mesh over its share of the devices |
| SubMesh.SubMeshCoords | hetu/graph/distributed_states.h:255-277 | a device's rank inside its group, read through the local layout, gives its original coordinates with the cut one reduced modulo the span |
| HeteroDim.MoveKeepsLocal | hetu/graph/distributed_states.h:196-220 | a member rebuilt for another hetero dimension is proper, has the same device count, and its local layout is the old one |
| DistributedStatesUnions.DistributedStatesUnion.GetLocal | hetu/graph/distributed_states.h:255-277 | one member's local layout, with the union's errors, always proper |
| DistributedStatesUnions.LocalPartIff | hetu/graph/distributed_states.h:261-274 | for a proper member the only error is a size that the member count does not divide |
| DistributedStatesUnions.MovableIff | hetu/graph/distributed_states.h:196-220 | a member is moved if and only if the old dimension leads its order and divides evenly, and the new one leads what is left of the order or is not in it |
| DistributedStatesUnions.DistributedStatesUnion.ChangeHeteroDim | hetu/graph/distributed_states.h:196-220 | the loop moves every member; exact error condition, and how far an aborted call got |
| DistributedStatesUnions.ChangeKeepsLocals | hetu/graph/distributed_states.h:196-220 | every member keeps its device count, and its local layout if and only if the new dimension is not NULL |
| DistributedStatesUnions.MoveToNullAccepted | hetu/graph/distributed_states.h:196-220 | an accepted change to the NULL dimension that loses the local layouts |
| DistributedStatesUnions.DistributedStatesUnion.ToHetero | hetu/graph/distributed_states.h:222-241 | the copies go through the list constructor: success if and only if the count is one, the union homogeneous and the dimension in its states; no result is a hetero union |
| DistributedStatesUnions.SubMeshOfUnion | hetu/graph/distributed_states.h:255-277 | for any hetero union whose local layout exists, a device's rank in its group and the local layout give its original coordinates |
| DeviceGroupUnions.CheckUnion | hetu/graph/distributed_states.h:363-374 | an error exactly when some device occurs twice, inside a group or across groups |
| DeviceGroupUnions.DeviceGroupToUnion | hetu/graph/distributed_states.h:487-505 | cutting succeeds exactly for a divisible size and distinct devices, and yields the groups by coordinate |
| DeviceGroupUnions.PartsDistinct | hetu/graph/distributed_states.h:363-374 | the union's check on the parts passes exactly when the given devices are distinct |
| DeviceGroupUnions.JoinedExact | hetu/graph/distributed_states.h:547-559 | merging keeps the first group's order as a prefix and adds exactly the missing devices |
| DeviceGroupUnions.JoinedInOrder | hetu/graph/distributed_states.h:547-559 | the devices added come in the order of the second group |
| DeviceGroupUnions.Merge | hetu/graph/distributed_states.h:542-563 | group-wise merge, with its exact error condition |
| PipelineDeduction.AssignHomo | hetu/graph/define_and_run_graph.cc:219-238 | records every device under the pipeline of its duplicate coordinate, an error exactly when one is elsewhere already |
| PipelineDeduction.AssignHetero | hetu/graph/define_and_run_graph.cc:242-261 | neighbouring groups share a pipeline, an error exactly when a device is elsewhere already |
| PipelineDeduction.AddStages | hetu/graph/define_and_run_graph.cc:262-277 | appends a stage unless empty or equal to the last, an error exactly when it repeats an earlier one |
| PipelineDeduction.Deduction.AddParameter | hetu/graph/define_and_run_graph.cc:174-278 | one parameter: exact error condition, exact new record and stages, and the partition invariant kept |
| PipelineDeduction.PartitionKept | hetu/graph/define_and_run_graph.cc:262-277 | adding stages keeps the partition: stages of a pipeline distinct, devices in one pipeline only, each in some stage |
| PipelineDeduction.Deduce | hetu/graph/define_and_run_graph.cc:160-284 | for every list of parameters: succeeds exactly when no assertion fails, and then gives exactly the recorded assignments, a partition (no device in stages of two pipelines) and the device-to-pipeline map |
| PipelineDeduction.RecordedEach | hetu/graph/define_and_run_graph.cc:222-260 | the final record holds the assignments of every single parameter |
| PipelineDeduction.HomoShare | hetu/graph/define_and_run_graph.cc:219-238 | each pipeline gets exactly the device number divided by the pipeline number of devices, in order |
| PipelineDeduction.DuplicatesTogether | hetu/graph/define_and_run_graph.cc:219-238 | in the record a successful deduction returns, each device of a homogeneous parameter is under the pipeline its duplicate coordinate names, so devices share a pipeline if and only if their coordinates fall into the same span |
| PipelineDeduction.GroupsTogether | hetu/graph/define_and_run_graph.cc:242-261 | in that record each device of group g of a heterogeneous parameter is under pipeline g divided by the number of groups for each pipeline |
| PipelineSchedule.GeneratePipedreamFlushSchedule | hetu/graph/executable_graph.cc:803-848 | the loops give every stage the 1F1B list (or forwards only) |
| PipelineSchedule.FlushInOrder | hetu/graph/executable_graph.cc:818-846 | every stage runs every forward and every backward in order, forward i before backward i |
| PipelineSchedule.ForwardOnce | hetu/graph/executable_graph.cc:818-846 | every forward occurs exactly once |
| PipelineSchedule.BackwardOnce | hetu/graph/executable_graph.cc:818-846 | every backward occurs exactly once |
| PipelineSchedule.FlushInFlight | hetu/graph/executable_graph.cc:818-846 | at every prefix at most min(m, S - stage) forwards are not yet reversed, and that many are reached |
| PipelineSchedule.FlushEndsWithLastBackward | hetu/graph/executable_graph.cc:826-845 | the last task of a stage is the backward of the last micro-batch |
| PipelineSchedule.BubbleIff | hetu/graph/executable_graph.cc:826-840 | the stages with a bubble are exactly those too far from the end to start a pair |
| PipelineSchedule.GenerateGpipeSchedule | hetu/graph/executable_graph.cc:770-800 | the loops give every stage all forwards, then all backwards |
| PipelineSchedule.GpipeInOrder | hetu/graph/executable_graph.cc:770-800 | the same tasks in order, but all m forwards held at once |
| PipelineRuns.ReachableInv | hetu/graph/executable_graph.cc:1352-1443 | in every reachable state each channel holds exactly the messages sent and not yet received, in micro-batch order |
| PipelineRuns.MessagesPairUp | hetu/graph/executable_graph.cc:1352-1443 | an untagged receive always gets the message of its own micro-batch |
| PipelineRuns.NoDeadlock | hetu/graph/executable_graph.cc:802-848 | any schedule with a slot potential: in every reachable state all is done or some stage can go on |
| PipelineRuns.FinishesWithin | hetu/graph/executable_graph.cc:802-848 | any such schedule with slots below t finishes within t unit-time rounds |
| PipelineRuns.RoundsReach | hetu/graph/executable_graph.cc:1352-1443 | unit-time rounds are runs of the step system |
| PipelineRuns.FlushNeverDeadlocks | hetu/graph/executable_graph.cc:802-848 | 1F1B never deadlocks, for all stage and micro-batch counts |
| PipelineRuns.FlushFinishesInTime | hetu/graph/executable_graph.cc:802-848 | 1F1B finishes within 2(m + S - 1) unit-time slots |
| PipelineRuns.StuckRunsAreComplete | hetu/graph/executable_graph.cc:1352-1443 | a run that cannot go on has done every task, in exactly as many steps as there are tasks |
| PipelineRuns.GpipeLiveAndInTime | hetu/graph/executable_graph.cc:769-800 | the same liveness and time bound for GPipe |
| PipelineRuns.InferenceLiveAndInTime | hetu/graph/executable_graph.cc:810-817 | forward-only runs are live and finish within m + S - 1 slots |
| Executor.TakeAllAgrees | hetu/graph/executable_graph.cc:945-985 | the input loop with counting and erasing finds every input with the value the never-erasing interpreter has, and counts each use |
| Executor.PutAllAgrees | hetu/graph/executable_graph.cc:1009-1025 | storing outputs keeps everything that will still be read |
| Executor.RunOpAgrees | hetu/graph/executable_graph.cc:871-1025 | one operation keeps the agreement with the never-erasing interpreter |
| Executor.RunTopoAgrees | hetu/graph/executable_graph.cc:871-1025 | a whole pass never misses an input that the never-erasing interpreter finds, and computes the same values |
| Executor.PassedOver | hetu/graph/executable_graph.cc:877-903 | an operation that is skipped, deferred or all fed, or whose first output is handed over above micro-batch 0, leaves data, degrees, accumulators and the never-erasing values as they are |
| Executor.Performed | hetu/graph/executable_graph.cc:945-1025 | every other operation fails exactly when an input is unknown, and otherwise binds exactly what its kernel computes from the values of its inputs, and nothing else |
| EarlyRelease.PassStaysLean | hetu/graph/executable_graph.cc:976-1025 | a pass drops every tensor at its last use and stores none that nobody will read, unless it is asked for, accumulated or, in micro-batch 0, handed over |
| EarlyRelease.StageReleases | hetu/graph/executable_graph.cc:976-1025 | after a stage a micro-batch holds only what is asked for, accumulated, handed over or preserved, what no operation reads, and what an operation that was passed over reads |
| GradientAccumulation.PassAccumulates | hetu/graph/executable_graph.cc:1009-1018 | a pass adds each accumulated tensor's gradient once, and the final pass hands over the totals |
| ReadyInputs.NaiveReadyIff | hetu/graph/executable_graph.cc:945-985 | a pass without early release gets through if and only if every input of an operation that runs is preserved, there from the start, or made by an earlier one that runs |
| CrucialRuns.SoundIff | hetu/graph/executable_graph.cc:1352-1443 | whether all micro-batches evaluate can be told from the plan and the fed tensors, whatever the kernels compute |
| CrucialRuns.RunTasksAgree | hetu/graph/executable_graph.cc:1352-1443 | every prefix of a task list in order keeps all micro-batches in agreement and the accumulators at the sums so far |
| CrucialRuns.StageComputesGradients | hetu/graph/executable_graph.cc:1281-1290 | for every plan whose inputs are ready, on every stage of 1F1B the run succeeds and leaves in the last micro-batch the sum of each accumulated gradient over all micro-batches, with hand-overs made in the forward or, where backward 0 precedes forward 1, in the backward pass |
| CrucialRuns.KeptForLater | hetu/graph/executable_graph.cc:976-984 | fetched tensors and everything a deferred operation reads are still there, unchanged |
| StageValues.EvaluatesSolves | hetu/graph/executable_graph.cc:1352-1443 | evaluating the micro-batches gives valuations that obey the dataflow equations: each operation not passed over has as outputs what its kernel computes from its inputs, and micro-batches above 0 start with the tensors micro-batch 0 hands over |
| StageValues.SolutionUnique | hetu/graph/executable_graph.cc:1352-1443 | these equations have one solution |
| StageValues.FinishedHoldsSolution | hetu/graph/executable_graph.cc:1281-1290 | a finished stage holds that solution: the own value of every tensor that is asked for or read by an operation passed over, and for each accumulated gradient the left-to-right sum over all micro-batches, in the accumulators and in the last micro-batch |
| StageValues.UpdateGetsSum | hetu/graph/executable_graph.cc:901-903 | a gradient and a deferred update reading it: over two micro-batches the plan is sound, the run is done, and the update is left the sum of the two gradients |
| LateTransfers.EarlyIsEnough | hetu/graph/executable_graph.cc:1392-1405 | a plan whose inputs are ready with hand-overs made in the backward pass is so without them if nobody reads a late tensor |
| LateTransfers.StageRunsIff | hetu/graph/executable_graph.cc:1352-1443 | the stage's run succeeds if and only if it is the last one, or there is one micro-batch, or no operation run in later micro-batches reads a late tensor; the gradients are then complete, with late hand-overs on the last stage and early ones elsewhere |
| LateTransfers.LateTransferIsMissed | hetu/graph/executable_graph.cc:1399-1404 | a plan on whose first stage the run fails |
| ExecutableGraphs.ExecutableGraph.ReadInputs | hetu/graph/executable_graph.cc:945-985 | the input loop in place: values, degrees, erasures and the error |
| ExecutableGraphs.ExecutableGraph.StoreOutput | hetu/graph/executable_graph.cc:1009-1025 | accumulate, copy for the caller, keep or drop, in place |
| ExecutableGraphs.ExecutableGraph.ComputeFunc | hetu/graph/executable_graph.cc:850-1025 | the operation loop in place computes the pass that PassedOver, RunTopoAgrees and PassStaysLean speak of, and fails where it does |
| ExecutableGraphs.ExecutableGraph.ReuseTransfers | hetu/graph/executable_graph.cc:1392-1405 | micro-batch 0's transferred tensors are handed on, stopping at the first one present |
| ExecutableGraphs.ExecutableGraph.CountDegrees | hetu/graph/executable_graph.cc:1264-1273 | the start degree of a tensor is how often the local operations read it |
| ExecutableGraphs.SplitFeeds | hetu/graph/executable_graph.cc:1244-1259 | succeeds exactly when every fed list is empty, one array that splits, or one array for each micro-batch, and gives micro-batch i piece i of the split or array i |
| ExecutableGraphs.ExecutableGraph.CrucialRun | hetu/graph/executable_graph.cc:1205-1465 | splits the feeds, returns early at the TOPO and ALLOC run levels and off the pipelines, and runs the tasks: for every sound plan the stage ends holding the solution of its dataflow equations with complete gradients, and it succeeds if and only if StageRunsIff says so |
| LocalTopos.GetLocalTopo | hetu/graph/executable_graph.cc:1812-1898 | the loop over eight lists appends the stable regrouping and collects the variables |
| LocalTopos.RegroupedExactly | hetu/graph/executable_graph.cc:1831-1897 | nothing lost, nothing twice; one operation precedes another exactly when its list comes first or it came first on the same list |
| LocalTopos.ListsInOrder | hetu/graph/executable_graph.cc:1831-1897 | the order from the flags alone: receives of shared gradients, of shared tensors, other receives, computations, sends, updates, optimizer steps, groups |
| LocalTopos.RegroupedTopologicalIff | hetu/graph/executable_graph.cc:1888-1897 | the regrouped order is topological if and only if nothing depends on an operation of a later list |
| LocalTopos.SendersFollowersBreak | hetu/graph/executable_graph.cc:1888-1897 | an operation after a send that ends up before it |
| LocalRuns.RegroupedReadyIff | hetu/graph/executable_graph.cc:1888-1897 | the regrouped operations of a pass find all their inputs if and only if none needs the output of one on a later list |
| LocalTopos.EndsWithSend | hetu/graph/executable_graph.cc:1892-1897 | a direction with a send and without update, optimizer and group operations ends with a send |
| NcclGroups.NcclGroup.Start | hetu/core/ndarray_storage.cc:10-19 | opens a group and keeps every waiting pointer |
| NcclGroups.NcclGroup.End | hetu/core/ndarray_storage.cc:21-32 | an error exactly without an open group; frees all waiting pointers, also at an inner end |
| NcclGroups.NcclGroup.Destroy | hetu/core/ndarray_storage.cc:34-51 | a storage is freed now outside groups and joins the waiting ones inside one |
| NcclGroups.P2PBrackets.BeforeOp | hetu/graph/executable_graph.cc:910-931 | a group is open exactly while consecutive sends and receives run, which share one: nothing is recorded or freed between them, and one event at either end |
| NcclGroups.P2PBrackets.Bubble | hetu/graph/executable_graph.cc:1357-1362 | succeeds exactly when a group is open |
| NcclGroups.P2PBrackets.RunStage | hetu/graph/executable_graph.cc:1352-1451 | the run succeeds exactly when each bubble finds a group; then starts and ends balance, events alternate with even total, every pointer is freed exactly once and none waits |
| NcclGroups.BubbleFindsGroupIff | hetu/graph/executable_graph.cc:838-840 | over a 1F1B list all bubbles find a group if and only if the stage has none or its warm-up forwards end with a send |
| NcclGroups.BubbleWithoutGroup | hetu/graph/executable_graph.cc:1357-1362 | one micro-batch on the first of two stages, whose forward ends without a send: the bubble finds no group |
| ReverseMode.Gradients | hetu/graph/graph.cc:106-602 | reverse accumulation returns for each x the sum over all paths to the ys of the pulled-back seeds, which are the gradients the caller gave, or ones where there is none; an error exactly for a wrong number of seeds |
| ReverseMode.WalkOne | hetu/graph/graph.cc:302-312 | one operation of the reversed walk keeps every gradient list equal to the paths through the operations done |
| ReverseMode.ReduceGrad | hetu/graph/graph.cc:150-160 | dropping undefined gradients, passing one on or adding several is the sum of the list |
| ReverseMode.PathsExact | hetu/graph/graph.cc:582-588 | the listed paths are exactly the chains of operations from the tensor to a y |
| ReverseMode.PathsOnce | hetu/graph/graph.cc:582-588 | every path is listed once, so an input used several times contributes once per use |
| ReverseMode.UndefinedIff | hetu/graph/graph.cc:592-600 | the gradient is undefined if and only if no path leads to any y |
| ReverseMode.CompleteAfter | hetu/graph/graph.cc:302-311 | the gradient of an operation's output is complete when the walk reaches that operation |
| ReverseMode.InputGradIsSum | hetu/graph/graph.cc:429-431 | the gradient of one input is the sum over the paths through each output |
| ReverseMode.UnreadSeed | hetu/graph/graph.cc:112-148 | a y listed once that no operation reads gets exactly the gradient given for it |
| ReverseMode.ChainRule | hetu/graph/graph.cc:302-312 | a tensor read once, by an operation that links it to one output, gets that output's gradient pulled back |
| GradientReduction.ReduceAdds | hetu/graph/graph.cc:256-279 | an all-reduce or reduce-scatter of a sum is the sum of the reductions, on every device |
| GradientReduction.EachCountsOnce | hetu/graph/graph.cc:256-279 | what a reducing communication leaves on a device counts once each device that agrees with it in all but the partial coordinate, and no other |
| GradientReduction.TotalIsSum | hetu/graph/graph.cc:280-291 | the reference total is the left-to-right sum in which each finished branch counts once |
| GradientReduction.SumBeforeReduce | hetu/graph/graph.cc:253-279 | for branches whose communications are alike, one communication of the summed inputs gives every device the value of finishing each and summing |
| GradientReduction.ReduceBranches | hetu/graph/graph.cc:166-291 | checks, counts, patches and sums: success if and only if no check fails, the finished branches all reduce one way or none does, and what is summed has one layout; every device then has the sum of the branches finished one by one |
| GradientReduction.PlainBranchesIff | hetu/graph/graph.cc:178-247 | branches without communications are accepted if and only if the first is not partial, the others like it agree, and no partial one would reduce to it |
| GradientReduction.CommBranchesIff | hetu/graph/graph.cc:185-220 | branches that all end in communications are accepted if and only if no check fails, all or none are all-reduces, all or none reduce-scatters, they end in one layout and, if they reduce, start from one |
| GradientReduction.PatchedTo | hetu/graph/graph.cc:221-247 | partial branches without a communication get one to the layout of the first branch that reduces or has no partial digit |
| GradientReduction.PartialBesideDuplicate | hetu/graph/graph.cc:178-247 | a duplicate branch and then a partial one over the same two devices, which are refused |
| Strides.NumEl | hetu/core/ndarray_meta.h:21-26 | the loop computes the product of the sizes |
| Strides.Shape2Stride | hetu/core/ndarray_meta.h:28-45 | the loop computes row-major strides, zeros for an empty array |
| Strides.IsContiguous | hetu/core/ndarray.h:787-797 | true exactly for at most one element or row-major strides |
| Strides.DotPermuted | hetu/core/ndarray_meta.cc:80-97 | permuting index and strides alike keeps the address |
| NDArrayMetas.NDArrayMeta.SetShape | hetu/core/ndarray_meta.h:108-115 | new shape with row-major strides, an error above the dimension limit |
| NDArrayMetas.NDArrayMeta.Unsqueeze | hetu/core/ndarray_meta.cc:34-40 | the new layout, and the error, of inserting a dimension |
| NDArrayMetas.UnsqueezeRowMajor | hetu/core/ndarray_meta.cc:34-40 | inserting a dimension keeps row-major strides row-major |
| NDArrayMetas.NDArrayMeta.Squeeze | hetu/core/ndarray_meta.cc:42-54 | the layout without its dimensions of size one |
| NDArrayMetas.NDArrayMeta.SqueezeAt | hetu/core/ndarray_meta.cc:56-65 | the layout without one dimension if that has size one |
| NDArrayMetas.NDArrayMeta.Flatten | hetu/core/ndarray_meta.cc:67-78 | the fused shape has the same number of elements and row-major strides |
| NDArrayMetas.NDArrayMeta.Permute | hetu/core/ndarray_meta.cc:80-97 | reorders both fields by the first axes, exactly if these are a permutation and all axes parse |
| NDArrayMetas.NDArrayMeta.View | hetu/core/ndarray_meta.cc:8-32 | accepts exactly the shapes with the same number of elements, inferring at most one dimension |
| NDArrayMetas.ViewableIff | hetu/core/ndarray_meta.cc:8-32 | a shape is accepted if and only if some sizes fit it and no size is inferred beside a size of zero |
| StridedViews.PermuteReads | hetu/core/ndarray.cc:885-894 | an index of a permuted view reads the input at the index permuted back |
| StridedViews.PermuteSafe | hetu/core/ndarray.cc:885-894 | a permuted view stays inside the storage and does not alias |
| StridedViews.MoveAxesPermutes | hetu/core/ndarray.cc:896-930 | moving a dimension is a permutation that keeps the order of the others |
| StridedViews.UnsqueezeReads | hetu/core/ndarray.cc:872-876 | an index of the view reads the input at the index without the new coordinate |
| StridedViews.SqueezeAtReads | hetu/core/ndarray.cc:866-870 | an index of the view reads the input at the index with a zero put back |
| StridedViews.SqueezeReads | hetu/core/ndarray.cc:860-864 | an index of a fully squeezed view reads the input with zeros where dimensions vanished |
| StridedViews.SqueezedKeeps | hetu/core/ndarray_meta.cc:42-54 | exactly the dimensions of a size other than one stay, in order, with their sizes, strides and coordinates |
| StridedViews.SliceReads | hetu/core/ndarray.cc:1577-1624 | an index of a slice reads the input at the index shifted by the clamped starts |
| StridedViews.SliceInside | hetu/core/ndarray.cc:1577-1624 | a slice inside the array has exactly the wanted shape, and its index reads the input at begin plus index |
| StridedViews.SliceReadsExactly | hetu/core/ndarray.cc:1577-1624 | in general the coordinates read along a dimension are exactly those of the array between begin and begin plus length, each raised by the size when negative |
| StridedViews.SliceSafe | hetu/core/ndarray.cc:1577-1624 | a slice stays inside the storage and does not alias |
| StridedViews.DiagonalReads | hetu/core/ndarray.cc:956-995 | an index of a diagonal reads the input on the offset diagonal of the two dimensions |
| StridedViews.DiagonalReaches | hetu/core/ndarray.cc:956-995 | there is a diagonal exactly when its first element is inside, and it runs as long as both coordinates are |
| StridedViews.OnDiagonalAt | hetu/core/ndarray.cc:956-995 | its last coordinate runs along both dimensions, the offset added to the second or, when negative, taken off the first; the others are kept |
| StridedViews.DiagonalSafe | hetu/core/ndarray.cc:956-995 | a diagonal stays inside the storage and does not alias |
| ViewChains.SafeFits | hetu/core/ndarray.h:828-851 | a non-empty view with distinct addresses inside the storage leaves room for all its elements behind its offset |
| ViewChains.ApplySafe | hetu/core/ndarray.cc:860-995 | every view operation keeps distinct indices at distinct addresses inside the base |
| ViewChains.ChainSafe | hetu/core/ndarray.cc:860-995 | any chain of view operations from a contiguous array addresses only base elements, distinct ones for distinct indices |
| ViewChains.ChainNeverFires | hetu/core/ndarray.h:660-674 | along any chain that ends in a non-empty view the storage-size check never fires |
| ViewChains.OpFiresIff | hetu/core/ndarray.h:660-674 | on a safe view inside the storage an operation trips the check if and only if it is a slice or diagonal that takes nothing and starts beyond the storage |
| ViewChains.ChainFiresIff | hetu/core/ndarray.h:660-674 | along a chain from an array in the storage the check fires if and only if some step is such an operation |
| ViewChains.EmptySliceFires | hetu/core/ndarray.h:669-672 | an empty slice at the far corner that trips the check |
| ViewChains.FlatIff | hetu/core/ndarray.cc:854-858 | flat positions are storage positions if and only if the strides are row-major where it matters |
| ViewChains.ReshapeKeepsElementsIff | hetu/core/ndarray.cc:840-858 | a view keeps every element at its flat position if and only if its input is row-major where it matters |
| ViewChains.ContiguousSuffices | hetu/core/ndarray.h:787-797 | the runtime's contiguity test implies that condition |
| NDArrayViews.PermuteArray | hetu/core/ndarray.cc:885-894 | the loops and the constructor's check produce the permuted view |
| NDArrayViews.MoveDimArray | hetu/core/ndarray.cc:896-930 | the three loops produce the view with the dimension moved |
| NDArrayViews.SliceArray | hetu/core/ndarray.cc:1577-1624 | the clamping loop produces the slice that SliceInside and SliceReadsExactly describe, and its offset |
| NDArrayViews.DiagonalArray | hetu/core/ndarray.cc:956-995 | erasing and appending dimensions produces the diagonal view and its errors |
| NDArrayViews.ApplyArray | hetu/core/ndarray.cc:860-995 | each operation as performed is the operation the chain theorems speak of, with the storage check |
| FoldedMatmul.FoldedProductAt | hetu/core/ndarray.cc:643-694 | cell (i, j) of batch b of the folded product is the inner product of that batch's row and column |
| FoldedMatmul.InnerTransposed | hetu/core/ndarray.cc:636-646 | swapping operands and negating both transpose flags gives the transposed product |
| FoldedMatmul.InnerSums | hetu/core/ndarray.cc:636-646 | the reference inner product adds up, from left to right, one product of elements for each common index, with each operand read transposed or not |
| FoldedMatmul.InnerVecSums | hetu/core/ndarray.cc:636-646 | the same for a vector |
| FoldedMatmul.Matmul | hetu/core/ndarray.cc:634-695 | folding, one low-rank product, reshaping and transposing back equals the per-batch product, for either operand batched, matrix or vector, and either flag; an error exactly when the inner sizes differ |
| FoldedMatmul.MatmulInto | hetu/core/ndarray.cc:666-694 | the same into a given array: filled with the product if the shapes agree, an error exactly if the inner sizes differ or the shapes do, but for an empty product that is not transposed back |
| ShapePlans.DeduceOpsShapes | hetu/graph/define_and_run_graph.cc:309-402 | a deduced plan takes fed tensors from the feed and every other one from its inputs' shapes |
| ShapePlans.FirstOpsShapes | hetu/graph/define_and_run_graph.cc:651-667 | the plan recorded when a graph is made does the same |
| ShapePlans.DeduceIff | hetu/graph/define_and_run_graph.cc:298-414 | the deduction succeeds if and only if every operation's inputs are given or made before it, whatever the shapes; it then covers exactly the outputs |
| ShapePlans.FirstIff | hetu/graph/define_and_run_graph.cc:651-667 | the first plan exists if and only if every input is made before it is read |
| ShapePlans.Unique | hetu/graph/define_and_run_graph.cc:309-402 | two plans that agree on the given tensors and infer all others agree everywhere |
| ShapePlans.InferredMeans | hetu/graph/define_and_run_graph.cc:336-402 | an inferred tensor has the shape that its operation infers from the shapes of its inputs, in their order |
| ShapePlans.FedIff | hetu/graph/define_and_run_graph.cc:314-328 | taken from the feed are the outputs of exactly the operations whose outputs are all fed |
| ShapePlans.ChosenIsDeducedIff | hetu/graph/define_and_run_graph.cc:1244-1293 | a cached plan equals the freshly deduced one if and only if it has the fed shapes and the tensors fed then but computed now have their computed shapes |
| ShapePlans.FoundAgainIff | hetu/graph/define_and_run_graph.cc:314-328 | a deduced plan is found again for the same feed if and only if every fed tensor is in the topological order |
| ShapePlans.OtherFeedIsMissed | hetu/graph/define_and_run_graph.cc:1251-1283 | a concrete run that finds the plan of a run with more fed tensors, which is not its own |
| ShapePlans.SplitEvenlyIff | hetu/core/ndarray.cc:1039-1042 | all chunks of a split have the first one's length if and only if the count divides the length |
| ShapePlans.ChunksOf | hetu/core/ndarray.cc:1033-1042 | the chunks of a split sum to the length, and all but the last are the length divided by the count, rounded up |
| ExtraShapes.ExtendPlan | hetu/graph/define_and_run_graph.cc:418-452 | the loop over the recorded tensors infers their shapes, keeping those there; it fails exactly when an operation reads a tensor that is neither mapped nor recorded before |
| ExtraShapes.ExtendedUnique | hetu/graph/define_and_run_graph.cc:418-452 | two plans that agree on the mapped tensors and infer the recorded ones agree everywhere |
| ExtraShapes.UpdateExecShapePlan | hetu/graph/executable_graph.h:133-159 | the loop at run time passes over tensors with a shape and infers the others, with its error |
| ExtraShapes.UpdatedIsFresh | hetu/graph/executable_graph.h:133-188 | a plan brought up to date is the plan that would be deduced now, however many operations had been recorded when it was made and in whatever order |
| PlanCaches.FindExecPlan | hetu/graph/define_and_run_graph.cc:1188-1215 | the first cached graph with these two strategies that fetches no more than is asked and has all of it; none exactly when there is none |
| PlanCaches.ServesSameFetches | hetu/graph/define_and_run_graph.cc:1196-1206 | when nothing is fetched twice a matching graph fetches exactly the same tensors |
| PlanCaches.DeduceOne | hetu/graph/define_and_run_graph.cc:309-402 | the loops for one operation compute its deduced shapes, with every error |
| PlanCaches.DeducePlans | hetu/graph/define_and_run_graph.cc:298-454 | the deduction succeeds exactly when every tensor gets a shape; the executable plan is its image under the mapping, extended by the recorded operations |
| PlanCaches.ExtrasInferred | hetu/graph/define_and_run_graph.cc:418-452 | in every executable plan of the pool each tensor that only the executable graph has carries the shape inferred from its producer's inputs |
| PlanCaches.MakeExecGraph | hetu/graph/define_and_run_graph.cc:651-667 | making the graph records the first plan, a one-to-one mapping and the aligned executable plan |
| PlanCaches.FeedShapes | hetu/graph/define_and_run_graph.cc:1163-1180 | for every fed tensor and micro-batch its own array's shape or, for one array, that shape with the first size divided by the count and rounded up; an error exactly for arrays that cannot be split or counted |
| PlanCaches.DefineAndRunGraph.DeduceShapePlan | hetu/graph/define_and_run_graph.cc:298-455 | appends the deduced plan and its extended image to the two pools at the same index, and nothing on error |
| PlanCaches.DefineAndRunGraph.Choose | hetu/graph/define_and_run_graph.cc:1244-1293 | the first matching plan, or a new last one, or an error if and only if neither is possible; pools stay aligned, and no plan repeats another if the fed tensors are in the order |
| PlanCaches.DefineAndRunGraph.SetShapePlanList | hetu/graph/executable_graph.h:117-123 | stores the chosen indices exactly when all are inside the executable pool |
| PlanCaches.DefineAndRunGraph.Run | hetu/graph/define_and_run_graph.cc:1150-1304 | over any run: pools aligned and only growing, every micro-batch gets an index whose plan has its fed shapes, in the first graph that serves; success if and only if the feeds split and that graph, or a new one, can answer every micro-batch |
| PlanCaches.ActiveIsDeduced | hetu/graph/define_and_run_graph.cc:1244-1304 | with a fixed set of fed tensors every chosen index names a plan equal to deducing from that micro-batch's own shapes |

## Left out

- Integer width: shapes, strides, degrees and device numbers are unbounded, so no overflow is modelled.
- CUDA and NCCL: kernels are exact functions, transfers are messages, streams and events are only counted.
- The shared-weight workaround: the runtime asserts that it is not in use before running.
- Recomputation, activation offload, autocast, quantization, float4 storage and parameter buffers.
- Hot switching between executable graphs, and the pre-run and post-run steps around the task loop.
- Overlapped gradient reduction and the memory planner (disabled in the source).
- Topological sorting: a correct order is assumed.
- Placement groups and local devices of a `DistributedStates`, and the hetero id suggested to non-local devices.
- ReverseMode.Gradients: not the communication operations inserted after an operation's gradient, nor the rewriting of consecutive communications; gradients are the linear maps alone.
- GradientReduction.ReduceBranches: homogeneous layouts and one strategy, so not the branches whose unions are heterogeneous nor the split pattern of a union; communications other than all-reduce and reduce-scatter have no meaning of their own.
- DigitMerging.CombinedStatesOfOne: a meaning for one source, the only case the repository uses; lists of sources are computed by `CombineStates` and `CombineOrder`.
- LateTransfers.StageRunsIff: transferred tensors are first outputs, because the runtime's test for a computed operation looks at that one.
- FoldedMatmul.Matmul: not the branch with two batched operands; the one- and two-dimensional products are the reference definitions.
- FoldedMatmul.MatmulInto: takes a contiguous array, with at least as many dimensions as the result where it is transposed back; fewer are undefined behaviour in the source.
- StridedViews.SliceSafe: strides and sizes are non-negative, as all modelled operations keep them; the in-place conversions and broadcasting are not modelled.
- NDArrayMetas.NDArrayMeta.SetShape: dynamic shapes are not modelled.
- NDArrayMetas.NDArrayMeta.Flatten: takes a run that is not reversed; a reversed one is undefined behaviour in the source.
- ShapePlans.DeduceOpsShapes: symbolic shapes, and errors raised by an operation's own shape inference, are not modelled; the rewriting of parameter shapes counts as part of an operation's inference.
- PlanCaches.DefineAndRunGraph.DeduceShapePlan: the executable pool is a field of the plan, not a second object; tensors recorded after the graph was made are the subject of `UpdatedIsFresh` alone.
- PlanCaches.FeedShapes: the split arrays themselves are not made, so a negative last chunk shows only in the chunk lengths.
- PlanCaches.DefineAndRunGraph.Run: what follows the choice of plans (hot switch and execution) is not part of it.
- PipelineRuns.FlushFinishesInTime: every task takes one slot and sends are asynchronous.
- `cat`, `adddim`, reductions and the other array operations, which are kernels.
