# A verified model of the device validation framework

The framework submits test runs to an orchestrator (Go), which boots a virtual machine per run and drives an agent
inside it through a DAG of test steps; the tests exercise a GPU whose kernel driver (C) and emulated device (QEMU, C)
share page tables over DMA; a CI planner (Python) decides which tests to run and in which order. This project models
the parts of it where correctness depends on several functions at once, and proves what they promise.

| component | files | main results |
|---|---|---|
| Kahn's algorithm, used twice | `DepGraph.dfy` | an order of full length exists exactly when the graph is acyclic |
| Workflow DAG and its concurrent driver | `Workflow.dfy`, `WorkflowManager.dfy`, `WorkflowDriver.dfy`, `WorkflowRun.dfy` | exact validation, one-pass skip propagation is exact, confluence, no deadlock, bounded runs that can always be finished |
| GPU memory manager, DMA and MMU | `Gpu*.dfy` | end-to-end translation from the history of calls, isolation, unchecked array bound, stale entries never alias; exact conditions for kernels that overlap their sources or run past their buffer |
| Scheduler, allocator, life of a run | `Engine.dfy`, `EngineObjects.dfy` | no lost wake-up, conservation, FIFO, exact budget on every exit path |
| Command/result matching | `AgentProtocol.dfy` | own results only in every interleaving; exact condition for command ID collisions |
| CI planner | `CiPlanner.dfy` | lexicographically least valid order, independent of iteration order |
| JSON escaping in the C test framework | `JsonEscape.dfy` | bounds, exact truncation point, readable exactly for messages without other control bytes |

Sequential code that changes things step by step is modelled by methods and classes, each proved equal to a function
or relation. The concurrent protocols (workflow driver, engine, agent coordinator) are transition systems whose events
are the critical sections and channel operations of the source; the objects they share are classes, and the methods of
those classes are proved to take the steps of the transition systems. The GPU is one transition system with one ioctl
per step; `GpuDriver.Driver` is the imperative driver and register interface, proved to take exactly those steps.
Where the GPU invariant does not hold, a step may lead anywhere, so the invariant is proved of runs and never assumed
of them.

Properties that the code does not have in general come with an input that shows it and the exact condition under which
they hold:

- The device translates only the first address of a kernel operand and then runs through 4096 bytes of its memory. A
  destination close to the end of its buffer can overwrite the page table behind it (`GpuSpill.SpillingRun`). A
  destination is safe, whatever the memory holds, if and only if its 4096 bytes overlap no page table in use
  (`GpuSpill.DestinationIff`); page-aligned destinations and destinations with 4096 bytes left in their buffer are.
  Statements over runs of ioctls are about runs whose kernels satisfy this condition.
- The kernel adds the old values of its sources if and only if neither source overlaps the destination from below
  (`GpuDevice.SumsIff`).
- FREE computes its page count in 32 bits: it is the number of pages of the size exactly up to 0xFFFFF000, and zero
  above (`GpuIoctl.FreePagesIff`).
- `CanFit` predicts `TryAcquire` exactly for requests that are not negative (`EngineObjects.CanFitPredicts`).
- Command IDs of different runs coincide exactly when one run ID continues the other with a dash
  (`AgentProtocol.CollideIff`).
- A printed test message is readable JSON exactly when it has no control byte other than newline and tab
  (`JsonEscape.MessageReadable`).

Places where the code and its documentation disagree, and the code is followed:

- `workflow.go:8` announces cycle detection by depth-first search; the code uses Kahn's algorithm.
- `workflow.go:231` documents `IsBlocked` as "no step is running or ready"; the code does not look at running steps, and
  `BlockedMeansRunning` proves that in every reachable state a blocked workflow does have a running step.
- `workflow.go:156` and `workflow.go:183` speak of steps reachable only through failed ones; the code skips every pending
  step with at least one failed or skipped ancestor, which is what `PropagateSkipExact` and `FailureSkips` prove.
- `allocator.go:112` documents `CanFit` as predicting `TryAcquire`, which it does not for negative requests.

## Model

| member | source | states |
|---|---|---|
| `DepGraph.ZeroDegree` | go-orchestrator/internal/core/workflow.go:85-90 | the initial queue holds each node of in-degree zero once, whatever the map's iteration order |
| `DepGraph.LowerDependents` | go-orchestrator/internal/core/workflow.go:97-102 | lowering the counters of the dependents, with repeated dependencies counted as often as they are listed, keeps counters and queue exact |
| `DepGraph.Visit` | go-orchestrator/internal/core/workflow.go:93-103 | one iteration keeps the Kahn state: counters count the dependencies not yet sorted, the queue is exactly the unsorted nodes whose counter is zero |
| `DepGraph.QueueIsAvailable` | go-orchestrator/internal/core/workflow.go:93-103 | the queue is exactly the set of nodes all of whose dependencies are sorted |
| `DepGraph.LeftoversCycle` | go-orchestrator/internal/core/workflow.go:105-107 | when the queue runs empty with nodes left over, the graph has a cycle, which is constructed |
| `DepGraph.TopoOrderAcyclic` | go-orchestrator/internal/core/workflow.go:105-110 | a graph with a topological order has no cycle |
| `DepGraph.KahnEnd` | go-orchestrator/internal/core/workflow.go:92-107 | the order has full length if and only if the graph is acyclic, and is then a topological order |
| `WorkflowManager.IndexSteps` | go-orchestrator/internal/core/workflow.go:53-63 | indexing fails exactly on an empty or repeated ID, with the first such error; otherwise every definition is indexed as pending |
| `WorkflowManager.CheckDependencies` | go-orchestrator/internal/core/workflow.go:65-72 | reports a dependency on an unknown step if there is one; otherwise the graph is closed |
| `WorkflowManager.CountDependencies` | go-orchestrator/internal/core/workflow.go:75-83 | in-degrees and adjacency lists represent the dependency graph, repeated dependencies included |
| `WorkflowManager.KahnSort` | go-orchestrator/internal/core/workflow.go:85-107 | the sorted order is complete if and only if the graph is acyclic, and then every step follows its dependencies |
| `WorkflowManager.NewWorkflow` | go-orchestrator/internal/core/workflow.go:41-111 | succeeds if and only if there are steps, IDs are non-empty and distinct, dependencies are known and the graph is acyclic; the order is then a topological permutation of the IDs; each error is justified by the input |
| `WorkflowManager.Workflow.DepsAllPassed` | go-orchestrator/internal/core/workflow.go:135-143 | decides whether all listed steps have passed |
| `Workflows.AllPassedMeans` | go-orchestrator/internal/core/workflow.go:135-143 | that test means: every listed dependency has status passed |
| `WorkflowManager.Workflow.DepsAnyFailed` | go-orchestrator/internal/core/workflow.go:145-154 | decides whether some listed step has failed or been skipped |
| `Workflows.AnyDownMeans` | go-orchestrator/internal/core/workflow.go:145-154 | that test means: some listed dependency is failed or skipped |
| `WorkflowManager.Workflow.Ready` | go-orchestrator/internal/core/workflow.go:119-133 | lists the ready steps in topological order |
| `WorkflowManager.ReadyInMeans` | go-orchestrator/internal/core/workflow.go:119-133 | the list holds exactly the pending steps all of whose dependencies passed, each once |
| `WorkflowManager.Workflow.MarkRunning` | go-orchestrator/internal/core/workflow.go:172-181 | only the named step changes, to running with one more attempt; an unknown ID changes nothing and is an error |
| `WorkflowManager.Workflow.PropagateSkip` | go-orchestrator/internal/core/workflow.go:185-192 | the loop is the one-pass skip function; definitions and attempts are untouched |
| `WorkflowManager.Workflow.Advance` | go-orchestrator/internal/core/workflow.go:156-170 | records the outcome and, on failure only, propagates skips; an unknown ID changes nothing and is an error |
| `WorkflowManager.Workflow.IsDone` | go-orchestrator/internal/core/workflow.go:221-229 | true exactly when no step is pending or running |
| `WorkflowManager.Workflow.IsBlocked` | go-orchestrator/internal/core/workflow.go:233-238 | true exactly when the workflow is not done and no step is ready |
| `WorkflowManager.Workflow.Summary` | go-orchestrator/internal/core/workflow.go:240-253 | the three numbers are the numbers of passed, failed and skipped steps |
| `Workflows.PropagateSkipExact` | go-orchestrator/internal/core/workflow.go:183-192 | one pass in topological order skips exactly the pending steps joined by a chain of pending steps to a failed or skipped one, and leaves no pending step with a failed or skipped dependency |
| `Workflows.PassReachesFixpoint` | go-orchestrator/internal/core/workflow.go:185-192 | after k iterations the pass agrees with any fixpoint of skipping on the first k steps and has not touched the rest |
| `Workflows.SettledIsFixpoint` | go-orchestrator/internal/core/workflow.go:183-192 | skipping along chains is such a fixpoint, defined without reference to any order |
| `WorkflowDriver.AdvanceConsistent` | go-orchestrator/internal/core/workflow.go:156-192 | after every Advance started steps have passed dependencies, skipped ones a failed or skipped one, pending ones none; nothing but the step and pending steps changed |
| `WorkflowDriver.SkipsLostDescendants` | go-orchestrator/internal/core/workflow.go:183-192 | where started steps have passed dependencies, one pass skips a pending step if and only if it has a failed or skipped transitive ancestor |
| `WorkflowDriver.FailureSkips` | go-orchestrator/internal/core/execution_engine.go:1117-1123 | in every reachable state, receiving a failure skips exactly the pending steps that depend on the failed step, directly or not |
| `WorkflowDriver.RetryLoop` | go-orchestrator/internal/core/execution_engine.go:1017-1105 | the retry loop passes exactly when some attempt up to the last allowed one passes, and takes the attempt steps of the transition system |
| `WorkflowDriver.SomethingToDo` | go-orchestrator/internal/core/execution_engine.go:999-1014 | in a consistent state that is not done some step is running or ready |
| `WorkflowDriver.NextInv` | go-orchestrator/internal/core/execution_engine.go:999-1127 | every event of driver, goroutines and channel keeps the invariant on statuses, running steps, workers and messages |
| `WorkflowDriver.RunInv` | go-orchestrator/internal/core/execution_engine.go:983-1127 | the invariant holds in every state of every interleaving |
| `WorkflowDriver.FinishedIsEvaluation` | go-orchestrator/internal/core/execution_engine.go:999-1127 | a finished state is the recursive evaluation: skipped unless all dependencies passed, else the step's own outcome |
| `WorkflowDriver.EvaluationUnique` | go-orchestrator/internal/core/execution_engine.go:999-1127 | the recursive evaluation is unique |
| `WorkflowDriver.Confluence` | go-orchestrator/internal/core/execution_engine.go:999-1127 | any two finished runs, with any interleavings and any topological orders, end with the same statuses, those of the evaluation |
| `WorkflowDriver.ReturnsNilIff` | go-orchestrator/internal/core/execution_engine.go:1129-1135 | the counts of failed and skipped steps are both zero, so that runWorkflow returns no error, if and only if every step has a passing attempt |
| `WorkflowDriver.LaunchedOnce` | go-orchestrator/internal/core/execution_engine.go:1006-1016 | in every run a step is launched at most once, and once exactly if it started |
| `WorkflowDriver.ChannelHasRoom` | go-orchestrator/internal/core/execution_engine.go:995-1111 | a goroutine never blocks on the result channel |
| `WorkflowDriver.NeverStuck` | go-orchestrator/internal/core/execution_engine.go:999-1127 | until the driver has returned some event other than cancellation is possible |
| `WorkflowDriver.BlockedMeansRunning` | go-orchestrator/internal/core/workflow.go:231-238 | in reachable states a blocked workflow has a running step |
| `WorkflowDriver.StepShrinks` | go-orchestrator/internal/core/execution_engine.go:999-1127 | every event strictly lowers the remaining work of pending and running steps, attempts and control |
| `WorkflowDriver.RunBounded` | go-orchestrator/internal/core/execution_engine.go:999-1127 | every run has at most as many events as the initial state has work, so the driver terminates |
| `WorkflowDriver.EveryRunFinishes` | go-orchestrator/internal/core/execution_engine.go:999-1127 | every run in which the driver has not returned extends, without cancellation, to one in which it has finished |
| `WorkflowDriver.EvaluationExists` | go-orchestrator/internal/core/execution_engine.go:999-1127 | every well-formed workflow has its recursive evaluation |
| `WorkflowRun.Start` | go-orchestrator/internal/core/execution_engine.go:983-996 | an accepted step list gives an initial state of the driver, shown by the workflow object |
| `WorkflowRun.LaunchReady` | go-orchestrator/internal/core/execution_engine.go:1006-1014 | the loop marks running, once each, exactly the ready steps that are not in the running set, and adds them to it |
| `WorkflowRun.LaunchIsLoopStep` | go-orchestrator/internal/core/execution_engine.go:1006-1014 | that change of the workflow object is the launching step of the driver |
| `WorkflowRun.ReceiveResult` | go-orchestrator/internal/core/execution_engine.go:1117-1123 | the step leaves the running set and its outcome is advanced |
| `WorkflowRun.ReceiveIsReceived` | go-orchestrator/internal/core/execution_engine.go:1117-1123 | that change of the workflow object is the receiving step of the driver |
| `GpuMemory.PackRoundTrip` | driver-source/gpgpu_driver/src/gpgpu_memory_manager.c:15-25 | context, page and offset are recovered from every packed address inside the page |
| `GpuBits.PackBits` | driver-source/gpgpu_driver/src/gpgpu_memory_manager.c:152-153 | shifting context and page into place and or-ing them is the packed address, for parts that fit their fields |
| `GpuBits.DecodeBits` | driver-source/gpgpu_driver/src/gpgpu_memory_manager.c:15-25 | on every 64-bit word the shifts and masks of the decoders compute context, page and offset |
| `GpuBits.ValidBit` | qemu-accelerator-models/hw/misc/gp_gpu.c:105-107 | on every 64-bit word masking bit 0 decides validity |
| `GpuBits.PageBits` | qemu-accelerator-models/hw/misc/gp_gpu.c:109 | on every 64-bit word clearing the low twelve bits gives the page |
| `GpuMemory.EntryRoundTrip` | driver-source/gpgpu_driver/src/gpgpu_memory_manager.c:166 | the entry of an aligned page is valid and decodes to the page |
| `GpuMemory.JoinHalves` | qemu-accelerator-models/hw/misc/gp_gpu.c:142-143 | the device reassembles every 64-bit value the driver split into halves |
| `GpuMemory.LoadStored` | qemu-accelerator-models/hw/misc/gp_gpu.c:101-103 | a little-endian word that was stored is loaded back |
| `GpuPageTable.EncodeAt` | qemu-accelerator-models/hw/misc/gp_gpu.c:97-103 | entry v of an encoded table is the word at byte 8v |
| `GpuPageTable.MapPages` | driver-source/gpgpu_driver/src/gpgpu_memory_manager.c:160-167 | the mapping loop computes the mapped table |
| `GpuPageTable.MappedMeans` | driver-source/gpgpu_driver/src/gpgpu_memory_manager.c:160-167 | exactly the pages of the allocation get entries, consecutive and valid; all others are kept |
| `GpuPageTable.ClearPages` | driver-source/gpgpu_driver/src/gpgpu_memory_manager.c:217-239 | the freeing loop clears the longest valid stretch it was asked for, and succeeds exactly if that is all of it |
| `GpuPageTable.ClearCount` | driver-source/gpgpu_driver/src/gpgpu_memory_manager.c:217-239 | the stretch ends at the first page that is outside the table or not valid |
| `GpuSystem.GpGpuDma` | driver-source/gpgpu_driver/src/gpgpu_dma.c:25-38 | programming the registers and ringing the doorbell moves exactly the named bytes, in either direction: splitting, reassembly and 32-bit truncation lose nothing |
| `GpuIoctl.VpageInTable` | driver-source/gpgpu_driver/src/gpgpu_memory_manager.c:149-168 | an allocation that fits the DDR stays inside the page table, although the code never checks it |
| `GpuIoctl.FirstUnused` | driver-source/gpgpu_driver/src/gpgpu_memory_manager.c:88-89 | the first slot whose id is zero, or none |
| `GpuIoctl.FindBuffer` | driver-source/gpgpu_driver/src/gpgpu_pcie_ep_driver.c:70-80 | finds a buffer with the handle if there is one |
| `GpuIoctl.FreePagesIff` | driver-source/gpgpu_driver/src/gpgpu_memory_manager.c:212-214 | the 32-bit page count is that of the size if and only if the size is at most 0xFFFFF000; above it is zero |
| `GpuProofs.CtxCreateInv` | driver-source/gpgpu_driver/src/gpgpu_memory_manager.c:82-136 | creating a context, or failing to, keeps the system invariant |
| `GpuProofs.ReqBufInv` | driver-source/gpgpu_driver/src/gpgpu_pcie_ep_driver.c:110-178 | REQ_BUF keeps the system invariant and leaves the device's table bytes equal to the driver's table, however stale they were |
| `GpuProofs.WriteBufInv` | driver-source/gpgpu_driver/src/gpgpu_pcie_ep_driver.c:219-246 | WRITE_BUF keeps the system invariant |
| `GpuProofs.WriteBufMeans` | driver-source/gpgpu_driver/src/gpgpu_pcie_ep_driver.c:219-246 | a WRITE_BUF that is accepted replaces exactly the leading bytes of its buffer in device memory and its own host allocation |
| `GpuProofs.ReadBufInv` | driver-source/gpgpu_driver/src/gpgpu_pcie_ep_driver.c:248-275 | READ_BUF keeps the system invariant |
| `GpuProofs.FreeInv` | driver-source/gpgpu_driver/src/gpgpu_memory_manager.c:184-248 | FREE with any address and size keeps the system invariant, the device copy being left stale |
| `GpuDevice.BindBinds` | driver-source/gpgpu_driver/src/gpgpu_memory_manager.c:32-41 | binding makes the device's table register name the context's table, the low half being enough |
| `GpuDevice.TranslateReads` | qemu-accelerator-models/hw/misc/gp_gpu.c:82-111 | with a context bound, translation reads that context's entry in the device's copy of the table |
| `GpuDevice.VectorAddition` | qemu-accelerator-models/hw/misc/gp_gpu.c:124-126 | the kernel loop on device memory computes the word-by-word addition function |
| `GpuDevice.VecAddWord` | qemu-accelerator-models/hw/misc/gp_gpu.c:124-126 | however the ranges overlap, destination word i ends as the 32-bit sum of what iteration i read |
| `GpuDevice.VecAddMeans` | qemu-accelerator-models/hw/misc/gp_gpu.c:124-126 | for sources that do not overlap the destination from below, word i becomes the 32-bit sum of the old words i and nothing else changes |
| `GpuDevice.SumsIff` | qemu-accelerator-models/hw/misc/gp_gpu.c:124-126 | for word-aligned operands that holds for every content of the memory if and only if neither source overlaps the destination from below |
| `GpuKernel.SamePage` | qemu-accelerator-models/hw/misc/gp_gpu.c:91-110 | addresses in one page are translated to consecutive places, so within its page word k of an operand is where its own virtual address leads |
| `GpuKernel.KernelSums` | qemu-accelerator-models/hw/misc/gp_gpu.c:113-127 | after the kernel loop a destination mapped by the bound context is translated as before, and each of its 1024 words is the wrapped sum of the source words before, under the conditions on overlap and on tables |
| `GpuKernel.AlignedAhead` | qemu-accelerator-models/hw/misc/gp_gpu.c:121-126 | page-aligned operands satisfy the condition on overlap, whether or not the destination is a source |
| `GpuKernel.AddInv` | qemu-accelerator-models/hw/misc/gp_gpu.c:113-127 | a kernel whose destination overlaps no page table in use keeps the system invariant, wherever its sources are |
| `GpuKernel.MappedDestination` | qemu-accelerator-models/hw/misc/gp_gpu.c:121-126 | a mapped destination lies in a buffer of the bound context, and overlaps no table in use if it is page-aligned or 4096 bytes are left in that buffer |
| `GpuSpill.DestinationIff` | qemu-accelerator-models/hw/misc/gp_gpu.c:121-126 | a word-aligned destination keeps the invariant for every content of the memory and all sources if and only if its 4096 bytes overlap no page table in use |
| `GpuSpill.SpillingRun` | qemu-accelerator-models/hw/misc/gp_gpu.c:113-127 | six allowed ioctls after which a buffer that was allocated and never freed is no longer translated, because a kernel of another context ran past its page |
| `GpuRuns.ArgRegisterHolds` | driver-source/gpgpu_driver/src/gpgpu_pcie_ep_driver.c:413-414 | the device reads back the argument address that SUBMIT wrote |
| `GpuRuns.NextInv` | driver-source/gpgpu_driver/src/gpgpu_pcie_ep_driver.c:109-458 | every ioctl keeps the system invariant, SUBMIT provided that its destination overlaps no page table in use |
| `GpuRuns.RunInv` | driver-source/gpgpu_driver/src/gpgpu_pcie_ep_driver.c:109-458 | the invariant holds throughout every such run of ioctls from device start |
| `GpuRuns.CanStep` | driver-source/gpgpu_driver/src/gpgpu_pcie_ep_driver.c:109-458 | every allowed ioctl has a next state |
| `GpuRuns.RunExtends` | driver-source/gpgpu_driver/src/gpgpu_pcie_ep_driver.c:109-458 | every run can be extended by every allowed ioctl |
| `GpuRuns.RegionsOverRuns` | driver-source/gpgpu_driver/src/gpgpu_memory_manager.c:48-63 | after every run each page table and each buffer lies inside the DDR, and any two tables, two buffers, or table and buffer are disjoint |
| `GpuRuns.EntriesOverRuns` | driver-source/gpgpu_driver/src/gpgpu_memory_manager.c:160-168 | in every run every entry that gpu_alloc writes is inside the table |
| `GpuTheorems.LiveTranslation` | qemu-accelerator-models/hw/misc/gp_gpu.c:82-111 | the device translates every address of a live page of a buffer of the bound context to the buffer's physical address plus offset |
| `GpuTheorems.RequestLive` | driver-source/gpgpu_driver/src/gpgpu_memory_manager.c:159-168 | after a successful REQ_BUF every page of the new buffer is valid in the driver's table |
| `GpuTheorems.StepPages` | driver-source/gpgpu_driver/src/gpgpu_memory_manager.c:217-239 | a page that was handed out stays valid or invalid under every ioctl, except that a FREE which gets to it makes it invalid |
| `GpuTheorems.PagesOverRuns` | driver-source/gpgpu_driver/src/gpgpu_memory_manager.c:138-248 | over any stretch of a run a page is valid at the end if and only if it was at the start and no FREE got to it |
| `GpuTheorems.TranslationOverRuns` | driver-source/gpgpu_driver/src/gpgpu_memory_manager.c:138-182 | after every run, an address of a buffer that some REQ_BUF of the run allocated and whose page no later FREE asks to clear is translated to the buffer's memory, once its context is bound |
| `GpuTheorems.NeverAliasing` | driver-source/gpgpu_driver/src/gpgpu_memory_manager.c:217-246 | a valid device entry, fresh or stale, names the page once assigned to that context and virtual page, and two such entries never name the same page |
| `GpuTheorems.NeverInTable` | driver-source/gpgpu_driver/src/gpgpu_memory_manager.c:217-246 | no valid device entry leads into a page table |
| `GpuTheorems.FreeOwn` | driver-source/gpgpu_driver/src/gpgpu_memory_manager.c:184-248 | freeing a buffer with valid pages by its own address and size succeeds and clears exactly its entries in the driver's table |
| `GpuTheorems.FreeOwnOverRuns` | driver-source/gpgpu_driver/src/gpgpu_memory_manager.c:184-248 | that applies, after every run, to each buffer that the run allocated and no page of which a later FREE asks to clear |
| `GpuTheorems.StepKeeps` | driver-source/gpgpu_driver/src/gpgpu_pcie_ep_driver.c:109-458 | an ioctl that is neither a write to a buffer nor a kernel whose 4096 destination bytes reach into it leaves the buffer's bytes alone |
| `GpuTheorems.RunKeeps` | driver-source/gpgpu_driver/src/gpgpu_pcie_ep_driver.c:109-458 | so does any stretch of such ioctls, and the buffer stays listed |
| `GpuTheorems.ReadReturns` | driver-source/gpgpu_driver/src/gpgpu_pcie_ep_driver.c:248-275 | READ_BUF returns the leading bytes of the buffer in device memory |
| `GpuTheorems.WriteThenRead` | driver-source/gpgpu_driver/src/gpgpu_pcie_ep_driver.c:219-275 | what WRITE_BUF wrote is what READ_BUF returns after any ioctls that did not target the buffer |
| `GpuDriver.Driver.WriteReg` | qemu-accelerator-models/hw/misc/gp_gpu.c:138-164 | a register write stores the value, and at the doorbell performs the programmed transfer |
| `GpuDriver.Driver.Poll` | driver-source/gpgpu_driver/src/gpgpu_dma.c:40-49 | the countdown loop succeeds exactly if the status bit is set |
| `GpuDriver.Driver.Dma` | driver-source/gpgpu_driver/src/gpgpu_dma.c:10-53 | always completes, and moves exactly the named bytes |
| `GpuDriver.Driver.DdrAlloc` | driver-source/gpgpu_driver/src/gpgpu_memory_manager.c:48-63 | bump allocation: zero and no change if the aligned size does not fit, else the old mark |
| `GpuDriver.Driver.CtxCreate` | driver-source/gpgpu_driver/src/gpgpu_memory_manager.c:82-136 | takes the step of the transition system, failed slot included |
| `GpuDriver.Driver.Alloc` | driver-source/gpgpu_driver/src/gpgpu_memory_manager.c:138-182 | maps and syncs as the transition system says |
| `GpuDriver.Driver.Free` | driver-source/gpgpu_driver/src/gpgpu_memory_manager.c:184-248 | clears as the transition system says, partial clears, errors and the 32-bit page count included |
| `GpuDriver.Driver.ReqBuf` | driver-source/gpgpu_driver/src/gpgpu_pcie_ep_driver.c:110-178 | takes the REQ_BUF step, errors included |
| `GpuDriver.Driver.WriteBuf` | driver-source/gpgpu_driver/src/gpgpu_pcie_ep_driver.c:219-246 | takes the WRITE_BUF step, errors included |
| `GpuDriver.Driver.ReadBuf` | driver-source/gpgpu_driver/src/gpgpu_pcie_ep_driver.c:248-275 | takes the READ_BUF step, errors included |
| `GpuDriver.Driver.BindContext` | driver-source/gpgpu_driver/src/gpgpu_memory_manager.c:250-261 | binds the context; an id out of range is refused and leaves the old binding |
| `GpuDriver.Driver.Submit` | driver-source/gpgpu_driver/src/gpgpu_pcie_ep_driver.c:409-455 | takes the SUBMIT step |
| `GpuDriver.Driver.Start` | qemu-accelerator-models/hw/misc/gp_gpu.c:113-127 | the start register runs the kernel loop in place on the translated operands |
| `GpuDriver.Driver.FindBuffer` | driver-source/gpgpu_driver/src/gpgpu_pcie_ep_driver.c:70-80 | the list walk finds the first buffer with the handle |
| `Engine.NextInv` | go-orchestrator/internal/core/execution_engine.go:172-198 | every event of submitters, worker and runs keeps conservation, slot count, exact budget, FIFO and wake-up; the underflow guard and the clamp never act |
| `Engine.ConservedStep` | go-orchestrator/internal/core/execution_engine.go:299-316 | each submitted run stays in exactly one of queued, executing, deferred and finished |
| `Engine.SlotsStep` | go-orchestrator/internal/core/scheduler.go:84-90 | the active count is the number of executing and returning runs, within the limit; Release never meets zero |
| `Engine.BudgetStep` | go-orchestrator/internal/core/allocator.go:74-110 | used CPUs and memory are the sum of the held allocations, within the totals; Release never clamps |
| `Engine.WakeupStep` | go-orchestrator/internal/core/scheduler.go:35-67 | a worker parked with a run queued and a slot free has a token in the channel or a caller about to send one |
| `Engine.RunInv` | go-orchestrator/internal/core/execution_engine.go:172-198 | the invariant holds in every state of every run of the engine |
| `Engine.LiveVmsCovered` | go-orchestrator/internal/core/execution_engine.go:299-414 | in every run each live VM's run holds an allocation and a slot, and live VMs fit the budget and the concurrency limit |
| `Engine.DispatchedInOrder` | go-orchestrator/internal/core/scheduler.go:35-58 | in every run dispatch order is enqueue order: dispatched followed by queued is enqueued |
| `Engine.FirstIsDispatched` | go-orchestrator/internal/core/scheduler.go:47-67 | whenever a run is queued and a slot is free, worker and channel alone can dispatch it within three steps |
| `Engine.EveryInterleavingDispatches` | go-orchestrator/internal/core/scheduler.go:35-100 | in every interleaving from such a state two steps of the worker dispatch the run, and until then the worker's next step is possible or a caller is about to send, after which it is |
| `EngineObjects.Scheduler.constructor` | go-orchestrator/internal/core/scheduler.go:24-32 | a limit below one becomes one; nothing is queued, active or signalled |
| `EngineObjects.Scheduler.Append` | go-orchestrator/internal/core/scheduler.go:36-38 | is the enqueue step of the engine |
| `EngineObjects.Scheduler.Signal` | go-orchestrator/internal/core/scheduler.go:41-44 | never blocks and leaves a token in the channel |
| `EngineObjects.Scheduler.TryNext` | go-orchestrator/internal/core/scheduler.go:71-82 | hands out the first run exactly when one is queued and a slot is free; is the engine's check step |
| `EngineObjects.Scheduler.FreeSlot` | go-orchestrator/internal/core/scheduler.go:86-90 | is the engine's release step |
| `EngineObjects.ResourceAllocator.TryAcquire` | go-orchestrator/internal/core/allocator.go:77-94 | reserves exactly when the request is not negative and fits; otherwise nothing changes |
| `EngineObjects.ResourceAllocator.Release` | go-orchestrator/internal/core/allocator.go:98-110 | returns the allocation, clamped at zero |
| `EngineObjects.CanFitPredicts` | go-orchestrator/internal/core/allocator.go:112-119 | for a given request CanFit agrees with TryAcquire in every state of the budget if and only if the request is not negative |
| `EngineObjects.CanFitMisleads` | go-orchestrator/internal/core/allocator.go:112-119 | a negative request on an empty budget where they differ |
| `AgentProtocol.RunInv` | go-orchestrator/internal/core/agent_state.go:110-195 | in every interleaving each waiter, buffered result, delivery in progress and call belongs to a channel made for its own command |
| `AgentProtocol.OwnResultOnly` | go-orchestrator/internal/core/agent_state.go:110-145 | SendCommand returns only a result whose command ID is its own, under any cancellations, re-registrations and late or repeated deliveries |
| `AgentProtocol.IdIdentifies` | go-orchestrator/internal/core/execution_engine.go:1027 | within one run the command ID determines step and attempt |
| `AgentProtocol.CreditedToItsAttempt` | go-orchestrator/internal/core/execution_engine.go:1025-1087 | a late result of one attempt is never credited to another attempt or step of the run |
| `AgentProtocol.CollideIff` | go-orchestrator/internal/core/execution_engine.go:1027 | two runs can share a command ID if and only if one run ID is a prefix of the other followed by a dash |
| `AgentProtocol.Coordinator.RegisterVm` | go-orchestrator/internal/core/agent_state.go:48-58 | is the register step: a fresh registration replaces any older one |
| `AgentProtocol.Coordinator.UnregisterVm` | go-orchestrator/internal/core/agent_state.go:61-69 | is the unregister step |
| `AgentProtocol.Coordinator.BeginSend` | go-orchestrator/internal/core/agent_state.go:119-123 | is the send step: a channel of its own, registered under the command ID |
| `AgentProtocol.Coordinator.TryReceive` | go-orchestrator/internal/core/agent_state.go:139-142 | takes the buffered result if there is one |
| `AgentProtocol.Coordinator.EndSend` | go-orchestrator/internal/core/agent_state.go:125-129 | removes the waiter registered under the command ID |
| `AgentProtocol.Coordinator.FindWaiter` | go-orchestrator/internal/core/agent_state.go:181-187 | finds the channel registered for the result's command ID, or reports that there is none |
| `AgentProtocol.Coordinator.Deliver` | go-orchestrator/internal/core/agent_state.go:189-194 | puts the result into an empty buffer, or gives up without effect |
| `CiPlanner.Sort` | scripts/ci_impact_analyzer.py:174-175 | strictly sorted in the order of Python tuples, same elements |
| `CiPlanner.AddDependency` | scripts/ci_impact_analyzer.py:160-167 | one edge more, the dependency becoming a node if it is not one yet; counters stay exact |
| `CiPlanner.AddDependencies` | scripts/ci_impact_analyzer.py:155-167 | the test depends exactly on the non-blank entries of its list, on its own device |
| `CiPlanner.BuildGraph` | scripts/ci_impact_analyzer.py:143-167 | in-degrees and adjacency lists represent the plan graph, whatever the iteration order |
| `CiPlanner.GreedyIsLexLeast` | scripts/ci_impact_analyzer.py:173-181 | taking the smallest available node each time gives the lexicographically least of all topological orders |
| `CiPlanner.SortGreedily` | scripts/ci_impact_analyzer.py:169-183 | the loop's result has full length if and only if the graph is acyclic, and is then the least order |
| `CiPlanner.SortedKeys` | scripts/ci_impact_analyzer.py:185 | all nodes, sorted |
| `CiPlanner.BuildDag` | scripts/ci_impact_analyzer.py:141-187 | the plan is the least topological order of the plan graph, or all nodes sorted when there is none |
| `CiPlanner.PlanUnique` | scripts/ci_impact_analyzer.py:169-187 | there is only one such plan, so set and dict iteration order have no influence |
| `CiPlanner.PlanCovers` | scripts/ci_impact_analyzer.py:146-167 | the plan holds exactly the affected tests and their non-blank declared dependencies |
| `CiPlanner.DeclaredFirst` | scripts/ci_impact_analyzer.py:153-181 | without cycles every affected test comes after each non-blank dependency it declares |
| `JsonEscape.EscapeInto` | c-test-binaries/common/test_framework.c:42-54 | writes stay inside the buffer, the output is terminated and is the escaped form of the prefix up to the cut, never half an escape |
| `JsonEscape.CutUnique` | c-test-binaries/common/test_framework.c:44 | the cut is determined by message and buffer size |
| `JsonEscape.WholeIff` | c-test-binaries/common/test_framework.c:44 | nothing is cut if and only if all but the last byte leaves room for one more escape |
| `JsonEscape.MessageFits` | c-test-binaries/common/test_framework.c:57-62 | a message of the 512-byte field is never cut by the 1024-byte buffer |
| `JsonEscape.DecodeEscape` | c-test-binaries/common/test_framework.c:45-51 | decoding by section 7 of RFC 8259 gives back the message if it has no control byte other than newline and tab, and rejects it otherwise |
| `JsonEscape.EscapeInjective` | c-test-binaries/common/test_framework.c:45-51 | different messages have different escaped forms |
| `JsonEscape.MessageReadable` | c-test-binaries/common/test_framework.c:56-64 | the printed message is a readable JSON string holding the whole message if and only if it has no control byte other than newline and tab |
| `JsonEscape.CarriageReturnBreaks` | c-test-binaries/common/test_framework.c:50 | a carriage return is printed as it is, which no JSON reader accepts |

## Left out

- Generated protobuf and gateway code, gRPC and REST handlers, storage, telemetry and audit: field copies and plumbing.
- VMManager, QEMU command lines and QMPClient: process effects; creating, starting and destroying a VM are steps that may fail.
- The local runner, parsing of test output, node registry and configuration loading.
- PCI probing, interrupts, the WAIT ioctl, the job list, GET_INFO, GET_VA and the FPGA driver.
- Races inside one ioctl: ioctls are atomic steps. Coherent DMA allocations succeed, are zeroed and get fresh addresses.
- Ioctls whose effect C leaves undefined: REQ_BUF with an id that no successful creation returned, FREE on a slot whose creation failed, SUBMIT whose kernel makes a misaligned access or one outside the device memory.
- What follows a kernel that overwrote a page table in use: the step itself is modelled, nothing is claimed of later states.
- Wrap-around of buffer handles and job ids, and the SM registers that the device model does not read.
- Time: timeouts, back-off and sleeps are steps that may happen at any moment.
- Enqueue after Close, engine shutdown and recovery after a restart; SetTotal, which the engine never calls; an engine without an allocator.
- The status stored for a run: the source records PASSED even when steps fail, so nothing is claimed about it.
- Fields of workflow steps other than ID, dependencies and retry limit; results saved per step.
- The queue of commands waiting for an agent: a call may receive, be cancelled or wait at any time after it is registered.
- The workflow driver and the bodies of worker and executeTestRun are transition systems on values; goroutine stacks and locks are not objects of the model.
- BuildDag: only one level of dependencies is expanded, as in the source, so a dependency's own dependencies are not claimed to be scheduled or ordered.
- EscapeInto: buffers of fewer than two bytes are excluded, because the unsigned bound in the source wraps around for them; validity of UTF-8 is not considered.
- MessageReadable: suite and test names, which are printed without escaping, are not covered.
