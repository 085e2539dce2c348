# Verified models of the SVSM

A Dafny model of the parts of the SVSM (a secure VM service module) whose correctness
rests on invariants over whole runs, and proofs of those invariants. Each module
follows one component of the program:

- **Split virtqueue** (`VirtqueueModel`, `VirtqueueLedger`, `VirtqueueRings`, `Virtqueue`):
  the driver side of section 2.6 of the Virtio 1.1 specification, "Split Virtqueues". The
  class keeps the arrays the driver keeps. `Valid` is the driver's own invariant and
  mentions nothing a device can write; `Honest` is what holds in addition while the device
  writes only the used ring. The device is part of the model: it takes and completes
  requests in any order, or scribbles over everything it can reach.
- **Cross-CPU messages** (`Ipi`, `CpuSet`): boards, request sets and acknowledgement counts
  of N CPUs as a state machine whose steps are the atomic accesses of `send_ipi` and of the
  interrupt handler. A run is any interleaving. The bit-level request sets and their
  iterators are classes.
- **Local APIC emulation** (`VectorRegister`, `GuestIpi`, `ApicModel`, `Apic`): `ApicModel`
  works on sets of vectors and proves the invariant over all runs; the classes in `Apic`
  work on the bit registers and are proved to refine it, with the VMSA as the guest CPU
  state. `GuestIpi` interleaves requesters on other CPUs with the consumer.
- **Boot image builder** (`Pages`, `PageTables`, `BootHeap`, `KernelTables`, `PageCursor`,
  `BootImage`): the emitted four-level page tables are read back by a model of the
  processor's walk, and the whole physical and virtual layout is derived from the order in
  which the builder emits.
- **ELF** (`Elf`, `Relocation`): the sorted load-segment index against a linear search, the
  program-header loop, the load base, and x86-64 relocation against the formulas of section
  4.4.1 of the System V AMD64 psABI.
- **Nesting and temporary mappings** (`IrqState`, `TempMaps`): interrupt nesting and task
  priority over any legal sequence of calls, and the mapping window of the boot loader
  against a TLB that may cache any present entry at any time.

`Bits` and `Collections` hold integer bit operations and small set and sequence facts.

Large predicates are "sealed" as a quantifier over the one-valued type `Seal`, so that a
proof has to unfold them by name.

Where the code and what its comments or names promise differ, the model follows the code,
and the exact condition under which the promise holds is proved, with a concrete failing
case:

- In a broadcast IPI the acknowledgement count is stored after the targets are flagged. The
  wait ends exactly when nobody acknowledged before the store (`Ipi.WaitEndsExactly`); once
  overtaken it never ends (`Ipi.OvertakenNeverReturns`, `Ipi.OvertakenHappens`).
- The emulated processor priority reads the stack slot above the newest vector in service
  (`ApicModel.PprExact`, `ApicModel.PprMissesTop`).
- `map_range` counts leaf entries from the kernel base while the directory counts them from
  the 2 MB boundary below it (`PageTables.MapsRightExactly`,
  `PageTables.MisalignedBaseFails`).
- The parameter block is emitted whole, whatever the size of the area allocated for it
  (`BootImage.UndisturbedExactly`, `BootImage.ParamsOverrunHappens`).
- A lookup of an empty range in the segment index can miss a segment that a linear search
  finds (`Elf.EmptyLookupExact`, `Elf.EmptyLookupDiffers`), and a file mapping without an
  end can start past the segment's file contents (`Elf.OpenEndedExact`,
  `Elf.OpenEndedInverted`).
- Reading the symbol whose index equals the number of symbols passes the bounds check; the
  relocation iterator has an outcome of its own for it
  (`Relocation.AppliedRelaIterator.Next`, `Relocation.ReadPastSymbols`).

## Model

| member | source | states |
|---|---|---|
| `VirtqueueModel.InputOutputOrder` | virtio-drivers/src/queue.rs:808-830 | The iterator yields all inputs in order as device-readable, then all outputs in order as device-writable, whatever the two lists are. |
| `VirtqueueModel.WalksUnique` | virtio-drivers/src/queue.rs:749-758 | Following NEXT through any table reads at most one list of elements, so "what the device reads" is well defined. |
| `VirtqueueModel.DeviceSeesUnique` | virtio-drivers/src/queue.rs:211-295 | A head stands for one buffer list only, whether it is read through the ring table or through an indirect table: the two encodings cannot mean different things. |
| `VirtqueueModel.ChainWalks` | virtio-drivers/src/queue.rs:211-245 | A directly encoded chain reads back as its buffers in order with their addresses, lengths and directions, and ends where NEXT is absent. |
| `VirtqueueModel.IndirectListWalks` | virtio-drivers/src/queue.rs:256-271 | The indirect table that `add_indirect` fills reads back as the same elements as the direct encoding. |
| `VirtqueueLedger.PartitionIsExact` | virtio-drivers/src/queue.rs:115-124 | In every state with the invariant, the descriptor indices split exactly into `SIZE - num_used` distinct steps of `next` from `free_head` and pairwise disjoint outstanding chains. |
| `VirtqueueLedger.SharesAreExact` | virtio-drivers/src/queue.rs:720-739 | The live HAL shares are exactly the buffers of the outstanding chains and their indirect tables, each at an address of its own and belonging to one chain. |
| `VirtqueueLedger.InitialInv` | virtio-drivers/src/queue.rs:115-144 | A new queue has the invariant: all descriptors free and linked, nothing shared. |
| `VirtqueueLedger.AddKeepsInv` | virtio-drivers/src/queue.rs:211-295 | Carving a chain off the front of the free list and sharing its buffers keeps the partition, the encodings and the share ledger, for both encodings. |
| `VirtqueueLedger.RecycleKeepsInv` | virtio-drivers/src/queue.rs:416-495 | Putting any outstanding chain back at the front of the free list, in any completion order, keeps the invariant. |
| `VirtqueueLedger.RecycleUndoesAdd` | virtio-drivers/src/queue.rs:157-495 | Recycling a chain straight after adding it restores the free list, the chains, the owners and the share ledger. |
| `VirtqueueLedger.FreeHeadHasNoList` | virtio-drivers/src/queue.rs:275-276 | The assertion of `add_indirect`, that the head it takes has no list stored, never fails. |
| `VirtqueueLedger.DirectCarved` | virtio-drivers/src/queue.rs:216-242 | What the loop of `add_direct` writes is a chain of the buffers in the first free descriptors, with every other descriptor untouched. |
| `VirtqueueLedger.DirectAdded` | virtio-drivers/src/queue.rs:211-245 | `add_direct` adds one chain that the device can read, and leaves what it can read of the other chains as it was. |
| `VirtqueueLedger.IndirectAdded` | virtio-drivers/src/queue.rs:248-295 | `add_indirect` does the same while using one descriptor. |
| `VirtqueueLedger.DirectRemoved` | virtio-drivers/src/queue.rs:464-494 | The direct branch of `recycle_descriptors` removes exactly that chain and its shares. |
| `VirtqueueLedger.IndirectRemoved` | virtio-drivers/src/queue.rs:426-463 | The indirect branch removes exactly that chain, its table and its shares, without rewriting the device-visible head. |
| `VirtqueueLedger.DeviceSeesChain` | virtio-drivers/src/queue.rs:363-370 | A device that follows a published head through the device-visible table reads exactly the request's buffers, whichever encoding was used. |
| `VirtqueueLedger.HeadsBound` | virtio-drivers/src/queue.rs:242 | There are at most `num_used` outstanding requests, so the rings have room for all of them. |
| `VirtqueueRings.SlotExact` | virtio-drivers/src/queue.rs:70 | Masking the wrapped 16-bit index gives the slot of the unbounded count, for every power-of-two size up to 2^15. |
| `VirtqueueRings.PublishExact` | virtio-drivers/src/queue.rs:189-206 | Publishing never overwrites an available entry the device has not taken, and keeps the ring state exact against the unbounded counts. |
| `VirtqueueRings.TakeExact` | virtio-drivers/src/queue.rs:189-206 | The device finds the oldest published head in the slot of its own count. |
| `VirtqueueRings.CompleteExact` | virtio-drivers/src/queue.rs:789-806 | A completion never overwrites a used entry the driver has not popped. |
| `VirtqueueRings.CanPopExact` | virtio-drivers/src/queue.rs:373-377 | The 16-bit indices differ if and only if completions really outnumber pops. |
| `VirtqueueRings.PopExact` | virtio-drivers/src/queue.rs:516-536 | The driver finds the oldest completion in its slot, it is an outstanding request, and popping keeps the rings exact. |
| `Virtqueue.Hal.Share` | virtio-drivers/src/queue.rs:728 | An address that is not live becomes live for exactly that buffer or table. |
| `Virtqueue.Hal.Unshare` | virtio-drivers/src/queue.rs:442-446 | Every call names a live share with the same contents and direction; afterwards only that share is gone. |
| `Virtqueue.LinkFree` | virtio-drivers/src/queue.rs:115-124 | The loop of `new` threads the free list through both tables. |
| `Virtqueue.New` | virtio-drivers/src/queue.rs:79-145 | Fails exactly for a queue in use, a transport with too few entries or missing DMA memory, else gives a queue with the invariant. |
| `Virtqueue.VirtQueue.constructor` | virtio-drivers/src/queue.rs:110-144 | A new queue has the driver invariant and the ring invariant, nothing outstanding and nothing shared. |
| `Virtqueue.VirtQueue.WriteDesc` | virtio-drivers/src/queue.rs:363-370 | The device-visible table changes in that one entry, to the trusted copy. |
| `Virtqueue.VirtQueue.TakeFree` | virtio-drivers/src/queue.rs:220-234 | One buffer is shared at a fresh address and goes into the first free descriptor, in both tables. |
| `Virtqueue.VirtQueue.FillChain` | virtio-drivers/src/queue.rs:216-234 | The buffers go into the first free descriptors in order, each shared at a fresh address of its own. |
| `Virtqueue.VirtQueue.AddDirect` | virtio-drivers/src/queue.rs:211-245 | The first free descriptors become the new chain, readable by the device; all else stays. |
| `Virtqueue.VirtQueue.SetEntry` | virtio-drivers/src/queue.rs:258-266 | One buffer is shared at a fresh address and goes into its entry of the indirect table, linked to the next. |
| `Virtqueue.VirtQueue.FillIndirect` | virtio-drivers/src/queue.rs:256-271 | The table holds the buffers linked in order and ended, each shared at a fresh address. |
| `Virtqueue.VirtQueue.AddIndirect` | virtio-drivers/src/queue.rs:248-295 | One free descriptor points to a shared table of the buffers; all else stays. |
| `Virtqueue.VirtQueue.AddChain` | virtio-drivers/src/queue.rs:180-187 | Either encoding yields a chain the device reads as the same buffer list. |
| `Virtqueue.VirtQueue.PublishHead` | virtio-drivers/src/queue.rs:189-206 | The head enters the available ring and the ring invariant is kept. |
| `Virtqueue.VirtQueue.Add` | virtio-drivers/src/queue.rs:157-209 | Succeeds if and only if 1 <= buffers <= `available_desc`, with the exact error otherwise and nothing changed; on success the returned head is new, exactly one chain is added, and a device that follows it reads inputs then outputs. |
| `Virtqueue.VirtQueue.AddFitting` | virtio-drivers/src/queue.rs:180-209 | A request that fits is encoded, published under a new head and readable by the device, and both invariants are kept. |
| `Virtqueue.VirtQueue.ReleaseOne` | virtio-drivers/src/queue.rs:470-488 | One descriptor is unset, unlinked and written back, and its share is given back. |
| `Virtqueue.VirtQueue.RecycleDirect` | virtio-drivers/src/queue.rs:464-494 | Neither the "shorter" nor the "longer" panic nor the empty-buffer assertion is reachable; the chain's descriptors and shares are released. |
| `Virtqueue.VirtQueue.RecycleIndirect` | virtio-drivers/src/queue.rs:426-463 | The stored list is there and has the right length; the head and all shares of the chain are released. |
| `Virtqueue.VirtQueue.UnshareIndirect` | virtio-drivers/src/queue.rs:440-461 | The list and each of its buffers is unshared exactly once, with its own address and direction. |
| `Virtqueue.VirtQueue.RecycleDescriptors` | virtio-drivers/src/queue.rs:416-495 | Exactly the chain is removed and goes to the front of the free list; the invariant is kept. |
| `Virtqueue.VirtQueue.NextUsed` | virtio-drivers/src/queue.rs:516-525 | While the device keeps to the used ring, what the driver reads is the oldest completion. |
| `Virtqueue.VirtQueue.AdvanceUsed` | virtio-drivers/src/queue.rs:536-545 | Advancing the driver's index keeps the rings exact. |
| `Virtqueue.VirtQueue.PeekUsed` | virtio-drivers/src/queue.rs:381-390 | The token of the oldest completion, present if and only if one is waiting. |
| `Virtqueue.VirtQueue.PopUsed` | virtio-drivers/src/queue.rs:506-548 | NotReady, WrongToken or success exactly as the oldest completion decides; an error changes nothing, success takes back exactly that request and reports its length. The driver invariant holds even if the device wrote nonsense. |
| `Virtqueue.VirtQueue.DeviceTake` | virtio-drivers/src/queue.rs:189-206 | A device that takes the next head sees exactly the buffers of that request. |
| `Virtqueue.VirtQueue.DeviceComplete` | virtio-drivers/src/queue.rs:789-806 | Completing held requests in any order keeps both invariants. |
| `Virtqueue.VirtQueue.DeviceScribbles` | virtio-drivers/src/queue.rs:33-67 | A device that overwrites all memory it can reach does not touch the driver's invariant. |
| `Ipi.StepKeepsInv` | kernel/src/cpu/ipi.rs:327-573 | Every atomic step of every sender and every handler, in any interleaving of N CPUs, keeps the protocol invariant. |
| `Ipi.InvAlways` | kernel/src/cpu/ipi.rs:327-573 | The invariant holds at the end of every run. |
| `Ipi.CounterExact` | kernel/src/cpu/ipi.rs:377-397 | For `Single` and `Multiple`, `pending` is at every point the flagged-not-taken plus the taken-not-acknowledged plus the increment in flight. |
| `Ipi.BoardIsExclusive` | kernel/src/cpu/ipi.rs:340-360 | A board is written only while no CPU can read it, the `pending == 0` assertion holds when a send starts, and whoever can read a board finds the message of the current send. |
| `Ipi.SendDelivers` | kernel/src/cpu/ipi.rs:459-474 | When the wait ends, each addressed CPU was invoked exactly once with this message and no other CPU was; a mutable message holds the handler's result. A broadcast addresses every other CPU that was online when its board was filled, and none that is not online. |
| `Ipi.BroadcastReaches` | kernel/src/cpu/ipi.rs:412-424 | A broadcast whose count is stored has flagged every other CPU that was online at the point of the run where its board was filled, and only CPUs that are online. |
| `Ipi.CountStored` | kernel/src/cpu/ipi.rs:426-428 | Once the count of any send is stored it is the flagged plus the held plus exactly the acknowledgements that came before the store. |
| `Ipi.NoStrandedRequest` | kernel/src/cpu/ipi.rs:441-444 | Once the interrupts are posted, a set request bit means an interrupt is pending at the target or its handler has yet to pass that word. |
| `Ipi.WaitEndsExactly` | kernel/src/cpu/ipi.rs:466-468 | The wait of any send ends exactly when all that were flagged have acknowledged and none did so before the count was stored. |
| `Ipi.QuietBroadcastExact` | kernel/src/cpu/ipi.rs:412-432 | If no target takes the flag of a broadcast before the count is stored, `pending` is from the store on exactly the flagged-not-taken plus the taken-not-acknowledged. |
| `Ipi.OvertakenNeverReturns` | kernel/src/cpu/ipi.rs:426-428 | A broadcast whose count was stored after an acknowledgement keeps `pending > 0` for ever, however the run goes on. |
| `Ipi.OvertakenHappens` | kernel/src/cpu/ipi.rs:412-428 | A concrete run of two CPUs in which a broadcast is overtaken. |
| `CpuSet.SetBitAdds` | kernel/src/cpu/cpuset.rs:26-28 | Setting the bit adds that CPU and no other. |
| `CpuSet.ClearBitRemoves` | kernel/src/cpu/cpuset.rs:33-35 | Clearing the bit removes that CPU and no other. |
| `CpuSet.FirstBitIsLeast` | kernel/src/cpu/cpuset.rs:72-74 | The lowest bit of the first non-zero word is the least CPU of the set. |
| `CpuSet.CpuSet.constructor` | kernel/src/cpu/cpuset.rs:18-21 | A new set is empty. |
| `CpuSet.CpuSet.Add` | kernel/src/cpu/cpuset.rs:26-28 | The set gains exactly that CPU. |
| `CpuSet.CpuSet.Remove` | kernel/src/cpu/cpuset.rs:33-35 | The set loses exactly that CPU. |
| `CpuSet.CpuSetIterator.constructor` | kernel/src/cpu/cpuset.rs:50-58 | All members are still to come. |
| `CpuSet.CpuSetIterator.Next` | kernel/src/cpu/cpuset.rs:60-76 | Yields the least member not yet yielded, and `None` only when none is left. |
| `CpuSet.AtomicCpuSetIterator.constructor` | kernel/src/cpu/cpuset.rs:135-143 | All members are ahead. |
| `CpuSet.AtomicCpuSetIterator.Next` | kernel/src/cpu/cpuset.rs:145-161 | Takes the least member ahead out of the set and no other, and ends only when none is ahead. |
| `CpuSet.Visit` | kernel/src/cpu/cpuset.rs:60-76 | A loop over the set visits every member exactly once, in ascending order. |
| `CpuSet.Drain` | kernel/src/cpu/cpuset.rs:145-161 | A loop over the consuming iterator yields every member exactly once and leaves the set empty. |
| `GuestIpi.PerCpuShared.constructor` | kernel/src/cpu/percpu.rs:269-280 | Nothing is requested and no flag raised. |
| `GuestIpi.PerCpuShared.RequestIpi` | kernel/src/cpu/percpu.rs:325-332 | The vector is requested and `ipi_pending` raised. |
| `GuestIpi.PerCpuShared.RequestNmi` | kernel/src/cpu/percpu.rs:334-337 | Both flags are raised. |
| `GuestIpi.PerCpuShared.SwapPending` | kernel/src/cpu/percpu.rs:339-341 | Returns the flag and lowers it. |
| `GuestIpi.PerCpuShared.SwapWord` | kernel/src/cpu/percpu.rs:343-345 | Returns one request word and zeroes that word alone. |
| `GuestIpi.PerCpuShared.SwapNmi` | kernel/src/cpu/percpu.rs:347-349 | Returns the NMI flag and lowers it. |
| `GuestIpi.StepKeepsInv` | kernel/src/cpu/apic.rs:271-296 | Every atomic access of any number of requesters and of the consumer keeps the accounting of requests. |
| `GuestIpi.RunKeepsInv` | kernel/src/cpu/apic.rs:271-296 | So does every run. |
| `GuestIpi.NoStrandedBit` | kernel/src/cpu/percpu.rs:325-349 | In any interleaving, a set request bit means `ipi_pending` is set, its requester is between its two writes, or the consumer has yet to swap that word; the NMI flag likewise. |
| `GuestIpi.NoRequestIsLost` | kernel/src/cpu/apic.rs:271-296 | Every request waits, has arrived or was served, and is exactly one of these; the local IRR and NMI flag hold exactly what has arrived and not been served; what waited when a scan began has arrived when it ends. |
| `GuestIpi.ServedFromRegisters` | kernel/src/cpu/apic.rs:271-281 | An arrived request stays so until a step takes its vector, or the NMI, out of the local registers. |
| `VectorRegister.InsertAdds` | kernel/src/cpu/apic.rs:155-157 | Setting the bit adds that vector and no other. |
| `VectorRegister.RemoveRemoves` | kernel/src/cpu/apic.rs:151-153 | Clearing the bit removes that vector and no other. |
| `VectorRegister.LastBitIsHighest` | kernel/src/cpu/apic.rs:139-149 | The highest bit of the last non-zero word is the highest vector. |
| `VectorRegister.InsertVectorRegister` | kernel/src/cpu/apic.rs:155-157 | The register gains exactly that vector. |
| `VectorRegister.RemoveVectorRegister` | kernel/src/cpu/apic.rs:151-153 | The register loses exactly that vector. |
| `VectorRegister.TestVectorRegister` | kernel/src/cpu/apic.rs:159-161 | Tells membership. |
| `ApicModel.DepthBound` | kernel/src/cpu/apic.rs:355-357 | Vectors of strictly rising priority class, none of class 0, number at most 15: the stack cannot overflow. |
| `ApicModel.RewindsKeepInv` | kernel/src/cpu/apic.rs:176-196 | Rewinding undelivered vectors loses none, and its assertions hold. |
| `ApicModel.EoiKeepsInv` | kernel/src/cpu/apic.rs:396-420 | An EOI takes exactly the newest vector out of service and keeps the requests. |
| `ApicModel.LazyEoiIsForTop` | kernel/src/cpu/apic.rs:198-217 | A lazy EOI that is taken is for the vector it was set up for: that vector is still the newest in service, and the rewinds have left it there. |
| `ApicModel.CheckedKeepsInv` | kernel/src/cpu/apic.rs:171-218 | Checking keeps all vectors unless a lazy EOI is taken, which removes exactly the vector it was set up for. |
| `ApicModel.AcceptedKeepsInv` | kernel/src/cpu/apic.rs:331-385 | Putting the highest requested vector in service loses none and keeps the invariant, including that a queued vector has a lazy EOI only when it is alone. |
| `ApicModel.ChosenKeepsInv` | kernel/src/cpu/apic.rs:302-385 | A pass moves at most one vector into service and strands none of a higher class. |
| `ApicModel.PresentedKeepsInv` | kernel/src/cpu/apic.rs:298-387 | After a pass none is due, and the vectors requested or in service are the same but for a lazy EOI. |
| `ApicModel.ConsumedKeepsInv` | kernel/src/cpu/apic.rs:289-296 | Taking over host vectors and requests of other CPUs keeps the invariant. |
| `ApicModel.ConsumedAdds` | kernel/src/cpu/apic.rs:271-296 | It adds exactly the allowed host vectors and the requested ones. |
| `ApicModel.StepKeepsInv` | kernel/src/cpu/apic.rs:283-449 | Every step the guest, the host or another CPU can cause keeps the invariant. |
| `ApicModel.EveryRunIsSafe` | kernel/src/cpu/apic.rs:163-449 | On every run from a fresh APIC the in-service stack rises strictly in priority class and every access to it is in bounds, at most one of delivered and queued is set, `host_tmr` is within `tmr` and within requested or in service, and while no update is required nothing deliverable waits. |
| `ApicModel.StepConserves` | kernel/src/cpu/apic.rs:271-449 | Nothing appears but what was requested and nothing goes but what was acknowledged, at every step. |
| `ApicModel.NoVectorIsLost` | kernel/src/cpu/apic.rs:163-449 | On every run a vector requested or in service stays so until it is acknowledged. |
| `ApicModel.StepKeepsNmi` | kernel/src/cpu/apic.rs:304-308 | After any step an NMI waits or is injected exactly when one was posted, or one waited or was injected and the guest did not take it. |
| `ApicModel.PresentedKeepsNmi` | kernel/src/cpu/apic.rs:304-308 | After a pass that was due, the NMI is the injected event exactly when one was waiting or already injected. |
| `ApicModel.NoNmiIsLost` | kernel/src/cpu/apic.rs:271-308 | On every run an NMI that was posted stays waiting or injected until the guest takes it. |
| `ApicModel.EoiSettles` | kernel/src/cpu/apic.rs:403-414 | An EOI of a vector in `host_tmr` acknowledges it to the host once and removes it there; any other acknowledges nothing. |
| `ApicModel.StepSettles` | kernel/src/cpu/apic.rs:396-420 | In every step the vectors owed to the host split exactly into those still in `host_tmr` and those newly acknowledged, each once. |
| `ApicModel.NoHostEoiIsLost` | kernel/src/cpu/apic.rs:396-420 | On every run a vector in `host_tmr` stays there until it is acknowledged to the host. |
| `ApicModel.PprExact` | kernel/src/cpu/apic.rs:220-231 | The priority read back has the class of the higher of TPR and the vector in service if and only if none is in service, the slot above it holds the same class, or TPR covers both. |
| `ApicModel.PprMissesTop` | kernel/src/cpu/apic.rs:220-231 | A concrete run after which the vector in service does not show in the priority. |
| `Apic.Vmsa.GetTpr` | kernel/src/sev/vmsa.rs:123-129 | The 8-bit TPR of the stored class. |
| `Apic.Vmsa.SetTpr` | kernel/src/sev/vmsa.rs:131-134 | Only the TPR class changes. |
| `Apic.Vmsa.RequestNmi` | kernel/src/sev/vmsa.rs:136-140 | The injected event is the NMI. |
| `Apic.Vmsa.QueueInterrupt` | kernel/src/sev/vmsa.rs:142-150 | The vector is queued as the virtual interrupt. |
| `Apic.Vmsa.TryDeliverInterruptImmediately` | kernel/src/sev/vmsa.rs:152-166 | Succeeds if and only if no event is injected, and then injects the vector. |
| `Apic.Vmsa.CheckAndClearPendingInterruptEvent` | kernel/src/sev/vmsa.rs:189-199 | Returns 0 or the injected vector, which it withdraws. |
| `Apic.Vmsa.CheckAndClearPendingVirtualInterrupt` | kernel/src/sev/vmsa.rs:201-212 | Returns 0 or the queued vector, which it withdraws. |
| `Apic.Vmsa.CheckAndClearPendingNmi` | kernel/src/sev/vmsa.rs:177-187 | Tells whether an NMI was injected, and withdraws it. |
| `Apic.LocalApic.constructor` | kernel/src/cpu/apic.rs:122-137 | All registers empty, nothing in service, nothing due. |
| `Apic.LocalApic.ScanIrr` | kernel/src/cpu/apic.rs:139-149 | The highest requested vector, or 0. |
| `Apic.LocalApic.RewindPendingInterrupt` | kernel/src/cpu/apic.rs:163-169 | The newest vector in service becomes a request again. |
| `Apic.LocalApic.PerformEoi` | kernel/src/cpu/apic.rs:396-420 | The newest vector leaves service; a host vector that was level-triggered is acknowledged to the host once. |
| `Apic.LocalApic.CheckDelivered` | kernel/src/cpu/apic.rs:176-185 | Refines the rewind of an injected vector. |
| `Apic.LocalApic.CheckQueued` | kernel/src/cpu/apic.rs:187-196 | Refines the rewind of a queued vector. |
| `Apic.LocalApic.CheckLazyEoi` | kernel/src/cpu/apic.rs:198-217 | Performs the EOI just when the guest asked for it; the assertion in it holds. |
| `Apic.LocalApic.CheckDeliveredInterrupts` | kernel/src/cpu/apic.rs:171-218 | Refines the check: rewinds, then the lazy EOI. |
| `Apic.LocalApic.GetPprWithTpr` | kernel/src/cpu/apic.rs:220-231 | Reads the slot above the stack top, in bounds. |
| `Apic.LocalApic.DeliverInterruptImmediately` | kernel/src/cpu/apic.rs:256-269 | Injects if and only if interrupts are enabled, not shadowed, the class exceeds the priority, and nothing is injected yet. |
| `Apic.LocalApic.PostInterrupt` | kernel/src/cpu/apic.rs:432-440 | The vector is requested, level-triggered if so asked, and a pass is due. |
| `Apic.LocalApic.ConfigureVector` | kernel/src/cpu/apic.rs:674-682 | Exactly that vector becomes allowed or forbidden. |
| `Apic.LocalApic.SignalOneHostInterrupt` | kernel/src/cpu/apic.rs:684-693 | Posted if and only if allowed. |
| `Apic.LocalApic.SignalSeveralInterrupts` | kernel/src/cpu/apic.rs:695-702 | Exactly the vectors of the bits are posted. |
| `Apic.LocalApic.ConsumeHostInterrupts` | kernel/src/cpu/apic.rs:704-785 | What the host presented and is allowed gets posted, level-triggered vectors with their EOI owed to the host. |
| `Apic.LocalApic.SignalMultiple` | kernel/src/cpu/apic.rs:740-765 | Vector 31 and the words 1 to 7 are posted as far as allowed. |
| `Apic.LocalApic.TakeRequestWords` | kernel/src/cpu/apic.rs:274-276 | Every requested vector moves into the local IRR, and the request words are left empty. |
| `Apic.LocalApic.ConsumePendingIpis` | kernel/src/cpu/apic.rs:271-281 | All requested vectors and the NMI move over, and none is left behind. |
| `Apic.LocalApic.Inject` | kernel/src/cpu/apic.rs:331-350 | Injected or queued, and a lazy EOI is attempted only where it cannot be mistaken. |
| `Apic.LocalApic.EnterService` | kernel/src/cpu/apic.rs:352-357 | The vector leaves the requests and becomes the newest in service. |
| `Apic.LocalApic.Accept` | kernel/src/cpu/apic.rs:331-385 | Refines accepting the highest requested vector. |
| `Apic.LocalApic.SetUpLazyEoi` | kernel/src/cpu/apic.rs:359-385 | A lazy EOI is set up if and only if the vector is edge-triggered, nothing else is requested and the calling area can be updated. |
| `Apic.LocalApic.PresentNmi` | kernel/src/cpu/apic.rs:304-308 | A pending NMI is injected first. |
| `Apic.LocalApic.ChooseVector` | kernel/src/cpu/apic.rs:310-385 | A vector is accepted if and only if it outranks the one in service; the guest's flag ends up set exactly when a lazy EOI is pending. |
| `Apic.LocalApic.Choose` | kernel/src/cpu/apic.rs:302-385 | Refines the part of a pass that follows the checks. |
| `Apic.LocalApic.ConsumeRequests` | kernel/src/cpu/apic.rs:289-296 | Refines taking over what host and other CPUs requested. |
| `Apic.LocalApic.Deliver` | kernel/src/cpu/apic.rs:298-387 | Refines one pass. |
| `Apic.LocalApic.PresentInterrupts` | kernel/src/cpu/apic.rs:283-387 | Refines the whole operation on the bit registers; afterwards no pass is due and the run invariant holds. |
| `Apic.LocalApic.GetIsr` | kernel/src/cpu/apic.rs:422-430 | The word holds exactly the vectors of its group that are in service. |
| `Apic.LocalApic.ReadVectorRegister` | kernel/src/cpu/apic.rs:597-610 | IRR, ISR and TMR words show exactly their vectors. |
| `Apic.LocalApic.ReadRegister` | kernel/src/cpu/apic.rs:583-615 | Rewinds first, then reads; an error for exactly the other registers. |
| `Apic.LocalApic.WriteRegister` | kernel/src/cpu/apic.rs:642-672 | Each write takes its step of the run, an error for exactly the other registers and values, and any error still performs the check. |
| `Apic.LocalApic.ApplyWrite` | kernel/src/cpu/apic.rs:653-671 | What a write does once deliveries are checked, register by register. |
| `Apic.LocalApic.WriteIcr` | kernel/src/cpu/apic.rs:621-638 | An accepted ICR value posts a vector or an NMI here exactly when it addresses this CPU; a refused one changes nothing. |
| `Apic.LocalApic.HandoffIrr` | kernel/src/cpu/apic.rs:823-825 | The host's request words 1 to 7 gain exactly the requested vectors. |
| `Apic.LocalApic.HandoffIsr` | kernel/src/cpu/apic.rs:827-837 | The host's in-service register is exactly the vectors in service. |
| `Apic.LocalApic.HandoffToHost` | kernel/src/cpu/apic.rs:787-838 | Both of these. |
| `Apic.ClearGuestEoiPending` | kernel/src/cpu/apic.rs:237-250 | The guest's flag is cleared just when the calling area can be read and written. |
| `Pages.MasksAlign` | boot/bootimg/src/page_tables.rs:24-48 | The masks the builder computes with are the alignments they stand for. |
| `Pages.RoundToPages` | boot/bootimg/src/page_tables.rs:35-37 | The least number of pages that hold the bytes. |
| `Pages.RoundToLargePages` | boot/bootimg/src/page_tables.rs:42-44 | The least number of 2 MB pages that hold the bytes. |
| `Pages.AlignUp2M` | boot/bootimg/src/page_tables.rs:46-48 | The least 2 MB boundary not below the address. |
| `PageTables.PteDecodes` | boot/bootimg/src/page_tables.rs:69-92 | The processor reads an entry back as present, with the address and rights it was made from. |
| `PageTables.LayoutValid` | boot/bootimg/src/page_tables.rs:254-275 | The layout fits if and only if its last directory index does, whatever the alignment of the kernel base. |
| `PageTables.LeafTablesMeetDirectMap` | boot/bootimg/src/page_tables.rs:259-272 | The leaf tables end exactly where the direct map starts. |
| `PageTables.WalkReachesDirectory` | boot/bootimg/src/page_tables.rs:295-311 | Below the two upper levels there is one page directory for the whole span. |
| `PageTables.DirectMapWalk` | boot/bootimg/src/page_tables.rs:323-331 | Every direct-map address walks to the region start plus its offset, writable and not executable at every level of the walk. |
| `PageTables.SpanWalk` | boot/bootimg/src/page_tables.rs:313-321 | A walk in the kernel span ends at the leaf entry counted from the 2 MB boundary below the kernel base. |
| `PageTables.EntryOfCovered` | boot/bootimg/src/page_tables.rs:213-226 | A page that one of several disjoint ranges covers has that range's entry. |
| `PageTables.EntryOfUncovered` | boot/bootimg/src/page_tables.rs:99-120 | A page that no range covers has an absent entry. |
| `PageTables.MappedWalk` | boot/bootimg/src/page_tables.rs:193-226 | A walk finds the physical page of the range mapped over the leaf entry it ends at, and the rights left by all four levels are those of that range. |
| `PageTables.UnmappedWalk` | boot/bootimg/src/page_tables.rs:193-226 | A walk that ends at a leaf entry no range covers is a page fault. |
| `PageTables.MapsRightExactly` | boot/bootimg/src/page_tables.rs:205-211 | All mapped ranges are reachable at their own addresses if and only if the kernel base lies in the first 4 KB of a 2 MB page. |
| `PageTables.Unreachable` | boot/bootimg/src/page_tables.rs:205-211 | With any other base the highest mapped page faults. |
| `PageTables.MisalignedBaseFails` | boot/bootimg/src/page_tables.rs:205-211 | A concrete layout, one page above a 2 MB boundary, whose mapped page faults. |
| `BootHeap.Image.AddPageData` | boot/bootimg/src/defs.rs:69-74 | A piece is emitted, or the host's error is reported and nothing is. |
| `BootHeap.KernelPageHeap.constructor` | boot/bootimg/src/heap.rs:24-31 | Nothing is allocated yet. |
| `BootHeap.KernelPageHeap.AllocatePages` | boot/bootimg/src/heap.rs:44-55 | Succeeds if and only if enough pages are left, and then hands out exactly the next ones, at matching physical and virtual offsets. |
| `KernelTables.KernelPageTables.constructor` | boot/bootimg/src/page_tables.rs:283-284 | All leaf entries absent, no range mapped. |
| `KernelTables.KernelPageTables.MapRange` | boot/bootimg/src/page_tables.rs:193-226 | Succeeds if and only if all pages lie in the kernel span, and then the entries hold exactly one more range. |
| `KernelTables.KernelPageTables.AddToImage` | boot/bootimg/src/page_tables.rs:228-238 | The leaf entries are emitted behind the upper tables. |
| `KernelTables.FillDirectory` | boot/bootimg/src/page_tables.rs:313-331 | The directory holds first the leaf tables, then the large pages, and nothing else. |
| `KernelTables.EmitUpperTables` | boot/bootimg/src/page_tables.rs:286-332 | The three upper tables as the walks need them; a kernel in the self-map slot is refused. |
| `KernelTables.SetupTables` | boot/bootimg/src/page_tables.rs:273-345 | As `SetupKernelPageTables`, for a layout already computed. |
| `KernelTables.SetupKernelPageTables` | boot/bootimg/src/page_tables.rs:241-345 | Too large a span and the self-map conflict are refused; otherwise the upper tables are emitted and the pages for the leaf tables reserved. |
| `PageCursor.SheetsReadBack` | boot/bootimg/src/symbols.rs:94-127 | Reading the emitted pages in order gives the written bytes back. |
| `PageCursor.SheetsLayout` | boot/bootimg/src/symbols.rs:94-127 | Page k is the k-th consecutive page and holds the k-th 4 KB; all but the last are full. |
| `PageCursor.SheetsAppend` | boot/bootimg/src/symbols.rs:110-115 | A page flushed behind full pages continues the same stream. |
| `PageCursor.PageCursor.constructor` | boot/bootimg/src/symbols.rs:84-92 | Nothing written and nothing allocated. |
| `PageCursor.PageCursor.Flush` | boot/bootimg/src/symbols.rs:94-127 | The buffer goes to the next page, and a partial page closes the cursor. |
| `PageCursor.PageCursor.Write` | boot/bootimg/src/symbols.rs:131-152 | All bytes of any length are taken in order, the loop ends, and the cursor stays open. |
| `PageCursor.AllocateAndAddPages` | boot/bootimg/src/heap.rs:59-71 | The data is emitted on the next pages and the span is exactly the data. |
| `PageCursor.AllocateKernelSymbols` | boot/bootimg/src/symbols.rs:39-66 | The bytes of the first span are the concatenation of all records, on consecutive pages; the string table follows. |
| `BootImage.IndexGivesImage` | elf/src/file.rs:605-620 | A sorted segment index and the rounded-down base give an image the builder accepts. |
| `BootImage.GetElfSizes` | boot/bootimg/src/elf.rs:26-42 | The span and the pages that the segments take one after the other. |
| `BootImage.SegmentInSpan` | boot/bootimg/src/elf.rs:54-57 | The pages of a segment lie within the pages of the span. |
| `BootImage.SegmentMappable` | boot/bootimg/src/elf.rs:77-78 | Mapping an aligned segment cannot fail. |
| `BootImage.LoadElfSegment` | boot/bootimg/src/elf.rs:45-85 | An unaligned segment is refused; otherwise it is mapped with the rights of its flags and emitted at its pages. |
| `BootImage.LoadKernelElf` | boot/bootimg/src/elf.rs:88-113 | Segments are loaded back to back, and the assertion that the memory used equals the memory set aside never fails. |
| `BootImage.CreateKernelHeap` | boot/bootimg/src/heap.rs:78-99 | The heap is exactly what the kernel leaves of the region. |
| `BootImage.MapStackAndIdt` | boot/bootimg/src/lib.rs:105-120 | Stack behind a guard page, IDT behind the stack; mapping them cannot fail. |
| `BootImage.MapHeapPages` | boot/bootimg/src/lib.rs:107-114 | Pages handed out by the heap are mapped where asked. |
| `BootImage.AddParams` | boot/bootimg/src/lib.rs:122-138 | The parameter block is emitted at the area allocated for it, and one page each is set aside for CPUID and secrets. |
| `BootImage.AddSymbols` | boot/bootimg/src/lib.rs:140-141 | The symbol tables follow, if there are any. |
| `BootImage.AddData` | boot/bootimg/src/lib.rs:122-141 | Both of these. |
| `BootImage.Finish` | boot/bootimg/src/lib.rs:143-198 | Leaf tables, launch information and stack are emitted where planned. |
| `BootImage.SetUp` | boot/bootimg/src/lib.rs:46-94 | Sizes, heap and upper tables are those planned. |
| `BootImage.LoadKernel` | boot/bootimg/src/lib.rs:96-103 | The kernel is loaded at the start of the region. |
| `BootImage.PrepareBootImage` | boot/bootimg/src/lib.rs:35-218 | A successful build emits exactly the planned pieces inside the region, with tables that the walks are proved for; the pieces are disjoint and clear of the IDT, CPUID and secrets pages if and only if the parameter area holds the parameter block. |
| `BootImage.EmissionsApart` | boot/bootimg/src/lib.rs:57-198 | With such an area, all emitted pages are pairwise disjoint, inside the region and clear of the reserved pages. |
| `BootImage.ParamsOverrun` | boot/bootimg/src/lib.rs:122-138 | With a smaller area the parameter block runs into the CPUID page. |
| `BootImage.ParamsOverrunHappens` | boot/bootimg/src/lib.rs:122-138 | A concrete image and parameter block for which it does. |
| `BootImage.UndisturbedExactly` | boot/bootimg/src/lib.rs:122-138 | The area's size decides it, both ways. |
| `BootImage.RangesLaidOut` | boot/bootimg/src/lib.rs:105-120 | Kernel, stack and IDT ranges never overlap and none covers the guard page. |
| `BootImage.SegmentRangesAscend` | boot/bootimg/src/elf.rs:101-109 | The kernel's page ranges ascend and end with the image. |
| `BootImage.TablesFinished` | boot/bootimg/src/lib.rs:143-145 | The finished tables have the form the walk theorems need. |
| `BootImage.SegmentWalk` | boot/bootimg/src/lib.rs:96-103 | With a 2 MB-aligned base, every address of every segment walks to where the segment was loaded, executable and not writable, writable, or neither, as its flags say, counting every level of the walk. |
| `BootImage.StackWalk` | boot/bootimg/src/lib.rs:105-120 | Likewise every stack and IDT address, as writable data. |
| `BootImage.GuardPageAbsent` | boot/bootimg/src/lib.rs:105-108 | Likewise the guard page faults. |
| `Elf.PartialCmpExact` | elf/src/addr_range.rs:132-144 | Non-empty ranges are unordered or equal if and only if they overlap. |
| `Elf.LoadSegments.constructor` | elf/src/load_segments.rs:33-37 | The index starts out empty. |
| `Elf.LoadSegments.FindFirstNotBefore` | elf/src/load_segments.rs:48-58 | The binary search finds the split between the segments before the range and the rest. |
| `Elf.LoadSegments.TryInsert` | elf/src/load_segments.rs:72-94 | Fails if and only if the range overlaps a segment, and then changes nothing; otherwise the segment is inserted and the index stays sorted and disjoint. |
| `Elf.LoadSegments.LookupVaddrRange` | elf/src/load_segments.rs:105-115 | For every non-empty range, exactly what a linear containment search returns. |
| `Elf.LoadSegments.TotalVaddrRange` | elf/src/load_segments.rs:123-128 | The hull of the index. |
| `Elf.TotalIsHull` | elf/src/load_segments.rs:123-128 | A range contains every segment if and only if it contains the total. |
| `Elf.LookupAgrees` | elf/src/load_segments.rs:105-115 | The indexed search agrees with the linear one for every sorted index and non-empty range. |
| `Elf.EmptyLookupExact` | elf/src/load_segments.rs:105-115 | For an empty range they agree if and only if no segment ends there. |
| `Elf.EmptyLookupDiffers` | elf/src/load_segments.rs:105-115 | A concrete index and empty range on which they differ. |
| `Elf.PowerOfTwoExact` | elf/src/program_header.rs:116 | The test accepts exactly the powers of two. |
| `Elf.ReadHeader` | elf/src/file.rs:86-103 | Fails if and only if the headers so far are not acceptable with this one. |
| `Elf.AddLoad` | elf/src/file.rs:88-96 | Fails if and only if the new load range meets an earlier one. |
| `Elf.ReadHeaders` | elf/src/file.rs:81-103 | Succeeds if and only if every header verifies, the load ranges are disjoint and there is one dynamic header at most; then the index is sorted, stands for exactly the load headers, and the largest alignment is found. |
| `Elf.LookupFindsHeader` | elf/src/file.rs:480-483 | A lookup finds the one load header that maps a non-empty range, if there is one. |
| `Elf.MapVaddrToFileOff` | elf/src/file.rs:468-519 | With an end, a non-empty range succeeds if and only if one header maps it and the file backs it, and the result lies in the file; without an end the result runs to the end of the segment's file contents. |
| `Elf.OpenEndedExact` | elf/src/file.rs:508-513 | Without an end the result is a proper range if and only if the address is not past the file contents. |
| `Elf.OpenEndedInverted` | elf/src/file.rs:508-513 | A concrete header that verifies and gives an inverted range. |
| `Elf.LoadBaseMultiple` | elf/src/file.rs:560-603 | At every load address the load base is a multiple of the largest alignment. |
| `Elf.LoadBaseAligned` | elf/src/file.rs:560-603 | So it is 0 modulo every smaller power-of-two alignment. |
| `Elf.EverySegmentStaysAligned` | elf/src/file.rs:596-603 | For every image that was read, the load base is 0 modulo the alignment of each segment. |
| `Elf.ShiftKeepsCongruence` | elf/src/program_header.rs:115-123 | So a shifted segment address stays congruent to its file offset. |
| `Elf.LoadBaseAtAllocation` | elf/src/file.rs:605-610 | At the allocated base nothing moves. |
| `Elf.AllocBaseKeepsAlignment` | elf/src/file.rs:605-610 | A page-aligned first segment gives a page-aligned base. |
| `Relocation.WrapIsMod` | elf/src/relocation.rs:192-197 | Two's complement reduction is reduction modulo 2^64. |
| `Relocation.StoredBytes` | elf/src/relocation.rs:228 | The first n little-endian bytes hold the value modulo 256^n. |
| `Relocation.FieldIsFormula` | elf/src/relocation.rs:186-234 | Every field written is the formula of section 4.4.1 of the System V AMD64 psABI (S + A, S + A - P or B + A), cut to the field's width. |
| `Relocation.PcRelativeStays` | elf/src/relocation.rs:203-224 | Against a symbol that moves with the image, a PC-relative field is the same at every load base. |
| `Relocation.AbsoluteShifts` | elf/src/relocation.rs:199-219 | Against such a symbol, every other field moves by exactly the load base. |
| `Relocation.AbsoluteSymbolStays` | elf/src/relocation.rs:333-335 | Against an absolute symbol, an absolute field does not move. |
| `Relocation.AbsoluteSymbolShifts` | elf/src/relocation.rs:333-335 | Against an absolute symbol, a PC-relative field moves back by the load base. |
| `Relocation.AppliedRelaIterator.constructor` | elf/src/relocation.rs:268-283 | Starts at the first entry. |
| `Relocation.AppliedRelaIterator.ResolveSymbol` | elf/src/relocation.rs:319-344 | The symbol's value, with the index just past the table told apart because the read is out of bounds there. |
| `Relocation.AppliedRelaIterator.Next` | elf/src/relocation.rs:301-376 | Steps through all entries in order; an operation is yielded if and only if the type is known, the symbol defined and the destination inside one load segment. |
| `Relocation.ReadPastSymbols` | elf/src/syms.rs:148-156 | A concrete table for which an index passes the bounds check and is read out of bounds. |
| `Relocation.FoundIsContained` | elf/src/relocation.rs:355-373 | A destination that is found lies in a load segment. |
| `Relocation.WritesIntoSegment` | elf/src/relocation.rs:355-373 | Every byte a yielded operation writes is the shifted image of an address of that segment. |
| `IrqState.HighestIsHighest` | kernel/src/cpu/irq_state.rs:281-290 | The downward scan finds the highest level still required. |
| `IrqState.LoweredIsReached` | kernel/src/cpu/irq_state.rs:270-272 | The assertion of `lower_tpr` holds on every legal run. |
| `IrqState.LevelStepKeepsInv` | kernel/src/cpu/irq_state.rs:253-291 | Each legal raise or lower keeps the priority at the highest level still required. |
| `IrqState.PriorityIsHighest` | kernel/src/cpu/irq_state.rs:253-291 | So does every legal sequence, lowers out of order included. |
| `IrqState.NestingRestores` | kernel/src/cpu/irq_state.rs:167-223 | Any nesting keeps interrupts off inside and restores the original flag outside. |
| `IrqState.IrqState.constructor` | kernel/src/cpu/irq_state.rs:145-150 | Nothing is nested and nothing raised. |
| `IrqState.IrqState.PushNesting` | kernel/src/cpu/irq_state.rs:167-176 | The depth grows by one and the outermost call records the flag. |
| `IrqState.IrqState.Disable` | kernel/src/cpu/irq_state.rs:183-189 | Interrupts are off, and the flag found is recorded at depth 0. |
| `IrqState.IrqState.PopNesting` | kernel/src/cpu/irq_state.rs:200-208 | The depth shrinks by one. |
| `IrqState.IrqState.Enable` | kernel/src/cpu/irq_state.rs:216-223 | The recorded flag is restored exactly at depth 0. |
| `IrqState.IrqState.RaiseTpr` | kernel/src/cpu/irq_state.rs:253-260 | Refines a raise on the counts. |
| `IrqState.IrqState.LowerTpr` | kernel/src/cpu/irq_state.rs:270-291 | Refines a lower: the priority falls to the next level still required, and only when the current one no longer is. |
| `TempMaps.PteLeadsToPage` | boot/bldr/src/temp_maps.rs:62-67 | A window entry is present, and leads to the page it was made for if and only if the mask shares no bit with the address. |
| `TempMaps.FreshSlotExact` | boot/bldr/src/temp_maps.rs:25-38 | Before its first use a stale entry can be cached for a slot if and only if the slot holds a present entry, so a window must start out not present. |
| `TempMaps.TempMappings.constructor` | boot/bldr/src/temp_maps.rs:25-38 | Nothing is mapped and nothing cached. |
| `TempMaps.TempMappings.Speculate` | boot/bldr/src/temp_maps.rs:47-60 | Whatever the processor caches of present entries at any time keeps the window consistent. |
| `TempMaps.TempMappings.MapPage` | boot/bldr/src/temp_maps.rs:43-80 | The slot handed out has no entry cached, so accesses through it reach the page asked for, unless the mask shares a bit with the address. |
| `TempMaps.TempMappings.Release` | boot/bldr/src/temp_maps.rs:105-110 | The entry is gone, though it may stay cached until the flush. |
| `TempMaps.MaskEntry` | boot/bldr/src/main.rs:238-242 | One entry is masked if present, and nothing else changes. |
| `TempMaps.MaskPage` | boot/bldr/src/main.rs:233-242 | The page behind the slot is masked, whatever is cached in between. |
| `TempMaps.MaskTable` | boot/bldr/src/main.rs:229-244 | One table page is mapped, masked and released, whatever is cached in between. |
| `TempMaps.OneMoreTable` | boot/bldr/src/main.rs:228-245 | One more page masked extends what was done. |
| `TempMaps.UpdateKernelPageTables` | boot/bldr/src/main.rs:221-246 | For any page count, every present entry of every kernel table page has the mask and all other memory is unchanged. |

## Left out

- Weak memory ordering: every atomic access is one sequentially consistent step.
- Virtqueue memory layout (`VirtQueueLayout`), DMA allocation and buffer contents: `share` returns any address not in use, and DMA success is an input of `Virtqueue.New`.
- Virtqueue notification (`should_notify`, `set_dev_notify`, `add_notify_wait_pop`) and the owning queue: no claim about when the device is notified.
- Virtqueue.VirtQueue.Add: buffers must not be empty and must be shorter than 4 GB, as the documentation of `add` and the conversion of the length demand; `add_indirect` itself takes an empty buffer, and the assertion in `recycle_descriptors` then fails.
- Virtqueue.VirtQueue.AddIndirect: likewise, buffers must not be empty.
- Virtqueue.VirtQueue.PopUsed: the buffers passed in must be those of the token, as the source's safety contract demands.
- Ipi.StepKeepsInv: `pending` is an unbounded integer, so the transient underflow of an overtaken broadcast is negative and does not wrap; `ipi_available`, TPR raising and failures of the interrupt post are not modelled.
- CpuSet.AtomicCpuSetIterator.Next: the load and the `fetch_and` are one step here; they are two steps in `Ipi`.
- CpuSet.Drain: concurrent additions while the consuming iterator runs are covered by the steps of `Ipi`, not by the class.
- Apic.LocalApic.ConsumeHostInterrupts: what the host presents in one pass is an arbitrary input; a compare-exchange that fails is a pass that presents nothing.
- Apic.LocalApic.WriteRegister: what an ICR value means for the CPU that writes it is an input; destination matching, requests to other CPUs and the host notification are not modelled.
- Apic.LocalApic.HandoffToHost: the status word (NMI flag, vector 31, pending vector) and the rest of `disable_apic_emulation` are not modelled; request words 1 to 7 and the in-service register are.
- Apic.Vmsa.QueueInterrupt: the priority and ignore-TPR fields of the virtual interrupt control are not modelled.
- Boot image addresses are mathematical: 64-bit overflow of region and span arithmetic is not modelled, and physical addresses are taken to be at most 52 bits.
- Boot image launch information and boot parameters are taken as encoded blocks of bytes; relocations applied to the loaded kernel and the entry point are not part of the builder model.
- BootImage.PrepareBootImage: the kernel region must be 2 MB-aligned, as the assertion on large-page entries demands.
- BootImage.LoadKernelElf: relocations of the loaded kernel and its entry point are not modelled.
- KernelTables.SetupKernelPageTables: the direct map must start on a 2 MB boundary, as its only caller computes it.
- KernelTables.SetupTables: likewise, the direct map must start on a 2 MB boundary.
- BootHeap.Image.AddPageData: the host callback fails after an arbitrary number of pieces; what it does with the bytes is not modelled.
- The self-map slot of the root table is written and its conflict refused, but walks through it are not stated.
- ELF header, section header, string table and `.dynamic` parsing: parsed program headers, symbols and relocation entries are the inputs.
- Elf.MapVaddrToFileOff: a range whose end lies before its start is excluded, since the source subtracts the two.
- IrqState.IrqState.RaiseTpr: counts are unbounded, so 32-bit overflow of a nesting count is not modelled; neither are `set_restore_state`, raw enables and the guards.
- TempMaps.TempMappings.constructor: the entries of the window must start out not present; otherwise one can be cached (`TempMaps.FreshSlotExact`).
- TempMaps.UpdateKernelPageTables: the same, and the confidentiality mask must not share a bit with the addresses of the table pages.
- Attestation, cryptography, console, debugger, file systems, task switching, memory validation and build scripts.
