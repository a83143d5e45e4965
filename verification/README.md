# coconutOS: a machine-checked model

coconutOS is a small x86-64 supervisor. It runs up to eight user programs, called shards, each in its own
address space, and gives them message channels, capabilities, a read-only file system and partitions of GPU
memory. Two of the shards run one language model together, split by layers over a channel.

This project models the parts of it that carry state and proves what they promise. Code that changes things in
place is a class or a method with loops, proved against a function or an invariant. The results below hold for
every input, every run or every interleaving; nothing is bounded.

| file | what it models |
|---|---|
| Bitmap, Pmm, Frames | the two physical allocators |
| PageTables, Spaces, ShardSpaces, Elf, ElfImage, Loader, Teardown, FrameZero, ShardMemory | page tables, reading ELF files, and creating, growing and destroying address spaces |
| Kernel, KernelCalls, KernelRuns, KernelBoot, Fairness, Supervisor | scheduler, channels, capabilities and pledges, as a state machine and as code that refines it |
| Transformer, Inference, Recompute, LayerLaws, Pipeline, PipelineKernel | the forward pass, the sequential token loop, the network without caches, the two-stage pipeline, and the pipeline in the kernel |
| Ext2Image, Ext2, RootFs, FileTable | the image writer, the parser, their round trip, and the open-file table |
| Gpu, GpuBoot, Vram | partitions, windows and copies; copies under the capabilities of the kernel; the allocator inside a partition |
| Bytes, Buffers | little-endian fields |

Main results, hardest first:

* **Pipeline.** Under every interleaving of the two stages, for every model, split and token count, both stages
  have emitted a prefix of what sequential inference emits, no message is overwritten unread, the stages are
  never both blocked, every run is bounded, and a run that cannot continue has all tokens
  (`Pipeline.TokensAreSequential`, `NothingIsOverwritten`, `NeverBothBlocked`, `BothFinish`). Every run of the
  kernel from boot whose stage shards follow their programs is such an interleaving, whatever the scheduler and
  all other shards do; when the kernel stops, even in a panic over other shards, both stages have all tokens
  (`PipelineKernel.StagesInKernel`). This needs an activation to fit one 256-byte message; for every larger size
  there is a model whose stage 1 emits a wrong token (`OversizedActivationsGoWrong`).
* **Forward pass.** The tokens of sequential inference are those of the network as it is written down, without
  caches: each is the first largest choice after the text before it, recomputed from scratch for every position
  and layer, float by float from the flat weight tables (`Recompute.TokensAreRecomputed`). One layer agrees with
  its formula on every input and cache (`Recompute.LayerAgrees`), and does what is known of it where parts are
  switched off (`LayerLaws`).
* **Memory.** Every frame of RAM is always in the pool, or has exactly one role in exactly one shard, or is the
  supervisor's. `ShardMemory.Memory.Serve` takes any sequence of creations, requests for memory, mappings, exits
  and destructions of any shards, and finds the pool whole whenever no shard is left. In between the tables are a
  forest, `map_4k` changes one translation, no page is writable and executable, no frame of RAM is mapped twice,
  and every accepted system call buffer is mapped. A granted request for memory makes exactly its addresses data,
  so that every buffer in them is accepted from then on. What a loaded page holds and permits is read off the
  ELF file, and reading a written ELF file returns the segments as written (`ElfImage.RoundTrip`).
* **Kernel.** For every run: no lost wake-up, a woken receiver finds its message, a receive returns the latest
  send cut to what was asked for, no message is received twice, authority never grows, pledges never loosen, and
  nobody comes back. What each call does is said right by right and entry by entry (`KernelCalls`). The code keeps a record of what it did, which
  is a run of this machine at every entry and exit (`Supervisor.Supervisor.Traced`).
* **Scheduling.** A pick brings the cursor closer to a waiting shard if and only if it does not pass over it, and
  only higher levels pass over it; in every run from boot no shard waits for more than seven picks of its own
  level (`Fairness.PickMovesCursor`, `CursorLaw`, `RoundRobinFromBoot`).
* **File system.** Whatever model bytes fit, the parser finds in the written image exactly the files that were
  put there, at every offset and length, and reads through shared descriptors concatenate.
* **GPU.** Once a shard has unveiled a window, no copy writes a byte outside it, and no copy carries one away. In
  every run from boot, partition 0 is written by nobody but its shard.

Where code and comments disagree, the model follows the code: a channel has one buffer for both directions, so a
send replaces an unread message in either direction.

Four promises depend on more than the code that makes them:

* Round robin inside a priority level: one cursor serves all levels, so the scheduler alone does not give it.
  There is a shard table, which boot does not build, with a starving run of every length
  (`Fairness.SharedCursorStarves`). With the tables that boot builds it holds (`Fairness.RoundRobinFromBoot`).
* A partition heap keeps its regions apart over every run if and only if its size is at most 2^32 - 64
  (`Vram.SoundExactlyBelowTheWrap`); above that, rounding up wraps.
* `destroy` returns every frame except a tracked frame at physical address 0, which it cannot tell from an unused
  slot. `FrameZero.DestroyCanSkipAFrame` is a memory in which that happens; if that frame is no RAM of the pool,
  or is the supervisor's, it does not (`ShardMemory.Memory.Destroy`, `Serve`).
* A boot memory descriptor is taken over exactly if and only if its end does not wrap 64 bits, or wraps where no
  region is (`Pmm.MarkingIsExact`, `Pmm.ReservationIsExact`).

A failed assertion or `expect` of the source stops the machine. The methods model that as a result value, and
say why it happens, and promise nothing about memory in that case.

## Model

| member | source | states |
|---|---|---|
| Bitmap.Mark | crates/coconut-supervisor/src/pmm.rs:28-49 | marking one region changes the set of free regions by exactly that region, and nothing if the region is beyond the bitmap |
| Bitmap.TakeLowest | crates/coconut-supervisor/src/pmm.rs:134-146 | the word-by-word scan takes the smallest free index, and fails only if none is free |
| Pmm.PhysicalMemory.MarkRange | crates/coconut-supervisor/src/pmm.rs:71-78 | one marking loop sets exactly the regions that start in the range |
| Pmm.PhysicalMemory.Init | crates/coconut-supervisor/src/pmm.rs:55-131 | for any memory map, with 64-bit wrap-around: exactly the regions of the marking loops are free; on a regular map a region is free afterwards if and only if it fits inside one usable or reclaimable descriptor and touches neither the supervisor nor the boot page tables |
| Pmm.MarkingIsExact | crates/coconut-supervisor/src/pmm.rs:67-81 | a marking loop covers exactly the regions wholly inside its descriptor if and only if the descriptor is regular, which compares its ends with 2^64 |
| Pmm.ReservationIsExact | crates/coconut-supervisor/src/pmm.rs:93-100 | the reservation loop covers exactly the regions that overlap the supervisor if and only if its range is regular |
| Pmm.RegularMapIsExact | crates/coconut-supervisor/src/pmm.rs:55-131 | on a regular map the loops, taken together, leave free what the specification says |
| Pmm.PhysicalMemory.AllocRegion | crates/coconut-supervisor/src/pmm.rs:134-146 | hands out the lowest free region and removes exactly it |
| Pmm.PhysicalMemory.FreeRegion | crates/coconut-supervisor/src/pmm.rs:149-151 | puts exactly one region back |
| Frames.SubRegion.Alloc | crates/coconut-supervisor/src/frame.rs:33-43 | a frame of this region that was free, removed from it; fails only if none is free |
| Frames.SubRegion.Release | crates/coconut-supervisor/src/frame.rs:46-55 | accepts exactly the addresses of its region and frees exactly their frame |
| Frames.FrameAllocator.AllocFrame | crates/coconut-supervisor/src/frame.rs:72-97 | moves one frame from the pool to the frames handed out; fails if and only if all sub-regions are full and no region can be added |
| Frames.FrameAllocator.FreeFrame | crates/coconut-supervisor/src/frame.rs:110-120 | moves exactly that frame back to the pool |
| Frames.FrameAllocator.PoolAndOutAreDisjoint | crates/coconut-supervisor/src/frame.rs:72-97 | no frame is both in the pool and handed out |
| Frames.RegionMoves | crates/coconut-supervisor/src/frame.rs:82-97 | taking a region from the PMM and a frame from it removes just that frame from the pool |
| PageTables.PackUnpack | crates/coconut-supervisor/src/vmm.rs:34-58 | address and flags of an entry come back as they were packed |
| PageTables.IndicesAreDigits | crates/coconut-supervisor/src/vmm.rs:103-120 | the four indices of a lower-half page are its digits in base 512, root first |
| PageTables.IndicesAreInjective | crates/coconut-supervisor/src/vmm.rs:103-120 | two lower-half pages share all four indices only if they are the same page |
| PageTables.WalkFollowsRoles | crates/coconut-supervisor/src/vmm.rs:136-152 | in a forest, walking the tables reaches exactly the frame whose role is that table |
| PageTables.LinkKeepsForest | crates/coconut-supervisor/src/vmm.rs:124-132 | hanging a new table keeps the tables of all shards a forest without aliases |
| PageTables.LinkKeepsLeaves | crates/coconut-supervisor/src/vmm.rs:124-132 | and changes no translation of any shard |
| PageTables.LeafWriteIsLocal | crates/coconut-supervisor/src/vmm.rs:153-163 | writing a last-level entry changes that page's translation and no other, in any shard |
| ShardSpaces.AcceptedBufferIsMapped | crates/coconut-supervisor/src/syscall.rs:286-337 | every byte of an accepted read buffer is on a present user page of the shard, and of an accepted write buffer on a writable one |
| ShardSpaces.ValidatorsAreExact | crates/coconut-supervisor/src/syscall.rs:286-337 | a buffer is accepted if and only if it has 1 to 4096 bytes and all of them lie in one region of the shard: for reading image, data or stack, for writing image data, data or stack |
| ShardSpaces.SupervisorHalf | crates/coconut-supervisor/src/shard.rs:178-187 | the upper half of every shard's root table is the supervisor's, entry for entry, at all times |
| ShardSpaces.OneMapping | crates/coconut-supervisor/src/vmm.rs:136-164 | a frame of RAM appears in at most one translation of the whole machine |
| ShardSpaces.MappedFramesAreOwn | crates/coconut-supervisor/src/shard.rs:266-283 | a shard's pages lead to its own memory or to device memory, never to a table, to another shard's memory or to a kernel stack |
| ShardSpaces.MmapIsExact | crates/coconut-supervisor/src/shard.rs:329-366 | a request is acted on if and only if it is for whole pages between image and stack that are no data yet and make one stretch with the data there is |
| ShardSpaces.MmapRecords | crates/coconut-supervisor/src/shard.rs:388-400 | after it the data region is, address for address, the old one and the requested range |
| ShardSpaces.MmapIsUsable | crates/coconut-supervisor/src/shard.rs:388-400 | every buffer in the requested range is accepted from then on, and every buffer accepted before still is |
| ShardSpaces.MmapIsBuilt | crates/coconut-supervisor/src/shard.rs:388-400 | the extended data region is mapped without a hole |
| ShardSpaces.GrowthIsGood | crates/coconut-supervisor/src/shard.rs:325-408 | growing one shard leaves every other shard complete |
| Elf.Parse | crates/coconut-supervisor/src/elf.rs:55-123 | accepts exactly the well-formed images with at most three loadable segments, and returns entry point and loadable headers in order |
| ElfImage.KindOfFile | crates/coconut-supervisor/src/elf.rs:55-80 | a written file passes the header checks if and only if it is an ELF64 little-endian x86-64 executable with headers of 56 bytes |
| ElfImage.HeaderRead | crates/coconut-supervisor/src/elf.rs:97-119 | each field of a written program header is read back, write and execute permission included |
| ElfImage.RoundTrip | crates/coconut-supervisor/src/elf.rs:55-123 | a written file is accepted if and only if it is of that kind and its loads, at most three, lie in it; and then entry point and segments come back as written, in order |
| Elf.LoadsAreBacked | crates/coconut-supervisor/src/elf.rs:90-119 | each loaded segment comes from a loadable header and its file bytes lie inside the file |
| Loader.Covering | crates/coconut-supervisor/src/shard.rs:189-204 | segments accepted by the loader leave no hole below the end of the image |
| Loader.TilingIsExact | crates/coconut-supervisor/src/shard.rs:200-226 | the loader's assertions hold if and only if the segments lie end to end in whole pages from 0x1000 on, below the stack, none writable and executable, at most one writable |
| Loader.ImageIsMapped | crates/coconut-supervisor/src/shard.rs:189-264 | a loaded image covers the whole range that buffer validation accepts, and its data segment is writable |
| Loader.ImageRegions | crates/coconut-supervisor/src/shard.rs:214-264 | the descriptor's image region is, address for address, what the segments cover, and its data part what the writable segment covers |
| Loader.FirstSwitch | crates/coconut-supervisor/src/scheduler.rs:57-82 | the first switch to a new shard pops six zero registers and returns to the entry trampoline |
| Loader.LoadedByte | crates/coconut-supervisor/src/shard.rs:231-249 | each address of a loaded image reads as the file byte of its segment, or zero past the file image, under the segment's permissions |
| Loader.LoadedFromFile | crates/coconut-supervisor/src/shard.rs:214-249 | read off the file: some PT_LOAD header covers each address of the image; its page is writable exactly if the header's write bit is set and executable exactly if its execute bit is; the byte is the file's, or zero |
| ShardMemory.Memory.constructor | crates/coconut-supervisor/src/shard.rs:103-136 | eight free descriptors, all frames handed out belonging to the supervisor |
| ShardMemory.Memory.EnsureTable | crates/coconut-supervisor/src/vmm.rs:124-132 | returns the table one level down, made if absent, with every translation unchanged |
| ShardMemory.Memory.Map4k | crates/coconut-supervisor/src/vmm.rs:136-164 | adds exactly one translation where there was none, never writable and executable; it fails only for a mapped page, forbidden flags or lack of frames |
| ShardMemory.Memory.MapPages | crates/coconut-supervisor/src/shard.rs:231-249 | maps a range of pages holding a file image and then zeroes, keeping all other pages; running out of frames keeps what was mapped |
| ShardMemory.Memory.LoadNext | crates/coconut-supervisor/src/shard.rs:200-262 | one turn of the segment loop: the assertions hold and one more segment is in place |
| ShardMemory.Memory.Create | crates/coconut-supervisor/src/shard.rs:148-299 | the first free slot becomes a complete shard with the image, a zeroed stack and the prepared kernel stack in place; no other mapping, content or descriptor changes; it stops the machine only for lack of a slot, of frames, of room in the frame table, or for an image it does not accept |
| ShardMemory.Memory.Mmap | crates/coconut-supervisor/src/shard.rs:325-408 | a rejected request changes nothing; success maps zeroed writable pages, makes exactly their addresses data, and has every buffer in them accepted from then on and every earlier one still; an accepted one fails only when frames run out and then keeps the region; it stops the machine only if one of its pages is mapped already or no frame is left; other pages never change |
| ShardMemory.Memory.MapConfig | crates/coconut-supervisor/src/gpu.rs:326-364 | one tracked read-only, non-executable page with the given contents |
| ShardMemory.Memory.MapDevice | crates/coconut-supervisor/src/gpu.rs:406-423 | device pages are mapped uncached in order, and no frame is tracked for them |
| ShardMemory.Memory.Exit | crates/coconut-supervisor/src/shard.rs:302-318 | only the state of the shard changes |
| Teardown.HasAncestor | crates/coconut-supervisor/src/shard.rs:454-499 | every ancestor path of a table is the path of a table |
| Teardown.OneEntry | crates/coconut-supervisor/src/shard.rs:457-498 | one turn of a release loop covers exactly the tables reached through that entry |
| Teardown.EverythingReleased | crates/coconut-supervisor/src/shard.rs:424-444 | tracked frames, lower tables and the root together are all frames of the shard but the skipped one |
| Teardown.TakenApartIsGood | crates/coconut-supervisor/src/shard.rs:411-451 | what is left after a teardown is well formed, and all other shards translate every page as before |
| ShardMemory.Memory.FreeBelow | crates/coconut-supervisor/src/shard.rs:454-499 | zeroes and frees exactly the tables below a table, each once |
| ShardMemory.Memory.Destroy | crates/coconut-supervisor/src/shard.rs:411-451 | every frame of the shard, except a tracked one at address 0, is zeroed and back in the pool, exactly once; no other frame leaves the allocator's books; nothing is excepted if frame 0 is not in the pool's RAM or is the supervisor's |
| FrameZero.DestroyCanSkipAFrame | crates/coconut-supervisor/src/shard.rs:424-434 | there is a memory that satisfies every invariant in which an exited shard owns the frame at address 0 and destroying it skips exactly that frame |
| ShardMemory.Memory.Lifetime | crates/coconut-supervisor/src/shard.rs:148-451 | beside any other shards, over create, any requests for memory, exit and destroy of one shard, all roles return to what they were and no frame leaks |
| ShardMemory.Memory.Execute | crates/coconut-supervisor/src/shard.rs:148-451 | every event of any shard keeps the invariant of the whole memory, and moves no frame but frame 0 to the supervisor |
| ShardMemory.Memory.Serve | crates/coconut-supervisor/src/shard.rs:148-499 | over any sequence of events of all shards: whenever no shard has an address space, no frame has a role and the frames handed out are exactly the supervisor's |
| Teardown.NobodyOwnsNothing | crates/coconut-supervisor/src/shard.rs:411-451 | a well-formed memory without address spaces assigns no frame |
| Teardown.RolesReturn | crates/coconut-supervisor/src/shard.rs:148-451 | removing all that a new shard gained gives back the assignment of frames from before |
| Kernel.StepKeepsInv | crates/coconut-supervisor/src/scheduler.rs:325-384 | every step of the supervisor keeps the kernel invariant |
| Kernel.SendKeepsInv | crates/coconut-supervisor/src/channel.rs:63-95 | sending and waking keep it |
| Kernel.RecvKeepsInv | crates/coconut-supervisor/src/channel.rs:103-141 | taking a message, or blocking, keeps it |
| Kernel.ResumeKeepsInv | crates/coconut-supervisor/src/channel.rs:143-156 | so does the second half of a blocked receive |
| KernelRuns.InvariantHolds | crates/coconut-supervisor/src/scheduler.rs:325-384 | the invariant holds in every state of every run |
| KernelCalls.RestrictIsExact | crates/coconut-supervisor/src/capability.rs:81-93 | the entry carries a right exactly if it did before and the mask has it; no other entry of any shard changes |
| KernelCalls.RestrictNeedsEntry | crates/coconut-supervisor/src/capability.rs:81-93 | restricting an empty slot does nothing |
| KernelCalls.GrantIsExact | crates/coconut-supervisor/src/capability.rs:96-136 | a grant that may be made puts into the first empty slot of a living target a copy that carries a right exactly if the original does and the mask has it; no other entry changes, and any other grant changes nothing |
| KernelCalls.NarrowedIsUnique | crates/coconut-supervisor/src/capability.rs:81-136 | this determines the rights of the copy |
| KernelCalls.RevokeIsExact | crates/coconut-supervisor/src/capability.rs:62-78 | the slot is empty, and no other entry of any shard changes |
| KernelCalls.SendIsExact | crates/coconut-supervisor/src/channel.rs:63-95 | a send takes effect exactly for an endpoint with the right to send and 1 to 256 valid bytes: they wait for the other endpoint, which is woken if it waits here; nothing else changes |
| KernelCalls.RecvIsExact | crates/coconut-supervisor/src/channel.rs:103-141 | a receive by an endpoint with the right takes the message that is there for it or makes it wait, and any other does nothing |
| KernelCalls.SwitchIsExact | crates/coconut-supervisor/src/scheduler.rs:151-177 | a yield and the timer make the running shard ready and start the scheduler, and nothing else changes |
| KernelCalls.StartIsExact | crates/coconut-supervisor/src/scheduler.rs:325-384 | the scheduler starts the ready shard it picks, and nothing else changes |
| KernelCalls.PledgeIsExact | crates/coconut-supervisor/src/syscall.rs:166-198 | after the first pledge of a shard a call is allowed exactly if it always is or its own bit is in the mask |
| KernelCalls.PledgeOnlyFilters | crates/coconut-supervisor/src/syscall.rs:206-215 | a call of a pledged shard has the effect it has without a pledge, or is barred and has none |
| KernelRuns.OnlyCurrentRuns | crates/coconut-supervisor/src/scheduler.rs:151-177 | a shard is running exactly if it is the current one |
| KernelRuns.BlockedMeansNothingPending | crates/coconut-supervisor/src/channel.rs:118-138 | a blocked shard is in a receive on the recorded channel and no message for it is pending there |
| KernelRuns.PanicIsDeadlock | crates/coconut-supervisor/src/scheduler.rs:325-384 | the scheduler panics exactly if a shard is blocked and none is ready, and then all unfinished shards wait for messages that are not there |
| KernelRuns.WokenReceiverFindsMessage | crates/coconut-supervisor/src/channel.rs:143-156 | a resumed receive always finds its message: the other branch is dead |
| KernelRuns.ChannelHoldsLatestSend | crates/coconut-supervisor/src/channel.rs:63-95 | what a channel holds is the latest message sent on it |
| KernelRuns.LatestSendIsLatest | crates/coconut-supervisor/src/channel.rs:63-95 | the recorded send is a step that sends on the channel, and no later step does |
| KernelRuns.ReceivedIsLatestSend | crates/coconut-supervisor/src/channel.rs:103-157 | every receive returns a send on its channel by the other endpoint, cut to what was asked for, and nobody has sent on it since |
| KernelRuns.ReceivedOnce | crates/coconut-supervisor/src/channel.rs:103-157 | between two receives on a channel somebody sends on it: no message is received twice |
| KernelRuns.OutsidersLeaveChannelAlone | crates/coconut-supervisor/src/channel.rs:47-55 | a step of a shard that is no endpoint changes neither the channel nor an endpoint waiting on it |
| KernelRuns.CapOrigin | crates/coconut-supervisor/src/capability.rs:62-136 | every capability after a step comes from one before it with at least its rights |
| KernelRuns.AuthorityDescends | crates/coconut-supervisor/src/capability.rs:62-136 | over every run, every capability descends from an earlier one with a superset of its rights |
| KernelRuns.UngrantableChannelsLoseHolders | crates/coconut-supervisor/src/capability.rs:96-136 | a channel nobody may grant stays so and gains no holder |
| KernelRuns.NobodyBlocksWithoutRecvRight | crates/coconut-supervisor/src/syscall.rs:392-423 | a channel without receive rights at boot never blocks anybody |
| KernelRuns.NeverReceives | crates/coconut-supervisor/src/syscall.rs:392-423 | where nobody may grant receiving, a shard without a receive right is never inside a receive, over every run |
| KernelRuns.LeavingIsFinal | crates/coconut-supervisor/src/shard.rs:302-318 | over every run, a shard that has left neither runs nor waits again |
| KernelRuns.LeavingStep | crates/coconut-supervisor/src/shard.rs:302-318 | an exit or a fault ends the running shard and leaves every other shard and all channels |
| KernelRuns.FinishedHoldsNothing | crates/coconut-supervisor/src/scheduler.rs:385-405 | when the kernel finishes, the shards it destroys hold no capability |
| KernelRuns.PledgesNeverLoosen | crates/coconut-supervisor/src/syscall.rs:166-198 | over every run, a call that a pledge allows was allowed at every earlier time |
| KernelRuns.PledgesCompose | crates/coconut-supervisor/src/gpu.rs:105-111 | two pledges allow exactly what both allow |
| KernelRuns.MaskedPledgeAllowsLess | crates/coconut-supervisor/src/gpu.rs:105-111 | masking a pledge allows no new call |
| KernelBoot.BootIsInit | crates/coconut-supervisor/src/main.rs:427-477 | the boot state, with and without a GPU, satisfies the initial condition |
| KernelBoot.NobodyBlocksOnChannelTwo | crates/coconut-supervisor/src/main.rs:467-477 | no run from boot has a shard waiting on channel 2 |
| KernelBoot.PipelineChannelStaysPrivate | crates/coconut-supervisor/src/main.rs:453-460 | no run from boot gives a third shard a capability for the pipeline's channel |
| KernelBoot.EndpointsAreFixed | crates/coconut-supervisor/src/channel.rs:36-43 | the endpoints of a channel never change |
| Fairness.PickIsUnique | crates/coconut-supervisor/src/scheduler.rs:181-205 | the scheduling rule determines one shard |
| Fairness.ReadyUntilPicked | crates/coconut-supervisor/src/scheduler.rs:181-205 | a ready shard stays ready at its priority until it is picked |
| Fairness.PickMovesCursor | crates/coconut-supervisor/src/scheduler.rs:181-205 | a pick brings the cursor closer to a waiting shard if and only if the picked slot comes before it on the way round, and by exactly how much |
| Fairness.OnlyHigherLevelsPassOver | crates/coconut-supervisor/src/scheduler.rs:181-205 | a shard picked past a ready one has a higher level |
| Fairness.CursorLaw | crates/coconut-supervisor/src/scheduler.rs:181-205 | over a wait, the distance to the waiting shard changes by the travel of the cursor, and by one round for each time it is passed over |
| Fairness.BoundedWaiting | crates/coconut-supervisor/src/scheduler.rs:181-205 | over a wait, all picks are at most the first distance plus seven for every pick that passes over the shard; without those, at most seven picks of its level |
| Fairness.RoundRobinFromBoot | crates/coconut-supervisor/src/scheduler.rs:181-205 | in every run from boot, with the GPU and without, no shard waits for more than seven picks of its own priority |
| Fairness.SharedCursorStarves | crates/coconut-supervisor/src/scheduler.rs:181-205 | from a table that boot does not build, for every length there is a run in which a ready shard is never picked while another of its priority is picked every sixth step |
| Supervisor.Supervisor.Check | crates/coconut-supervisor/src/capability.rs:42-58 | true exactly if a table entry has the kind, the resource and all the rights |
| Supervisor.Supervisor.GrantToShard | crates/coconut-supervisor/src/capability.rs:12-39 | fills the first empty slot, and fails only if there is none |
| Supervisor.Supervisor.GrantCopy | crates/coconut-supervisor/src/capability.rs:96-136 | succeeds exactly for grants that may be made, and then only the first empty slot of the target changes, to a copy with exactly the rights that the original has and the mask has |
| Supervisor.Supervisor.ClearShard | crates/coconut-supervisor/src/capability.rs:154-167 | empties exactly one table |
| Supervisor.Supervisor.constructor | crates/coconut-supervisor/src/main.rs:427-477 | the tables at boot satisfy the kernel invariant and begin a run |
| Supervisor.Supervisor.ChannelSend | crates/coconut-supervisor/src/channel.rs:63-95 | refines the send step and keeps the kernel invariant; rejected sends change nothing |
| Supervisor.Supervisor.ChannelRecv | crates/coconut-supervisor/src/channel.rs:103-141 | refines the first half of a receive and keeps the kernel invariant |
| Supervisor.Supervisor.ChannelRecvResumed | crates/coconut-supervisor/src/channel.rs:143-156 | always delivers a message of the other endpoint after which nobody sent on the channel, cut to what was asked for; the branch without a message is dead |
| Supervisor.Supervisor.SyscallDispatch | crates/coconut-supervisor/src/syscall.rs:206-277 | behind the pledge, every system call extends the run of the machine by one step, and afterwards nobody but the caller can be running |
| Supervisor.Supervisor.Interrupt | crates/coconut-supervisor/src/scheduler.rs:151-165 | timer and faults extend the run by one step; nobody is running afterwards, and no channel and no other shard has changed |
| Supervisor.Supervisor.PickNextReady | crates/coconut-supervisor/src/scheduler.rs:181-205 | a ready shard of the highest ready priority, nearest after the last one picked; none exactly if nobody is ready |
| Supervisor.Supervisor.EverybodyDone | crates/coconut-supervisor/src/scheduler.rs:208-217 | true exactly if every slot is free, exited or destroyed |
| Supervisor.Supervisor.RunLoopTurn | crates/coconut-supervisor/src/scheduler.rs:325-384 | one turn of the loop extends the run by one step: it starts the shard the rule picks, or ends with every slot free or destroyed, or panics with every unfinished shard in a receive for which nothing is there |
| Supervisor.Supervisor.DestroyExited | crates/coconut-supervisor/src/scheduler.rs:385-405 | refines the final clean-up |
| Transformer.SplitRange | shards/llama-pipeline/main.c:218-319 | layers [lo, k) and then [k, hi) with two caches give the activation and cache rows of [lo, hi) with one |
| Inference.IndexInBounds | shards/llama-inference/main.c:262-268 | every flat cache index is inside the cache |
| Inference.IndexIsInjective | shards/llama-inference/main.c:262-268 | different layers, positions or components never share a slot |
| Inference.RowWrittenAppends | shards/llama-inference/main.c:262-268 | writing the row of one layer and position leaves every other row of every layer |
| Inference.FlatRow | shards/llama-inference/main.c:226-234 | float i of row l of a weight table, the embedding included, is the flat float at l times the row size plus i |
| Inference.Multiply | shards/llama-inference/main.c:193-201 | the two loops over the flat matrix compute the matrix product |
| Inference.Normalize | shards/llama-inference/main.c:169-177 | the loops compute the scaled vector |
| Inference.SoftmaxInPlace | shards/llama-inference/main.c:179-191 | the three loops compute the quotients of exponentials relative to the largest score |
| Inference.Attend | shards/llama-inference/main.c:270-298 | the loops over heads, positions and components compute attention over the flat caches |
| Inference.LayerStep | shards/llama-inference/main.c:232-321 | one turn of the layer loop is one layer of the specification, and pushes one row |
| Inference.ForwardLayers | shards/llama-pipeline/main.c:218-319 | the layer loop over local caches computes the activation and the new rows of its range |
| Inference.ArgMaxIsFirstLargest | shards/llama-inference/main.c:203-214 | for any strict weak order, nothing is greater than the greedy choice, and it is greater than everything before it |
| Inference.Argmax | shards/llama-inference/main.c:203-214 | the loop finds that first largest component |
| Inference.FlatCachesAgree | shards/llama-pipeline/main.c:218-319 | slot by slot, local layer l of a stage's flat caches holds what layer k + l of the sequential ones holds |
| Inference.NextToken | shards/llama-inference/main.c:217-328 | one forward pass and the greedy choice |
| Inference.RunInference | shards/llama-inference/main.c:459-481 | the token loop emits the sequential tokens |
| Recompute.MatMulIsProduct | shards/llama-inference/main.c:193-201 | row i of the matrix of layer l is summed over the floats at l times the matrix size plus i times the row size plus j |
| Recompute.RopeIsTurned | shards/llama-inference/main.c:241-260 | every pair of floats is turned by the angle of its position and of its place in the head |
| Recompute.SoftmaxIsShares | shards/llama-inference/main.c:179-191 | a share is the exponential relative to the first largest score, over the sum of all |
| Recompute.AttentionAgrees | shards/llama-inference/main.c:270-298 | float i of head h is the sum over all positions of the share of its key times the value of its group |
| Recompute.LayerAgrees | shards/llama-inference/main.c:232-321 | for every input and cache, a layer is its formula on the flat weights: attention, residual, silu of the first product times the third, second matrix, residual |
| Recompute.CachesAreRecomputed | shards/llama-inference/main.c:217-328 | at every position the caches hold the keys and values that the text alone determines |
| Recompute.TokensAreRecomputed | shards/llama-inference/main.c:459-481 | every token is the first largest choice of the classifier after the text before it, recomputed without caches |
| Recompute.LaterDoesNotMatter | shards/llama-inference/main.c:270-298 | the activation at a position depends on nothing later in the text |
| LayerLaws.ThirdIsTheFactor | shards/llama-inference/main.c:304-320 | where the product with the third matrix is one everywhere, the feed-forward half adds the second matrix times silu of the first product |
| LayerLaws.FirstIsTheGate | shards/llama-inference/main.c:304-320 | where silu of the first product is zero everywhere, it adds nothing, whatever the third matrix is |
| LayerLaws.LayerIsIdentity | shards/llama-inference/main.c:299-320 | with zero output projection and zero second matrix a layer changes nothing |
| LayerLaws.FirstPosition | shards/llama-inference/main.c:270-302 | at the first position every head sees just the value of its group of heads |
| LayerLaws.NoRotation | shards/llama-inference/main.c:236-268 | with cosines one and sines zero, query and cached key are the plain products, and the cached value always is |
| Pipeline.DecodeEncode | shards/llama-pipeline/main.c:473-503 | an activation survives its trip through message bytes |
| Pipeline.SplitPosition | shards/llama-pipeline/main.c:473-537 | one position of the sequential loop, cut at the split, is the work of the two stages |
| Pipeline.InvariantHolds | shards/llama-pipeline/main.c:473-537 | every state of every interleaving agrees with the sequential loop, and the remaining work shrinks with every step |
| Pipeline.TokensAreSequential | shards/llama-pipeline/main.c:473-537 | both stages have always emitted a prefix of the sequential tokens, stage 1 at most one ahead |
| Pipeline.NothingIsOverwritten | shards/llama-pipeline/main.c:473-537 | every send finds the channel empty and leaves a pending message |
| Pipeline.NeverBothBlocked | shards/llama-pipeline/main.c:473-537 | the stages are never both blocked, and a run can be continued by a move if and only if not both are done |
| Pipeline.BothFinish | shards/llama-pipeline/main.c:473-537 | a run has at most eight steps for each token and eight more, and one that no move continues has both stages done with all sequential tokens |
| PipelineKernel.MoveIsSimulated | crates/coconut-supervisor/src/channel.rs:63-157 | every step of the kernel, of a stage or of any other shard is one move of the pipeline or none, and keeps the invariant of both |
| PipelineKernel.KernelRunIsPipelineRun | crates/coconut-supervisor/src/channel.rs:63-157 | every run of the kernel from boot whose stage shards follow their programs projects onto a run of the pipeline |
| PipelineKernel.StagesInKernel | shards/llama-pipeline/main.c:473-537 | in every such run the stages have emitted prefixes of the sequential tokens, and all of them when the kernel finishes or panics |
| Pipeline.OversizedActivationsGoWrong | crates/coconut-supervisor/src/syscall.rs:358-423 | for every activation of more than 256 bytes a model and a run exist in which stage 1 emits another token than sequential inference |
| Bytes.LowestByteFirst | crates/coconut-supervisor/src/elf.rs:38-52 | in a stored number byte k is its k-th digit in base 256 |
| Ext2Image.WriteSuperblock | crates/coconut-supervisor/build.rs:178-208 | superblock and group descriptor hold their documented values; nothing else is written |
| Ext2Image.WriteBlockBitmap | crates/coconut-supervisor/build.rs:213-218 | a bit is set exactly for the blocks in use |
| Ext2Image.WriteInodes | crates/coconut-supervisor/build.rs:230-274 | the three inodes with their sizes and pointers, unused pointers zero |
| Ext2Image.WriteDirectory | crates/coconut-supervisor/build.rs:279-304 | the four directory entries |
| Ext2Image.CopyBlocks | crates/coconut-supervisor/build.rs:317-344 | consecutive blocks of the model, the last one cut at its end |
| Ext2Image.BuildImage | crates/coconut-supervisor/build.rs:131-345 | an image exists exactly if the model fits, and then everything in it is where it belongs |
| Ext2.ReadInode | crates/coconut-supervisor/src/ext2.rs:97-121 | the inode the image records, none outside the table, a panic past the image |
| Ext2.InodeIsExact | crates/coconut-supervisor/src/ext2.rs:97-121 | in any image an inode is missing exactly if its number is zero or its record does not lie in the image, and otherwise has the mode, size and pointers at 0, 4 and 40 of the record |
| Ext2.BlockSizes | crates/coconut-supervisor/src/ext2.rs:58-75 | a mounted image has the magic number; block sizes are 1024, 2048 and 4096 for exponents 0, 1 and 2, and inodes have 128 bytes in revision 0 |
| Ext2.LookupPath | crates/coconut-supervisor/src/ext2.rs:125-176 | the scanning loops find the first entry of that name |
| Ext2.FindIsFirst | crates/coconut-supervisor/src/ext2.rs:148-172 | in any directory block the search finds the first record in use of that name on the chain of records, or there is none; it panics only at a record outside the image |
| Ext2.ReadData | crates/coconut-supervisor/src/ext2.rs:180-233 | for any image: the bytes read are the file's, the rest of the buffer stays, it stops early only at a hole, and it cannot panic if the blocks lie in the image |
| Ext2.NamedBlock | crates/coconut-supervisor/src/ext2.rs:197-216 | in any image, part k of a file lies in the block that pointer k names, or that word k - 12 of the pointer block names, as many as fit there |
| RootFs.Mounts | crates/coconut-supervisor/src/ext2.rs:58-86 | the written image mounts with the intended geometry |
| RootFs.InodeOf | crates/coconut-supervisor/src/ext2.rs:97-121 | the parser reads back the three inodes as written |
| RootFs.Names | crates/coconut-supervisor/src/ext2.rs:125-176 | every path resolves to the file of that name, the root for the empty name and the dots, and nothing otherwise |
| RootFs.ByteRoundTrip | crates/coconut-supervisor/src/ext2.rs:180-233 | every byte of either file is found, across the direct and indirect blocks |
| RootFs.ReadBack | crates/coconut-supervisor/src/ext2.rs:180-233 | a read at any offset and length returns exactly that slice and leaves the rest of the buffer |
| FileTable.Table.FsOpen | crates/coconut-supervisor/src/fs.rs:84-146 | opens regular files only, in the lowest free slot, at offset 0 |
| FileTable.Table.FsRead | crates/coconut-supervisor/src/fs.rs:149-179 | the owner gets the next slice and the offset moves past it; everybody else gets an error |
| FileTable.Table.FsStat | crates/coconut-supervisor/src/fs.rs:182-197 | the size, for the owner only |
| FileTable.Table.FsClose | crates/coconut-supervisor/src/fs.rs:200-223 | closes the owner's descriptor only |
| FileTable.Table.ReleaseShard | crates/coconut-supervisor/src/fs.rs:48-70 | closes exactly the files of the shard |
| FileTable.RunIsValid | crates/coconut-supervisor/src/fs.rs:84-223 | over every run, open files are regular files read no further than their end |
| FileTable.OpenIsExact | crates/coconut-supervisor/src/fs.rs:84-146 | succeeds exactly for "hello.txt" and "model.bin", with or without one slash, while a slot is closed; it takes the lowest one, at the start of that file |
| FileTable.ReadIsExact | crates/coconut-supervisor/src/fs.rs:149-179 | the owner gets the next bytes, as many as asked for or left, and moves past exactly them; any other read fails without effect |
| FileTable.StatIsLength | crates/coconut-supervisor/src/fs.rs:182-197 | the owner learns the length of the file |
| FileTable.CloseIsExact | crates/coconut-supervisor/src/fs.rs:200-223 | only the owner closes a descriptor, and only that one |
| FileTable.ExitIsExact | crates/coconut-supervisor/src/fs.rs:48-70 | the end of a shard closes its descriptors and no others |
| FileTable.OthersLeaveMine | crates/coconut-supervisor/src/fs.rs:149-223 | calls of other shards leave a shard's descriptors alone |
| FileTable.OwnerIsCaller | crates/coconut-supervisor/src/fs.rs:48-223 | a descriptor is gained, moved or lost only by a call of its owner, and an exit leaves it none |
| FileTable.ReadsConcatenate | crates/coconut-supervisor/src/fs.rs:149-179 | over every run of all shards, the reads on a descriptor return consecutive parts of the file |
| FileTable.OwnersAreUnfinished | crates/coconut-supervisor/src/fs.rs:48-70 | over every run, a shard that has exited owns no descriptor |
| FileTable.LoadFile | shards/llama-inference/main.c:377-387 | what the load loop has is always the start of the file, whatever other shards do in between, and the whole of it if no buffer is refused |
| Gpu.Device.constructor | crates/coconut-supervisor/src/gpu.rs:293-319 | two equal, adjacent partitions that take all of video memory but at most a byte, half of the compute units each, and nobody has unveiled |
| Gpu.Device.HandleUnveil | crates/coconut-supervisor/src/gpu.rs:117-160 | succeeds exactly once, for a nonempty range inside the shard's partition; from then on exactly the bytes of the range are visible; no other window changes |
| Gpu.Device.UnveilAllows | crates/coconut-supervisor/src/gpu.rs:164-178 | the two comparisons of ends, with their overflow check, allow a nonempty range if and only if every byte of it is visible |
| Gpu.Device.CheckDma | crates/coconut-supervisor/src/gpu.rs:189-253 | all checks of a copy, in terms of partitions, windows, capability and pledge |
| Gpu.Device.HandleDma | crates/coconut-supervisor/src/gpu.rs:189-279 | with destination and length packed into one word: accepted exactly if every byte read and written is open, and then exactly the bytes at the destination are those at the source; any other request changes nothing |
| Gpu.AcceptedBytewise | crates/coconut-supervisor/src/gpu.rs:194-253 | the checks on ends and windows accept a copy if and only if every byte it reads is in the caller's partition and open to it, and every byte it writes is in the target's and open by its owner |
| Gpu.NoOverlap | crates/coconut-supervisor/src/gpu.rs:255-266 | source and destination of an accepted copy do not overlap |
| Gpu.WindowIsFinal | crates/coconut-supervisor/src/gpu.rs:117-124 | over every run, a window never changes again |
| Gpu.VeiledBytesStay | crates/coconut-supervisor/src/gpu.rs:236-253 | over every run, a byte outside its shard's window changes only by that shard's own store |
| Gpu.VeiledBytesDoNotLeak | crates/coconut-supervisor/src/gpu.rs:236-253 | over every run, states that differ only in such bytes keep differing only there |
| Gpu.OnlyCapabilityWrites | crates/coconut-supervisor/src/gpu.rs:216-226 | a step that changes another shard's partition is a copy whose caller holds the capability for it and has not pledged it away |
| GpuBoot.CopiesGoToOne | crates/coconut-supervisor/src/gpu.rs:216-226 | with the capabilities of any state of any kernel run from boot, an accepted copy is one of shard 0 to partition 1 |
| GpuBoot.PartitionZeroIsPrivate | crates/coconut-supervisor/src/gpu.rs:189-279 | over every run from boot, a byte of partition 0 changes only by a store of shard 0 |
| GpuBoot.WritersOfOne | crates/coconut-supervisor/src/gpu.rs:189-279 | a byte of partition 1 changes only by a copy of shard 0 or a store of shard 1 |
| Vram.Allocator.constructor | crates/coconut-rt/src/gpu.rs:63-71 | an empty heap behind its header |
| Vram.Allocator.AllocRegion | crates/coconut-rt/src/gpu.rs:74-102 | succeeds exactly if an entry is left and the region fits at the next multiple of 64, and records it there, or changes nothing; no byte of any region changes |
| Vram.Allocator.FreeRegion | crates/coconut-rt/src/gpu.rs:106-132 | in any heap, the first entry at the offset loses its tag and the whole quadwords of its region become zero, and every other byte stays; in a sound heap that is one step of the specification |
| Vram.RunIsSound | crates/coconut-rt/src/gpu.rs:63-132 | over every run of allocations and frees, regions are aligned, inside the heap and pairwise disjoint |
| Vram.WrapPlacesRegionAtZero | crates/coconut-rt/src/gpu.rs:74-102 | in a heap larger than 2^32 - 64, two allocations place a region on the allocator's page |
| Vram.SoundExactlyBelowTheWrap | crates/coconut-rt/src/gpu.rs:63-132 | regions stay apart over every run if and only if the heap is no larger |
| Vram.IndexOfRegion | crates/coconut-rt/src/gpu.rs:106-118 | freeing by offset finds a nonempty region exactly if no empty one was recorded at its offset before |

## Left out

- Assembly and processor state (context switch, entry stubs, segment and interrupt tables, caches): only the effect on shard states is modelled.
- Device drivers, boot loader, ACPI, IOMMU, serial output and profiling counters.
- Floating-point arithmetic: addition, multiplication, the exponential and the two square roots of the forward pass are parameters, and what is proved is which values flow where.
- The scratch vectors `x`, `xb`, `q`, `k`, `v` and `hb` of a run state are sequences that methods reassign; only the two caches are arrays updated in place.
- The generated model weights and the parsing of the model header.
- Address randomisation: virtual addresses of device pages are parameters.
- `unmap_4k`, `map_2m` and the supervisor's own half of the address space, which is copied and never changed.
- `CommandRing` and the 4 by 4 matrix product: the ring has one slot that a single shard fills and reads back itself, so no state is shared and nothing in the model depends on it.
- `inspect`, which reports one capability packed into a word, and `file_count`, which only feeds a boot message: neither changes state nor decides anything.
- The contents of configuration pages are a parameter of `ShardMemory.Memory.MapConfig`.
- Kernel and ShardMemory are separate models of the same shards: run states in one, address spaces in the other. Buffer validation enters the first as a verdict.
- PipelineKernel.StagesInKernel: takes the stage shards to follow their programs, with valid buffers and without a fault of their own.
- ShardMemory.Memory.Create: when an assertion fails it says why, and promises nothing about memory, because the machine then stops.
- ShardMemory.Memory.Mmap: when a request stops the machine the contract says why, and promises nothing about memory.
- ShardMemory.Memory.MapDevice: takes for granted that the mapped frames are device memory and not RAM.
- ShardMemory.Memory.FreeBelow: one recursive method stands for three nested loops.
- Ext2.ReadData: after a panic nothing is promised about the buffer.
