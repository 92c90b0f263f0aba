# Verified model of the RISC-V system simulator

This project models the memory hierarchy and the devices of a RISC-V system simulator in Dafny and
proves what they promise: a cache that cannot be told from the memory it speeds up, a TLB that agrees
with the Sv32 page walk, DMA engines whose queued and immediate paths do the same work, a block device
that answers its queue in order and returns what was stored, integer sampling that hits the share it was
asked for, and the small arbiters, encoders and writers beside them.

Every component has two layers.

* A specification (`*_spec.dfy`, `sv32.dfy`, `tlb.dfy`, `lpu_sampling.dfy`): values and functions that take
  the same branches as the source, with the lemmas about single operations; whole runs are in `*_runs.dfy`,
  `cache_economy.dfy`, `virtio_disk.dfy`, `tlb.dfy`, `tlb_fences.dfy` and `tlb_retention.dfy`.  What comes
  out, in terms of the words in memory and without the functions above, is in `*_meaning.dfy`,
  `virtio_status.dfy`, `lpu_completion.dfy`, `lpu_draws.dfy` and `codec_layout.dfy`.
* A device (`cache.dfy`, `mmu.dfy`, `npu.dfy`, `virtio.dfy`, `lpu.dfy`, `plic.dfy`, `doorbell.dfy`,
  `fdt.dfy`, `conv.dfy`): classes and methods with the source's fields and loops.  Each method's contract
  equates its effect with the specification function, so the lemmas hold of the methods too.

Memory (`memory.dfy`) is a partial map of mapped bytes, some of which refuse stores; multi-byte accesses
go byte by byte and can stop half way.  `bits.dfy` proves what shifts, masks and single bits of machine
words mean as arithmetic.

To check everything: `dafny verify dfyconfig.toml`.

## What was found

Where a promise does not hold for every input, the exact condition is proved, with an input that breaks it.

* The cache looks like flat memory to every run exactly when its configuration suits the memory map
  (`CacheRuns.TransparentExactlyWhen`).  An instruction cache set to write back never marks a line dirty
  and loses stores (`CacheRuns.InstructionWriteBackLosesStores`); a write-through cache updates its line
  before it asks the bus, so a refused store still shows (`CacheRuns.WriteThroughShowsRefusedStore`); a
  cache that does not allocate passes on half a store (`CacheRuns.AroundShowsPartOfStore`).
* A translation through the TLB differs from the walk exactly for a user-mode load, without MXR, that hits
  a cached page that may be executed but not read (`TlbSpec.TlbIsTransparent`,
  `TlbSpec.ExecuteOnlyPageIsRead`).
* A queue of NPU work can be emptied by ticks exactly when all operands of its aligned items are mapped
  (`NpuSpec.EmptiesExactlyWhenMapped`); the synchronous path counts an error and goes on.
* A queueing NPU that is idle is left busy with nothing to do exactly by vector work whose descriptor cannot
  be read to its end (`NpuRuns.HangsExactlyWhen`).
* A 16-bit used index selects the right ring slot for every count exactly when the queue size is a power of
  two (`VirtioRuns.SlotsNeedPowerOfTwo`).
* The nucleus threshold is the promised share exactly when total weight times permille stays at or below
  18446744073709551000 (`LpuSampling.ThresholdExact`); above, the kept set is still the promised one exactly
  when no prefix sum falls in the gap (`LpuSampling.NucleusExactlyWhen`), and can be far too small
  (`LpuSampling.NucleusTooSmall`).
* A candidate is drawn by as many tickets as its weight exactly when the weights up to it sum to less than
  2^64 (`LpuSampling.TicketCount`); 8589936 candidates can exceed that (`LpuSampling.TicketsRunOut`).
* The 32-bit generator reaches a candidate exactly when its tickets start below 2^32
  (`LpuSampling.ReachableDraws`); with scores 0xFFFFFFFF and 0 at temperature 2 the second is never sampled
  (`LpuSampling.LastNeverSampled`).
* A doorbell submit to an engine that exists but is not attached leaves BUSY set until the next submit
  (`Doorbell.StaysBusy`, `Doorbell.BusyAfter`).
* The dispatchers of convolution and pooling accept kernels larger than the padded image; exactly for those
  the output size underflows and exceeds 2^48 (`ConvSpec.GuardsOmitFit`, `ConvSpec.MachineOutExact`).
* The devicetree reads back exactly when the command line has at most 4294966979 bytes
  (`Devicetree.DevicetreeRoundTrip`).
* Completing a PLIC source also withdraws it from the pending set, so a request raised again while the
  first was being handled is lost (`PlicRuns.ReraisedIsLost`); a run delivers all its requests exactly when
  no completion or lowering meets one pending (`PlicRuns.DeliversAllExactlyWhen`).

## Model

| member | source | states |
|---|---|---|
| Memory.ReadBlockSpec | src/memory/bus.rs:435-465 | a block read succeeds exactly when every byte can be read, and delivers those bytes |
| Memory.WriteBlockSpec | src/memory/bus.rs:470-508 | a block store lays exactly its accepted bytes over memory, and stops only at a byte that refuses |
| Memory.WriteLEThenRead | src/peripheral/dma.rs:53-68 | a little-endian number that was stored reads back |
| Memory.LowestFirst | src/peripheral/dma.rs:53-59 | a number is its first byte plus 256 times the number that follows, readable exactly if all its bytes are |
| SystemBus.Bus.ReadWord | src/memory/bus.rs:536-543 | a word load must be aligned and delivers the little-endian number of its four bytes |
| SystemBus.Bus.WriteWord | src/memory/bus.rs:549-556 | a word store must be aligned and goes out byte by byte, leaving its first bytes if one is refused |
| SystemBus.Bus.ReadNumber | src/peripheral/dma.rs:53-59 | DMA loads of any alignment |
| SystemBus.Bus.WriteNumber | src/peripheral/dma.rs:62-67 | DMA stores of any alignment, with the partial store a refusal leaves |
| CacheTheorems.LineBaseCovers | src/cpu/cache.rs:207-235 | set and tag of an address rebuild the base of its line, and the line is exactly the 16 bytes from there |
| CacheTheorems.WriteBackKeeps | src/cpu/cache.rs:260-285 | a write-back, complete or cut short by the bus, changes nothing a later access would see |
| CacheTheorems.EvictKeeps | src/cpu/cache.rs:288-312 | an eviction hides nothing: unique tags and clean-equals-memory are kept and the view is unchanged |
| CacheTheorems.FillKeeps | src/cpu/cache.rs:288-312 | a fill, successful or failed, keeps the invariant and the view, and a successful one makes the line findable |
| CacheTheorems.LoadIsTransparent | src/cpu/cache.rs:404-483 | a load inside one line never changes the view and delivers what the view holds |
| CacheTheorems.StoreIsTransparent | src/cpu/cache.rs:345-401 | a completed store lays its bytes over the view; a failed one leaves the view alone if the cache allocates, else what the bare bus would have left |
| CacheTheorems.FlushIsTransparent | src/cpu/cache.rs:530-538 | a flush, also one that fails half way, keeps the view; a complete one leaves memory equal to the view and no valid line |
| CacheTheorems.InvalidateIsTransparent | src/cpu/cache.rs:510-518 | invalidating a line through the bus keeps the view and, when it succeeds, drops the line |
| CacheRuns.CacheIsTransparent | src/cpu/cache.rs:345-538 | over every run from an empty cache of in-line loads and stores, invalidations and flushes, each result is that of a flat memory with the completed stores, on any memory map, for every data or write-through configuration: always when it writes back and allocates, and otherwise as long as no store of the run leaves a part behind on a line that can be cached |
| CacheRuns.AcceptedStoresAreTransparent | src/cpu/cache.rs:345-538 | in particular for every such configuration and every run whose stored bytes the bus accepts |
| CacheRuns.TransparentExactlyWhen | src/cpu/cache.rs:345-538 | all runs look like flat memory if and only if configuration and memory map suit each other: any map for a data cache that writes back and allocates; no unwritable byte after a writable one in a cacheable line if it does not allocate; cacheable lines writable throughout for write-through; no cacheable line at all for an instruction cache that writes back |
| CacheRuns.CacheMatchesBus | src/cpu/cache.rs:345-538 | where memory lines are whole, every operation of every run gives the very outcome the bare bus would give, failures included |
| CacheRuns.MatchesBusExactlyWhen | src/cpu/cache.rs:345-538 | a data or write-through cache gives every run of in-line operations the outcomes of the bare bus if and only if every line of memory is wholly there and writable, or wholly absent |
| CacheRuns.InstructionWriteBackLosesStores | src/cpu/cache.rs:364-368 | an instruction cache set to write back loses a completed store to any byte of any cacheable line once the line is invalidated |
| CacheRuns.WriteThroughShowsRefusedStore | src/cpu/cache.rs:356-373 | at any unwritable byte of any cacheable line, a store reported as failed shows in the next load |
| CacheRuns.AroundShowsPartOfStore | src/cpu/cache.rs:386-400 | without allocation, a missing store that the bus refuses after its first byte is reported as failed and shows in part |
| CacheEconomy.WriteBackEconomy | src/cpu/cache.rs:260-285 | in every reachable state, write-backs plus dirty lines do not exceed the stores counted |
| CacheEconomy.EveryAccessCounted | src/cpu/cache.rs:315-336 | over every run each load and each store is counted once, as a hit if and only if some way of set a / 16 mod sets holds tag a / 16 / sets when it is issued, failed and line-crossing accesses included |
| CacheEconomy.FillCountsEviction | src/cpu/cache.rs:288-296 | a fill counts an eviction if and only if every way of its set is valid |
| CacheEconomy.FilledLineSurvives | src/cpu/cache.rs:245-257 | from an empty cache, a line once filled is still there after the next ways - 1 fill attempts into its set, through the invalid-way and the round-robin phase |
| CacheEconomy.FilledLineLives | src/cpu/cache.rs:245-312 | where the fills of its set complete and nobody asks for it again, a filled line is still there if and only if there have been fewer fills than the set has ways |
| CacheDevice.Cache.WritebackLine | src/cpu/cache.rs:260-285 | the method's whole effect on cache, counters, bus and result is the specified write-back |
| CacheDevice.Cache.FillFrom | src/cpu/cache.rs:288-312 | choosing a victim, writing it back, reading and installing the line do what the specified fill does |
| CacheDevice.Cache.ReadBytesAt | src/cpu/cache.rs:404-483 | loads of every size are the specified load |
| CacheDevice.Cache.WriteBytes | src/cpu/cache.rs:345-401 | stores of every size are the specified store |
| CacheDevice.Cache.InvalidateWithBus | src/cpu/cache.rs:510-518 | invalidation is the specified one |
| CacheDevice.Cache.FlushAllWithBus | src/cpu/cache.rs:530-538 | the nested flush loops do the specified flush, stopping at the first bus error |
| CacheDevice.Cache.constructor | src/cpu/cache.rs:165-203 | a new cache of any power-of-two geometry is the empty one |
| CacheDevice.Cache.FindWayIn | src/cpu/cache.rs:238-242 | the first valid way with this tag, if there is one |
| CacheDevice.Cache.ChooseVictimWay | src/cpu/cache.rs:245-257 | the first invalid way, else round robin, as specified |
| CacheDevice.Cache.EvictWay | src/cpu/cache.rs:291-296 | the eviction count and the write-back of the victim |
| CacheDevice.Cache.ReadHalf | src/cpu/cache.rs:457-483 | the two bytes of the specified load, as a little-endian number, at any alignment inside a line |
| CacheDevice.Cache.ReadWord | src/cpu/cache.rs:404-438 | the four bytes likewise; the cache itself does not test alignment |
| CacheDevice.Cache.Reset | src/cpu/cache.rs:541-545 | the cache is empty again, dirty data dropped, counters cleared |
| CacheDevice.Cache.Tag | src/cpu/cache.rs:213-215 | the shifted address is the specified tag |
| CacheDevice.Cache.SetIndexOf | src/cpu/cache.rs:207-209 | the shifted and masked address is the specified set index, for every power-of-two geometry |
| CacheDevice.Cache.BaseFromSetTag | src/cpu/cache.rs:231-235 | shifts and ors of set and tag give the line base |
| Sv32.EntryLayout | src/cpu/mmu.rs:16-24 | an entry written as the sum of its digits, 1 for V up to 0x80 for D and 0x400 for the frame, is read as those digits |
| Sv32.WalkInNumbers | src/cpu/mmu.rs:148-237 | the walk over the entries at root + va / 2^22 * 4 and at frame * 4096 + va / 4096 mod 1024 * 4, in the digits of the words in memory: which leaves translate, for whom, and to which 4 KiB or 4 MiB frame and offset, cut to 32 bits |
| Sv32.WalkMarksEntry | src/cpu/mmu.rs:201-227 | a walk that succeeds sets the digits A, and D for a store, of a writable leaf entry, keeps its other digits, and changes no other byte |
| Sv32.ADUpdateInvisible | src/cpu/mmu.rs:148-237 | the A and D bits a walk sets change the result of no walk: any address, privilege, SUM and MXR, also when one entry serves both levels |
| Sv32.WalkIsIdempotent | src/cpu/mmu.rs:148-237 | the same walk again gives the same answer and writes nothing |
| TlbSpec.InsertKeepsCoherence | src/cpu/tlb.rs:137-148 | inserting a walk's result keeps every valid entry, duplicates included, equal to a fresh walk |
| TlbSpec.LookupIsRight | src/cpu/tlb.rs:103-134 | a hit has the frame, offset and permission bits of a fresh walk; a permission miss on a cached page means the walk would fault |
| TlbSpec.RunKeepsCoherence | src/cpu/tlb.rs:103-177 | coherence over every run of translations and flushes, the tables changing only in A and D bits |
| TlbSpec.TranslateIsWalk | src/cpu/pipeline/mod.rs:1337-1373 | a translation through a coherent TLB equals the walk if and only if it is not a user load hitting an execute-only page |
| TlbSpec.TlbIsTransparent | src/cpu/pipeline/mod.rs:1337-1373 | the same over every run from an empty TLB, against the page tables as they were before the run |
| TlbSpec.ExecuteOnlyPageIsRead | src/cpu/pipeline/mod.rs:1320-1335 | whenever such a page is mapped, a fetch followed by a load gets through where the walk faults |
| TlbRetention.StaysExactly | src/cpu/tlb.rs:137-148 | in any TLB, while other pages are inserted and other pages fenced, a page just inserted is found if and only if fewer than 32 insertions have followed |
| TlbRetention.InsertedStays | src/cpu/tlb.rs:137-177 | a page just inserted is found after up to 31 further insertions of any pages, its own included, and any fences not meant for it |
| TlbRetention.WorkingSetStays | src/cpu/tlb.rs:103-148 | a run of translations from an empty TLB that asks for at most 32 different pages leaves every one it translated to be found |
| TlbFences.FencedTranslationIsWalk | src/cpu/tlb.rs:103-177 | over every run of translations, fences and arbitrary rewrites of page tables and roots, a translation equals the walk of the tables as they are now, on every page unchanged since a fence covered it, with the execute-only exception alone |
| TlbFences.FenceStaysCoherent | src/cpu/tlb.rs:151-177 | after a fence, entries of the pages in its scope are gone and all others still agree with the walk unless they were stale |
| TlbFences.FenceSettles | src/cpu/tlb.rs:151-177 | a fence whose scope covers every changed page makes the TLB coherent with the new tables |
| MmuDevice.Tlb.Lookup | src/cpu/tlb.rs:103-134 | the scan over the entries is the specified first match, counters included |
| MmuDevice.Tlb.Insert | src/cpu/tlb.rs:137-148 | round-robin insertion as specified |
| MmuDevice.Tlb.Flush | src/cpu/tlb.rs:151-177 | the flush loops clear exactly the entries in scope |
| MmuDevice.TranslateSv32 | src/cpu/mmu.rs:148-237 | the two-level loop with its entry write-back is the specified walk |
| MmuDevice.UseLeaf | src/cpu/mmu.rs:186-232 | what a found leaf leads to: alignment, permission, A and D, and the TLB entry |
| MmuDevice.TranslateWithTlb | src/cpu/pipeline/mod.rs:1337-1373 | lookup, permission check, walk and insertion together are the specified translation |
| NpuSpec.AlignedEverywhere | src/peripheral/npu.rs:324-338 | elements are four bytes apart, so the check made for each is decided by the first |
| NpuSpec.ElementSucceeds | src/peripheral/npu.rs:341-363 | one element can be processed exactly when both operands can be read and the result written |
| NpuSpec.AsyncRefinesSync | src/peripheral/npu.rs:400-478 | whatever the budgets, ticks that empty the queue leave the memory, cycles, done and error counts of running every item to its end in order, overlapping operands included |
| NpuSpec.TicksNeeded | src/peripheral/npu.rs:400-478 | aligned work of N elements under budget b is finished by k ticks if and only if k is at least ceil(N / b) |
| NpuSpec.DrainRemaining | src/peripheral/npu.rs:400-478 | a tick spends its whole budget while there is work and never more |
| NpuSpec.EmptiesExactlyWhenMapped | src/peripheral/npu.rs:440-470 | some sequence of ticks empties the queue if and only if all operands of its aligned items are mapped |
| NpuSpec.SoftNotifyRefinesSync | src/peripheral/npu.rs:480-553 | a vector descriptor handled softly and ticked until done leaves the device and memory as executing it on the spot does |
| NpuRuns.QueueingRefinesImmediate | src/peripheral/npu.rs:400-553 | over every run of notifications and ticks interleaved, vector work joining queued work as long as its descriptor is readable and apart from results still to come, an emptied queue leaves registers, counters, status bits and memory as doing everything at once does |
| NpuRuns.HangsExactlyWhen | src/peripheral/npu.rs:496-513 | a notification leaves an idle queueing device busy with nothing queued, which no tick changes, if and only if it asks for vector work whose descriptor cannot be read to its end; done at once that is one error counted |
| NpuSpec.ComputeMeans | src/peripheral/npu.rs:72-80 | opcodes mean wrapping sum and product, unsigned maximum, signed maximum with zero; unknown ones are sums |
| NpuSpec.WrappingMulIs | src/peripheral/npu.rs:251-264 | the product modelled as repeated wrapping addition is the product modulo 2^32 |
| NpuSpec.ScalarMeans | src/peripheral/npu.rs:368-383 | a scalar descriptor with an unreadable operand is one error and nothing else; otherwise it counts as done, its result is in the register and, if memory takes it, in memory, and a refused result counts as an error too |
| NpuMeaning.VectorEntryMeans | src/peripheral/npu.rs:284-366 | a vector descriptor's four words, as they stand at base, base + 4, + 8 and + 12, decide: with ranges mapped and results behind the operands, word i at the fourth becomes sum, product or maximum of the words at the second and third as they stood, nothing else in memory changes, and one done and a cycle an element are counted |
| NpuMeaning.VectorEntryStops | src/peripheral/npu.rs:318-366 | where element k cannot be read or stored, exactly the k before it are in place and one error is counted |
| NpuMeaning.VectorEntryMisaligned | src/peripheral/npu.rs:318-338 | a misaligned address is one error and leaves memory alone |
| NpuMeaning.VectorNotifyMeans | src/peripheral/npu.rs:400-553 | a notification of such a descriptor has that effect, at once or queued and ticked until empty, and leaves the device idle and done, its interrupt set if enabled |
| NpuMeaning.ScalarEntryMeans | src/peripheral/npu.rs:368-383 | a scalar entry puts the result of the words its second and third point to where its fourth says, and changes nothing else |
| NpuMeaning.ScalarListMeans | src/peripheral/npu.rs:284-384 | a list of scalar entries sixteen bytes apart, none touching a later one, puts every result of the operands as they stood at the start in its place and changes nothing else |
| NpuMeaning.ScalarNotifyMeans | src/peripheral/npu.rs:480-553 | a notification of such a list does so and leaves the device idle and done |
| NpuDevice.Npu.Tick | src/peripheral/npu.rs:400-478 | the budgeted loops over queue and elements are the specified tick, also when memory fails; they terminate |
| NpuDevice.Npu.RunVector | src/peripheral/npu.rs:318-366 | the synchronous element loop is the specified run of one item |
| NpuDevice.Npu.ProcessElement | src/peripheral/npu.rs:341-363 | two loads, the operation, one store, with what a refused store leaves behind |
| NpuDevice.Npu.ProcessFront | src/peripheral/npu.rs:440-470 | elements of the front item up to a limit, stopping at its end or at an error |
| NpuDevice.Npu.RunScalarEntry | src/peripheral/npu.rs:368-383 | a scalar descriptor, which counts as done before its result is stored |
| NpuDevice.Npu.ExecuteDescriptorEntry | src/peripheral/npu.rs:284-384 | one descriptor, scalar or vector |
| NpuDevice.Npu.ProcessPendingDescriptorNotify | src/peripheral/npu.rs:480-553 | notification is the specified one on registers, queue, memory and result |
| VirtioRuns.DescriptorLayout | src/peripheral/virtio_block.rs:633-662 | a descriptor laid out by section 2.6.5 of VirtIO 1.1 is the one the device reads |
| VirtioRuns.RequestLayout | src/peripheral/virtio_block.rs:516-545 | a request laid out by section 5.2.6 is the one the device carries out |
| VirtioRuns.SlotsNeedPowerOfTwo | src/peripheral/virtio_block.rs:467-470 | index modulo queue size names the slot of every count if and only if the size is a power of two |
| VirtioRuns.ServeAnswers | src/peripheral/virtio_block.rs:434-514 | a service answers exactly the next offered head: its element goes to slot k mod size, the used index advances by one, all other ring contents stay |
| VirtioRuns.NotifyStep | src/peripheral/virtio_block.rs:421-514 | a notification answers one pending head with the length moved, or, with none pending, changes neither memory nor disk |
| VirtioRuns.AnswersInOrder | src/peripheral/virtio_block.rs:434-514 | over every run the guest drives by the rules, the answers in the used ring are the offered heads in order, each once; never past the available index, across 16-bit wrap-around |
| VirtioRuns.FreshRun | src/peripheral/virtio_block.rs:199-244 | a device with a queue in place and nothing announced starts such a run |
| VirtioRuns.NotifiesAnswer | src/peripheral/virtio_block.rs:421-514 | one chain per notification: as many notifications as open heads answer them all, and no more happens after |
| VirtioRuns.LengthTellsSuccess | src/peripheral/virtio_block.rs:477-497 | a chain succeeds if and only if it can be carried out, and the length answered is 0 if and only if it failed |
| VirtioStatus.StatusTells | src/peripheral/virtio_block.rs:434-514 | after the whole service, publishing included, the byte at the address the third descriptor holds is 0 if the chain could be carried out and 1 if not: header of 16 bytes, type 0 or 1, sector and end on the disk, buffer mapped |
| VirtioStatus.NotifyTellsStatus | src/peripheral/virtio_block.rs:421-514 | the same for a notification in any run the guest drives by the rules |
| VirtioStatus.UsedTells | src/peripheral/virtio_block.rs:434-514 | the used ring holds head and length at used + 4 + index mod size * 8, length 0 for a chain that failed, and its index at used + 2 has advanced by one |
| VirtioStatus.ReadChainMeans | src/peripheral/virtio_block.rs:516-588 | a chain of type 0 leaves in its buffer the bytes of the disk from 512 times its sector on, and the disk as it was |
| VirtioStatus.WriteChainMeans | src/peripheral/virtio_block.rs:516-588 | a chain of type 1 lays its buffer over the disk from 512 times its sector on and changes no other byte of it |
| VirtioStatus.RegistersTell | src/peripheral/virtio_block.rs:477-514 | the registers name the chain, its request and what became of it |
| VirtioStatus.IdleTells | src/peripheral/virtio_block.rs:434-475 | with nothing to take, memory and disk stay and the registers say why |
| VirtioDisk.ChainKeepsDisk | src/peripheral/virtio_block.rs:516-588 | no chain changes the disk's size or a byte its write request does not cover; reads and malformed chains change nothing |
| VirtioDisk.RunKeepsRange | src/peripheral/virtio_block.rs:516-588 | over a run, bytes no answered chain writes to keep their value |
| VirtioDisk.DiskRoundTrip | src/peripheral/virtio_block.rs:545-588 | a range written by one chain and read back by a later one, with no write to it between, returns the guest's bytes, for any length and any buffer |
| VirtioDevice.VirtioBlock.CopyIn | src/peripheral/virtio_block.rs:562-570 | the copy loop from disk, with window and partial transfer, is the specified one |
| VirtioDevice.VirtioBlock.CopyOut | src/peripheral/virtio_block.rs:571-579 | the copy loop to disk likewise |
| VirtioDevice.VirtioBlock.ProcessDescriptorChain | src/peripheral/virtio_block.rs:516-588 | parsing and transfer have exactly the specified effect and error cases |
| VirtioDevice.VirtioBlock.ReadDescriptor | src/peripheral/virtio_block.rs:641-662 | the descriptor with this number, unless it is out of the queue or unreadable |
| VirtioDevice.VirtioBlock.ReadRequest | src/peripheral/virtio_block.rs:516-545 | the request of a chain, with every way it can be malformed |
| VirtioDevice.VirtioBlock.ResolveStatusDesc | src/peripheral/virtio_block.rs:590-619 | where the third descriptor asks for the status byte |
| VirtioDevice.VirtioBlock.PutUsedElem | src/peripheral/virtio_block.rs:621-631 | head, then length, of a used element; the second only if the first was stored |
| VirtioDevice.VirtioBlock.TakeNext | src/peripheral/virtio_block.rs:439-475 | the next head, or why there is none, on every register |
| VirtioDevice.VirtioBlock.AnswerChain | src/peripheral/virtio_block.rs:477-513 | counters, status byte, used element, used index and interrupt of one chain |
| VirtioDevice.VirtioBlock.ExecuteDescriptorQueue | src/peripheral/virtio_block.rs:434-514 | one service is the specified one on every register, the rings, the disk and memory |
| VirtioDevice.VirtioBlock.ProcessPendingDescriptorNotify | src/peripheral/virtio_block.rs:421-432 | a pending notification is taken once and served |
| LpuSampling.RankedSorts | src/peripheral/lpu.rs:364-367 | the ranking is the candidates, score descending and id ascending |
| LpuSampling.RankingIsUnique | src/peripheral/lpu.rs:364-367 | there is only one such ranking, so the unstable sort cannot matter |
| LpuSampling.TopIsGreedy | src/peripheral/lpu.rs:640-649 | the best ranked candidate is the one the greedy loop finds |
| LpuSampling.TopKBound | src/peripheral/lpu.rs:359-401 | the token returned belongs to a candidate with fewer than top_k candidates ahead of it |
| LpuSampling.TopKIsGreedy | src/peripheral/lpu.rs:372-374 | with top_k at most 1 or temperature at most 1 the result is the greedy one and the seed stays |
| LpuSampling.TicketsOwned | src/peripheral/lpu.rs:391-400 | a ticket picks place i if and only if it lies between the sums before and after it; the fallback is unreachable |
| LpuSampling.TicketCount | src/peripheral/lpu.rs:384-400 | place i is picked by exactly as many tickets as its weight if and only if the sum of weights up to it fits 64 bits; beyond, by what is left below the limit |
| LpuSampling.TicketsRunOut | src/peripheral/lpu.rs:384-400 | with 8589935 candidates of the highest score and one of the lowest at temperature 2, and with any more, the last has a weight and no ticket |
| LpuSampling.SeedsPermute | src/peripheral/lpu.rs:351-357 | the generator permutes the 32-bit numbers, so every output has exactly one seed before it |
| LpuSampling.ReachableDraws | src/peripheral/lpu.rs:351-357 | some output of the 32-bit generator picks place i if and only if its tickets start below 2^32 |
| LpuSampling.LastNeverSampled | src/peripheral/lpu.rs:359-401 | among candidates of the highest score and one of the lowest at temperature 2, no seed samples the last, which has a weight |
| LpuDraws.TopKDraws | src/peripheral/lpu.rs:351-401 | in numbers: the next seed is seed * 1664525 + 1013904223 mod 2^32, the ticket its remainder by the summed weights, and the token the one of the top_k best whose weights 1 + (score - least) * 1000 / temperature the ticket falls into |
| LpuDraws.NucleusDraws | src/peripheral/lpu.rs:408-472 | the same among the fewest best that hold p thousandths of all weights; one alone is returned without a draw |
| LpuSampling.ThresholdExact | src/peripheral/lpu.rs:440-442 | the saturating threshold equals ceil(total * p / 1000) if and only if the product is at most 18446744073709551000 |
| LpuSampling.NucleusIsShortest | src/peripheral/lpu.rs:444-452 | a prefix of the ranking reaches the threshold if and only if it is at least as long as the kept set |
| LpuSampling.NucleusExactlyWhen | src/peripheral/lpu.rs:440-452 | the kept set is the shortest prefix holding the promised share if and only if the product stays below the limit or no prefix sum lies between the threshold the product sticks at and that share |
| LpuSampling.NucleusTooSmall | src/peripheral/lpu.rs:433-442 | above the limit it is not: 20000 candidates, at most 8590 kept where all are due |
| LpuSampling.NucleusBound | src/peripheral/lpu.rs:454-471 | the sampled token's rank is below the nucleus size |
| LpuSampling.NucleusIsGreedy | src/peripheral/lpu.rs:418-420 | with temperature at most 1 nucleus sampling is the greedy choice |
| LpuSpec.ClassifyMeans | src/peripheral/lpu.rs:492-500 | tokens are white space, letters, digits, other printable ASCII and the rest |
| LpuSpec.BagIsSum | src/peripheral/lpu.rs:612-631 | a bag pools to the sum of its tokens' embeddings modulo 2^32, and fails exactly when a token cannot be read |
| LpuSpec.TokensAreClasses | src/peripheral/lpu.rs:593-610 | with input and output apart, a finished tokenization holds the class of every input byte, as it was at the start, in its word of the output |
| LpuMeaning.EntryDoneExactly | src/peripheral/lpu.rs:514-591 | a descriptor is one more done if and only if its four words can be read, its opcode is 0x10 to 0x14, its input can be read, sampling has a candidate, and every byte of its output takes the store; otherwise one more error |
| LpuMeaning.TableEntryMeans | src/peripheral/lpu.rs:612-719 | a bag, greedy or sampling descriptor leaves in its output word the sum of embeddings, the first maximum or the token sampled from the words of its table, and changes nothing else |
| LpuMeaning.TokenizeEntryMeans | src/peripheral/lpu.rs:593-610 | a tokenizing descriptor leaves the class of every input byte in its word of the output, and changes nothing else |
| LpuCompletion.ListDoneExactly | src/peripheral/lpu.rs:725-751 | a list counts as done exactly the entries that can be done in the memory they meet, and as errors all others, modulo 2^32 |
| LpuCompletion.ListDoneFromStart | src/peripheral/lpu.rs:725-751 | if no entry stores over the list, those are the entries that can be done in the memory the list starts from |
| LpuDevice.Lpu.SampleFromCandidates | src/peripheral/lpu.rs:359-401 | the sampling loops compute the specified token and seed |
| LpuDevice.Lpu.SampleFromNucleus | src/peripheral/lpu.rs:408-472 | the nucleus loops compute the specified token and seed |
| LpuDevice.Lpu.TotalWeight | src/peripheral/lpu.rs:384-386 | the saturating sum of the weights |
| LpuDevice.Lpu.PickPlace | src/peripheral/lpu.rs:391-400 | the ticket loop finds the specified place |
| LpuDevice.Lpu.TakeNucleus | src/peripheral/lpu.rs:444-452 | the prefix loop keeps as many as specified, with their weight |
| LpuDevice.Lpu.PoolBag | src/peripheral/lpu.rs:612-631 | the wrapping sum of the embeddings, unless a token cannot be read |
| LpuDevice.Lpu.ReadTable | src/peripheral/lpu.rs:674-678 | the scores in order, unless one cannot be read |
| LpuDevice.Lpu.Argmax | src/peripheral/lpu.rs:640-649 | the greedy loop over memory finds the first of the highest scores |
| LpuDevice.Lpu.Tokenize | src/peripheral/lpu.rs:593-610 | byte by byte classification into memory, with what a failure leaves |
| LpuDevice.Lpu.Execute | src/peripheral/lpu.rs:593-719 | every operation's memory, result, seed and failure |
| LpuDevice.Lpu.ExecuteDescriptorEntry | src/peripheral/lpu.rs:514-591 | one descriptor is the specified one, in the order its words are read |
| LpuDevice.Lpu.ProcessPendingDescriptorNotify | src/peripheral/lpu.rs:725-751 | a pending list is run once, in order, and the status bits follow |
| PlicSpec.ScanFindsBest | src/interrupt/plic.rs:269-317 | looking at the sources in order finds the eligible one of greatest priority, lowest number on ties, or 0 |
| PlicSpec.BestIsUnique | src/interrupt/plic.rs:269-317 | only one answer satisfies that |
| PlicSpec.ClaimIs | src/interrupt/plic.rs:269-343 | a claim answers the pending, enabled source from 1 to 1023 with a priority above the threshold that is highest, and lowest in number among those; 0 if and only if there is none |
| PlicSpec.ClaimsInOrder | src/interrupt/plic.rs:322-343 | as many claims as there are eligible sources return each once, by priority and then number |
| PlicSpec.ClaimsWithdraw | src/interrupt/plic.rs:322-343 | exactly those sources leave the pending set, and the next claim returns 0 |
| PlicDevice.Plic.BestPendingSource | src/interrupt/plic.rs:269-317 | the loop over words and set bits returns that source |
| PlicDevice.Plic.ScanWord | src/interrupt/plic.rs:284-314 | one word's bits, lowest first, carry the best so far on |
| PlicDevice.Plic.IsEnabled | src/interrupt/plic.rs:189-208 | the mask test is membership in the context's sources |
| PlicDevice.NextBit | src/interrupt/plic.rs:289-292 | trailing zeros and clearing the lowest bit visit the set bits of a word in order |
| PlicDevice.Plic.SetPending | src/interrupt/plic.rs:108-114 | adds exactly this source to the pending set, source 0 and numbers past the end excepted |
| PlicDevice.Plic.ClearPending | src/interrupt/plic.rs:117-123 | removes exactly this source |
| PlicDevice.Plic.SetEnable | src/interrupt/plic.rs:158-181 | adds or removes exactly this source in one context |
| PlicDevice.Plic.SetPriority | src/interrupt/plic.rs:137-141 | keeps the low three bits and touches no other source |
| PlicDevice.Plic.ClaimIn | src/interrupt/plic.rs:322-343 | returns the best source, withdraws it and nothing else, and records it unless there is none |
| PlicDevice.Plic.Complete | src/interrupt/plic.rs:348-365 | clears the record if it matches and withdraws the source from the pending set, as the specified step does |
| PlicRuns.CompleteKeepsPending | src/interrupt/plic.rs:348-365 | completing a number keeps the pending set if and only if it is no source or is not pending |
| PlicRuns.ReraisedIsLost | src/interrupt/plic.rs:322-365 | raise, claim, raise, complete leaves the controller as it was: no run without a further raise delivers the second request, in either context |
| PlicRuns.RequestsAccounted | src/interrupt/plic.rs:108-365 | over every run in both contexts, with any configuration changes, each request of a source is delivered by exactly one claim, dropped, or still open |
| PlicRuns.DeliversAllExactlyWhen | src/interrupt/plic.rs:108-365 | a run delivers every request it does not leave open if and only if no completion and no lowering of the source meets it pending |
| Doorbell.SubmitAccounts | src/memory/bus.rs:252-315 | a submit to the language unit accounts each descriptor once, as completed exactly if it can be done when it is reached, even when the unit's 32-bit counters wrap meanwhile |
| Doorbell.SubmitTells | src/memory/bus.rs:252-315 | after a submit to engine 1 the counters have grown by the entries that could be done and by those that could not, and the status is DONE alone if and only if there were none of those, else DONE with ERROR |
| Doorbell.SubmitTellsFromStart | src/memory/bus.rs:252-315 | the same by what memory says before the submit, for a list that does not store over itself |
| Doorbell.SubmitElsewhere | src/memory/bus.rs:252-275 | engines above 3 give ERROR and one error, engines 0, 2 and 3, not attached here, leave BUSY; unit and memory stay |
| Doorbell.Conservation | src/memory/bus.rs:252-315 | over every run, completes grow by the descriptors that could be done when they were reached, and errors by all other descriptors submitted plus one for each unknown engine, whatever happens to unit and memory in between |
| Doorbell.StaysBusy | src/memory/bus.rs:258-275 | BUSY stays exactly for an engine that exists and is not attached |
| Doorbell.BusyAfter | src/memory/bus.rs:252-315 | after any run BUSY is set if and only if the last submit named an engine that exists and is not attached; without a submit it is as before |
| Doorbell.AccBus.SubmitAccDoorbell | src/memory/bus.rs:252-315 | the submit is the specified one on registers, unit and memory |
| Doorbell.AccBus.Hand | src/memory/bus.rs:277-287 | writing the descriptor registers and notifying runs the list at once |
| FdtSpec.NodeRoundTrip | src/main.rs:901-918 | any tree laid out in tokens, names and padding is read back by the reader of the Devicetree Specification |
| FdtSpec.BlobRoundTrip | src/main.rs:957-983 | any blob below 2^32 bytes reads back as its tree, with no reservation and boot hart 0; offsets, sizes and name references agree |
| FdtSpec.TotalSizeIsLength | src/main.rs:957-972 | the total size stored is the blob's length if and only if that fits 32 bits |
| FdtSpec.TableLookup | src/main.rs:920-934 | the name found at a name's offset in the strings block is that name |
| FdtMeaning.BlobIs | src/main.rs:957-983 | a blob is ten header numbers from 0xd00dfeed on, sixteen zeros, structure and strings, where the header says they are |
| FdtMeaning.NodeIs | src/main.rs:901-918 | a node is the number 1, its name, a 3 with length, name offset and value for each property, its children and a 2; a 9 ends the structure |
| FdtMeaning.LinuxReads | src/main.rs:936-955 | what is read back says one-word cells, one bank of the given size at 0x80000000, and the command line |
| Devicetree.DevicetreeRoundTrip | src/main.rs:890-985 | for every memory size, the blob reads back as the intended tree if and only if the command line has at most 4294966979 bytes |
| Devicetree.BlobLength | src/main.rs:957-985 | the blob is 301 bytes, plus the padded command line property |
| Devicetree.GenerateMinimalLinuxDtb | src/main.rs:890-985 | the writer's output is the layout of the intended tree |
| Devicetree.Buffer.PushProp | src/main.rs:912-918 | a property token, length, name offset, data and padding |
| Devicetree.Buffer.Align4 | src/main.rs:895-899 | zeros up to the next multiple of four |
| FdtSpec.BERoundTrip | src/main.rs:891-893 | the four bytes pushed for a number read back, big-endian, as its low 32 bits |
| Devicetree.Buffer.PushBeginNode | src/main.rs:901-906 | token, name, NUL and padding |
| Devicetree.AddName | src/main.rs:920-926 | each name is added at the offset the table has for it |
| Devicetree.WriteHeader | src/main.rs:964-978 | the ten header words in order |
| ConvSpec.Flat3InBounds | src/peripheral/gpu.rs:558-568 | flattened indices of image and output cells are in bounds |
| ConvSpec.Flat4InBounds | src/peripheral/gpu.rs:561-562 | flattened indices of filter cells are in bounds |
| ConvSpec.Flat3Unique | src/peripheral/gpu.rs:568 | coordinates can be read off a flattened index, so no two cells share a place |
| ConvSpec.WindowIs | src/peripheral/gpu.rs:548-559 | the taps of an output cell are exactly the kernel cells that fall inside the image, each once, in row order |
| ConvSpec.WindowFits | src/peripheral/gpu.rs:539-551 | kernel cells of every output cell stay within the padded image |
| ConvSpec.HighestIsMaximum | src/peripheral/gpu.rs:596-612 | over ordered values no tap exceeds the pooled value, which is one of them or the start value |
| ConvMeaning.ConvolutionIs | src/peripheral/gpu.rs:546-568 | the sum of an output cell walks channels and kernel cells in order, adds image times weight at their places written out, and leaves out kernel cells outside the image |
| ConvMeaning.MaximumIs | src/peripheral/gpu.rs:596-612 | the pooled maximum is the same walk keeping what is greater |
| ConvMeaning.MeanIs | src/peripheral/gpu.rs:638-656 | the pooled mean is the walk's sum divided by the number of kernel cells inside the image, zero if there are none |
| ConvMeaning.RegistersSay | src/peripheral/gpu.rs:946-1018 | each register holds a height or input channels above a width or output channels, and exactly sizes, strides and channels of zero are refused |
| ConvSpec.GuardsOmitFit | src/peripheral/gpu.rs:950-1023 | parameters the guards of convolution and pooling accept give the right output sizes if and only if the kernel is no larger than the padded image, and whenever the padded image has fewer than 65535 rows some larger kernel is accepted |
| ConvSpec.MachineOutExact | src/peripheral/gpu.rs:539-540 | the output size computed in 64-bit unsigned arithmetic is the number of window positions if and only if the kernel fits; otherwise the subtraction goes below zero, there is no position, and the size exceeds 2^48 |
| ConvKernels.Conv2d | src/peripheral/gpu.rs:525-573 | every output cell is the sum in channel, row and column order of the products over the in-image part of its window |
| ConvKernels.MaxPool2d | src/peripheral/gpu.rs:578-618 | every output cell is the maximum over that part of its window |
| ConvKernels.AvgPool2d | src/peripheral/gpu.rs:621-661 | every output cell is the mean over that part, zero if there is none |
| ConvKernels.AddTap | src/peripheral/gpu.rs:550-564 | one kernel cell adds its product exactly if it falls inside the image |
| ConvKernels.ConvCell | src/peripheral/gpu.rs:546-568 | the sum of one output cell, in order |
| ConvKernels.MaxCell | src/peripheral/gpu.rs:596-612 | the maximum of one output cell |
| ConvKernels.AverageCell | src/peripheral/gpu.rs:638-656 | the mean of one output cell |
| Codec.LuiRoundTrip | src/visualize/linux_fb_program.rs:77-79 | decodes to the register and the shifted immediate; all of it is there if and only if it fits 20 bits |
| Codec.AddiRoundTrip | src/visualize/linux_fb_program.rs:81-84 | decoding gives back registers and signed immediate if and only if that is between -2048 and 2047 |
| Codec.ShRoundTrip | src/visualize/linux_fb_program.rs:86-92 | the same for the split store immediate |
| Codec.BneRoundTrip | src/visualize/linux_fb_program.rs:94-111 | the same for the scrambled branch offset: even, -4096 to 4094 |
| Codec.JalRoundTrip | src/visualize/linux_fb_program.rs:113-123 | the same for the scrambled jump offset: even, -1048576 to 1048574 |
| Codec.DecodeThenEncode | src/instruction/decoder.rs:86-211 | every word of the five instructions is what its encoder makes of the decoded fields |
| CodecLayout.DecodesAsDrawn | src/instruction/decoder.rs:86-211 | a word that is the sum of its six fields decodes, by opcode, to those fields and to the immediates cut from them as the RISC-V manual draws them |
| CodecLayout.SixFields | src/instruction/decoder.rs:86-211 | every word is six such fields |

## Left out

- Accesses that cross a 16-byte line: the source sends them past the cache, so the transparency claims are for accesses inside one line.
- `Cache::invalidate` and `flush_all` without a bus drop dirty data by design; only `reset` is modelled beside the variants that write back.
- Memory-mapped side effects behind the cache: its bus is RAM only.
- 64-bit cache, TLB and walk statistics are unbounded counts; their overflow is not modelled.
- Addresses that would wrap past the last one are refused here; the source wraps 32-bit addresses in release builds.
- Error payloads and messages: an error is a failure without text.
- MmuDevice.TranslateWithTlb: a TLB hit for a store does not set the D bit, in the source and here; D is claimed for walks only.
- Satp decoding, trap entry and how the pipeline uses a translation beyond lines 1320-1373.
- NpuRuns.QueueingRefinesImmediate: a scalar or unreadable list, or an outside store, that comes while work is queued overtakes that work, in the source and here, so the claim is for runs without them.
- NPU START (a scalar operation from the registers) while vector work is queued, and the register file around it.
- VirtIO: the register-driven queue without descriptors, the command register, and feature negotiation; descriptor addresses near 2^64 are refused instead of wrapping.
- LPU: the single-step operations from registers and the statistics counters, which only add.
- LpuDevice.Lpu.ExecuteDescriptorEntry: a descriptor address near 2^64 does not wrap.
- PLIC: harts other than hart 0, for which the source does nothing, and byte-wise register windows; `claim` and `claim_supervisor` are one method with a context flag, as are the two completes.
- Doorbell: NPU, GPU and TPU as attached engines; DESC_ADDR and DESC_LEN are handed over as whole registers, and the STATUS register's write-one-to-clear is not modelled.
- Devicetree.GenerateMinimalLinuxDtb: the totalsize sum is stored modulo 2^32, where a debug build of the source would stop.
- GPU: tensor descriptors and the transfer of tensors from and to memory; the kernels are modelled for shapes that fit, since for a larger kernel the output size underflows (`ConvSpec.MachineOutExact`).
- GPU matrix multiplication and element-wise kernels: single loops without window arithmetic.
- Floating-point rounding: the kernels are generic in the number type and its operations.
- UART, CLINT, input, TPU, CSRs, the pipeline, debug and visualisation servers: not part of this model.
