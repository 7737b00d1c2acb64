# A verified model of a SystemC/TLM design: caches, bridges and a CNN accelerator

This Dafny project models the parts of the repository whose correctness cannot be read off one function,
and proves what they are for.  `dafny verify dfyconfig.toml` checks all of it.

**ACE caches** (`cache-ace.h`, with the merging interconnect of `iconnect-ace.h`).  Any number of
direct-mapped caches, write-back or write-through, and masters without a cache share one memory.
`AceTypes`, `AceSnoop` and `AceSystem` are the protocol as a transition system: a coherent request is
announced, other masters may run, then it snoops, merges the answers, writes passed dirty data down and
updates the requester's line in one step; snoops wait while a WriteBack, WriteClean or Evict is outstanding.
`AceCoherence`, `AceRefinement` and `AceRuns` prove that the system refines one flat byte memory;
`AceEffects` is what each request does, `AceBytes` what a stored payload means byte by byte,
`AcePayloadRuns` says which payloads a store loop can be given.  `AcePayload`, `AceInterference` and
`AceMaster` are the cache class with its load and store loops, eviction and snoop handlers, in place, with
arbitrary steps of the other masters at every point where the code waits.

**CNN accelerator** (`DMA.cc`, `maa.cc`, `Right.cc`, `LEFT.cc`, `Processor.h`).  `DmaEngine` gives the
descriptor engine in closed form, `Dma` is the module in place.  `Systolic` is the chain of
multiply-accumulate registers fed by staggered engines, over any arithmetic and in the hardware's order of
accumulation, so the results hold for rounded floats too; `Convolution` reads the result as a multi-channel
2-D convolution over the integers.  `Accelerator` runs the chain as SystemC does: edge, then delta cycles
until no forwarded signal changes.  `Processor` runs source, RAMs, chain and loopback engine together from
edge to edge, `ShippedProcessor` with the program of `descriptors.h`, and `Loopback` is about the delay word
of the loopback engine.

**Aligner** (`tlm-aligner.h`).  `Bits` and `Alignment` specify cuts and meaning, `Aligner` is the transport
loop.

**XGMII** (`tlm2xgmii-bridge.h`, `xgmii2tlm-bridge.h`; control characters of clause 46 of IEEE 802.3).
`Xgmii` is the wire format and the decoder's state machine, `XgmiiWire` the symbols of a packet,
`XgmiiBridges` the two bridges.

**AXI** (`tlm2axi-bridge.h`, `axi2tlm-bridge.h`, `checker-axi.h`, `checker-utils.h`; section A3.4 of ARM IHI
0022D for the lanes).  `AxiBeats` and `AxiBridges` are the data beats in both directions and the strobe
checker; `AxiScheduler` and `Axi2Tlm` the scheduling of transactions by thread, ID and page, `AxiHistory`
what its states say about the steps before; `Handshakes` the handshake checker's accounting.

**Remote port** (`remote-port-proto.c`, `remote-port-tlm.cc`).  `RemotePort` is the codec and the framing of
the byte stream, `RemotePortLayout` the bytes of a packet, `ResponseSlots` the response slots of all devices
with nested waits, `RemotePortTlm` writers, reader, devices and adaptor in place.

`Arithmetic` and `MachineTypes` hold shared facts and types.

## Where the code does not do what it is meant to

Each of these is kept as the code has it, and the exact condition under which the code is right is proved.

- A whole-line store with sparse byte enables through MakeUnique overwrites the disabled bytes with what the slot
  held.  `AceRuns.MakeUniqueExact` is the condition for one request, `AcePayloadRuns.WriteBackExactly` for a payload
  over all runs; `AcePayloadRuns.SparseRun` is a run that ends in a wrong load.
- A write-through store updates its own cached copy only for chunks that start before their own length:
  `AceRuns.WriteUniqueExact`, `AcePayloadRuns.WriteThroughExactly` and `AcePayloadRuns.LateRun` in the same way.
- The loopback engine stores window n one word late, because it starts one edge before window 0:
  `Loopback.LoopbackExactly` is the condition on the delay word, `Loopback.ShippedFirstWord` weights and images for
  which the first word is wrong.
- The XGMII fast path has no overrun check, so the longest packet differs by mode and 10G overruns the buffer
  beyond it (`Xgmii.PacketTen`, `Xgmii.PacketOne`, `Xgmii.FastAgrees`).
- `FillData` loses bytes of narrow bursts when a bus word carries more than one beat: `AxiBeats.RebuiltExactly`, over
  all byte enables; `AxiBridges.WriteThrough` says which bytes arrive.
- Byte enables written behind the old remote-port layout are not announced and break the framing
  (`RemotePort.FramedExactly`), and the low half of the master ID is converted twice
  (`RemotePort.MasterIdExactly`).  The comment that a response's layout depends on the request does not match the
  code: the response attributes start as zero, so only the peer's capability counts (`RemotePort.ResponseReadBack`).
- An answer read by a nested `response_wait` does not wake the outer one, which goes on waiting until another answer
  is read at its own level: `ResponseSlots.WaitReturnsExactly` and `ResponseSlots.UntilReturnsExactly` say when a wait
  returns, `ResponseSlots.NestedAnswerUnnoticed` is a run on any table that blocks with its answer delivered.

## Model

| member | source | states |
|---|---|---|
| AceRuns.LoadsReturnLastStore | systemc/libsystemctlm-soc/tlm-modules/cache-ace.h:1313-1357 | in every run of any number of write-back and write-through caches and cacheless masters from an initial state, with stores as the two exact results below allow, a load (or ReadOnce) returns for each byte what any master stored there last, whatever the interleaving of stores, fills, evictions and snoops |
| AceRuns.RunSound | systemc/libsystemctlm-soc/tlm-modules/cache-ace.h:1584-1660 | the coherence invariant against the flat memory of all stores so far holds in every state of every run |
| AceRefinement.StepSound | systemc/libsystemctlm-soc/tlm-modules/cache-ace.h:1029-1048 | one step of any master (hit, start or completion of a write, of a request, of an I/O access) keeps the invariant, with the flat memory changed by exactly the store the step performs |
| AceRefinement.StepCoherent | systemc/libsystemctlm-soc/tlm-modules/cache-ace.h:151-365 | the same for one line at a time: after the step the line is coherent with the block the flat memory then holds |
| AceRefinement.StepStructural | systemc/libsystemctlm-soc/tlm-modules/cache-ace.h:966-1005 | valid lines stay in the slot of their tag and pending operations keep matching the line they announced |
| AceRefinement.RequestCoherent | systemc/libsystemctlm-soc/tlm-modules/iconnect-ace.h:337-396 | a request that takes effect (snoops, merged answer, memory write, own line) leaves every line coherent; only MakeUnique, WriteUnique and WriteLineUnique change the flat block |
| AceRefinement.IoWriteCoherent | systemc/libsystemctlm-soc/tlm-modules/iconnect-ace.h:235-271 | a WriteUnique or WriteLineUnique of a master without a cache merges its bytes into the flat block of its line and nothing else |
| AceRuns.CopiesAgree | systemc/libsystemctlm-soc/tlm-modules/cache-ace.h:601-856 | of two valid lines of the same key in a reachable state both are shared, at most one is dirty and their data are equal, so an unshared line is the only copy; the one exception is a line that was lost and is re-validated only while its Evict is announced |
| AceRuns.MemoryHoldsLastStore | systemc/libsystemctlm-soc/tlm-modules/cache-ace.h:398-470 | when no copy of a line is dirty, memory holds the last stored bytes of it: evictions lose nothing |
| AceRuns.CleanSharedReachesMemory | systemc/libsystemctlm-soc/tlm-modules/cache-ace.h:858-895 | a CleanShared leaves no dirty copy of its line anywhere and memory equal to the flat memory |
| AceRuns.MakeUniqueExact | systemc/libsystemctlm-soc/tlm-modules/cache-ace.h:822-856 | a whole-line store by MakeUnique is right in every state if and only if it enables every byte |
| AceRuns.WriteUniqueExact | systemc/libsystemctlm-soc/tlm-modules/cache-ace.h:501-543 | a write-through chunk leaves the own cached copy right in every coherent state if and only if it starts before its own length (the loop compares the absolute position with the chunk length) or enables no byte |
| AcePayloadRuns.WriteBackExactly | systemc/libsystemctlm-soc/tlm-modules/cache-ace.h:1359-1423 | a write-back cache stores a payload rightly - every load of every run from an initial state in which it stores the chunks in order while the others do anything returns the last stored bytes - if and only if every chunk that fills a line enables all its bytes |
| AcePayloadRuns.WriteThroughExactly | systemc/libsystemctlm-soc/tlm-modules/cache-ace.h:1456-1486 | the same for a write-through cache: if and only if every chunk goes out as WriteLineUnique, starts before its own length or enables no byte |
| AcePayloadRuns.SparseRun | systemc/libsystemctlm-soc/tlm-modules/cache-ace.h:1410-1415 | for every payload with a sparse whole line, at any position, a run from an initial state that stores the payload up to that chunk and then loads a byte other than the last stored one |
| AcePayloadRuns.LateRun | systemc/libsystemctlm-soc/tlm-modules/cache-ace.h:518-541 | for every payload with a late chunk, at any position, a run from an initial state that stores the payload up to that chunk and then loads the stale own copy |
| AceRuns.ReplayIsLastStored | systemc/libsystemctlm-soc/tlm-modules/cache-ace.h:931-964 | replaying a log of stores gives at each byte the value of its last enabled store |
| AceCoherence.FillCoherent | systemc/libsystemctlm-soc/tlm-modules/cache-ace.h:601-773 | ReadShared, ReadNotSharedDirty, ReadClean and ReadUnique leave their line coherent with the same flat block |
| AceCoherence.CleanUniqueCoherent | systemc/libsystemctlm-soc/tlm-modules/cache-ace.h:775-820 | so does CleanUnique, also when the line was invalidated while the request waited and is re-validated only for its Evict |
| AceCoherence.MakeUniqueCoherent | systemc/libsystemctlm-soc/tlm-modules/cache-ace.h:822-856 | MakeUnique with its whole-line store leaves the line coherent with the merged block, whatever it was before |
| AceCoherence.CleanSharedCoherent | systemc/libsystemctlm-soc/tlm-modules/cache-ace.h:312-343 | CleanShared snoops write dirty data down and leave the line coherent |
| AceCoherence.CompleteWriteCoherent | systemc/libsystemctlm-soc/tlm-modules/cache-ace.h:412-470 | a WriteBack, WriteClean or Evict that completes leaves every line coherent with the same flat block, including the Evict of the re-validated line |
| AceCoherence.StoreHitCoherent | systemc/libsystemctlm-soc/tlm-modules/cache-ace.h:1373-1386 | a store into an unshared valid line makes the line coherent with the merged block |
| AceCoherence.PerformCopies | systemc/libsystemctlm-soc/tlm-modules/iconnect-ace.h:337-389 | a request changes the other copies of its own line only as the snoop of its kind does, and no other line outside the requester |
| AceEffects.OtherAfter | systemc/libsystemctlm-soc/tlm-modules/cache-ace.h:151-365 | what a request leaves of another cache's line: gone after requests for the only copy and writes, shared otherwise, and clean only after ReadShared and CleanShared |
| AceEffects.MemoryAfter | systemc/libsystemctlm-soc/tlm-modules/iconnect-ace.h:337-396 | what it leaves of memory: another cache's dirty line goes down before CleanUnique, CleanShared and WriteUnique only, written bytes are merged in, and nothing else changes |
| AceEffects.OwnAfterRead | systemc/libsystemctlm-soc/tlm-modules/cache-ace.h:601-773 | what a read brings in: data of a holder or of memory, shared exactly when another cache keeps the line, dirty exactly when a dirty line is handed over |
| AceInterference.MergeAnswers | systemc/libsystemctlm-soc/tlm-modules/iconnect-ace.h:337-389 | which port supplies the data, which one dirty data, and that IsShared is set exactly when some answering port still shares |
| AceInterference.BusWait | systemc/libsystemctlm-soc/tlm-modules/cache-ace.h:1613-1629 | while a master waits for the bus the others take any steps; the invariant holds, the waiting cache is touched only by snoops, and a snooping request goes on only when nobody holds snoops back |
| AceInterference.HitReadsFlat | systemc/libsystemctlm-soc/tlm-modules/cache-ace.h:1322-1326 | a valid line of an idle cache holds the flat block of its key |
| AceMaster.Master.HandleReadOnce | systemc/libsystemctlm-soc/tlm-modules/cache-ace.h:151-172 | in place: lines become those of the ReadOnce snoop, and the answer is the one the protocol state prescribes |
| AceMaster.Master.HandleReadShared | systemc/libsystemctlm-soc/tlm-modules/cache-ace.h:174-206 | the same for ReadShared: dirty data handed over, line kept shared and clean |
| AceMaster.Master.HandleReadClean | systemc/libsystemctlm-soc/tlm-modules/cache-ace.h:208-235 | the same for ReadClean: data supplied, dirtiness kept |
| AceMaster.Master.HandleReadNotSharedDirty | systemc/libsystemctlm-soc/tlm-modules/cache-ace.h:237-241 | the same, handled as ReadClean |
| AceMaster.Master.HandleReadUnique | systemc/libsystemctlm-soc/tlm-modules/cache-ace.h:243-276 | the same for ReadUnique: data and dirtiness handed over, line invalid |
| AceMaster.Master.HandleCleanInvalid | systemc/libsystemctlm-soc/tlm-modules/cache-ace.h:278-310 | the same for CleanInvalid: data only when dirty, line invalid |
| AceMaster.Master.HandleCleanShared | systemc/libsystemctlm-soc/tlm-modules/cache-ace.h:312-343 | the same for CleanShared: data only when dirty, line kept shared and clean |
| AceMaster.Master.HandleMakeInvalid | systemc/libsystemctlm-soc/tlm-modules/cache-ace.h:345-365 | the same for MakeInvalid: line invalid, no data |
| AceMaster.Master.EvictLine | systemc/libsystemctlm-soc/tlm-modules/cache-ace.h:398-470 | the line ends up invalid with the system still coherent; every other dirty line goes out as WriteClean and Evict, the ones between as WriteBack, clean ones as Evict |
| AceMaster.Master.EndWrite | systemc/libsystemctlm-soc/tlm-modules/cache-ace.h:1029-1048 | when the bus takes an announced write the own line is exactly the one written out, clean after WriteClean and invalid after WriteBack or Evict |
| AceMaster.Master.DoTlm | systemc/libsystemctlm-soc/tlm-modules/cache-ace.h:1029-1048 | on return the request has taken effect at once with the merged answer; before that other masters may have run, and lines that were invalid are untouched |
| AceMaster.Master.Fill | systemc/libsystemctlm-soc/tlm-modules/cache-ace.h:601-773 | after a fill the wanted line is in the cache and unshared if it was read unique; the bus has seen the eviction of the old line and then the request |
| AceMaster.Master.LoadMiss | systemc/libsystemctlm-soc/tlm-modules/cache-ace.h:1328-1341 | a load miss asks for ReadShared and ReadNotSharedDirty in turn, or ReadClean when writing through, after the eviction of the old line |
| AceMaster.Master.CleanUnique | systemc/libsystemctlm-soc/tlm-modules/cache-ace.h:775-820 | either the line is still there and unshared or it was taken away and is not there |
| AceMaster.Master.MakeUnique | systemc/libsystemctlm-soc/tlm-modules/cache-ace.h:822-856 | the line is granted without its data for any store that fills it; where the store enables no byte the line keeps what the slot held, and counts as if that had been stored |
| AceMaster.Master.CleanSharedLine | systemc/libsystemctlm-soc/tlm-modules/cache-ace.h:858-895 | CleanShared maintenance by the master itself: its own dirty line is written out, the others are asked, and when the answer comes no cache holds the line dirty and memory has the last stored bytes |
| AceMaster.Master.WriteLine | systemc/libsystemctlm-soc/tlm-modules/cache-ace.h:931-964 | byte x of the line becomes byte pos + x - offset of the payload where the chunk reaches and the payload enables it, and stays otherwise; other lines unchanged |
| AceMaster.Master.ReadLine | systemc/libsystemctlm-soc/tlm-modules/cache-ace.h:898-928 | the buffer takes the enabled bytes of the chunk from the line and keeps all others |
| AceMaster.Master.HandleLoad | systemc/libsystemctlm-soc/tlm-modules/cache-ace.h:1313-1357 | every enabled byte of the buffer is the byte last stored there by any master at some moment of the call, disabled bytes are untouched, and a chunk takes at most two rounds of the loop whatever the others do |
| AceMaster.Master.StoreRound | systemc/libsystemctlm-soc/tlm-modules/cache-ace.h:1373-1415 | one round of the store loop either writes the chunk at once or asks for what it lacks - CleanUnique for a shared line, MakeUnique when the chunk fills the line, else ReadUnique - and has the only copy then, unless another master took the line away |
| AceMaster.Master.HandleStore | systemc/libsystemctlm-soc/tlm-modules/cache-ace.h:1359-1423 | for any payload: after it every place no other master stored to meanwhile holds byte p of the payload if it is the place of an enabled byte p, and else what was last stored there (the disabled bytes of a sparse whole line excepted); the own stores are the chunks in order; at most two rounds a chunk plus the rounds lost to other masters |
| AcePayload.EnableWindow | systemc/libsystemctlm-soc/tlm-modules/cache-ace.h:1052-1105 | the byte enables sent with a chunk - a window of long ones, a turned copy of short ones - enable byte i exactly when the payload enables byte pos + i |
| AceMaster.Master.WriteThroughChunk | systemc/libsystemctlm-soc/tlm-modules/cache-ace.h:472-543 | one harmless chunk enters the log and memory as WriteLineUnique exactly when it fills a line without gaps, and the own copy, if cached, takes the same bytes and stays shared and clean |
| AceMaster.Master.HandleStoreThrough | systemc/libsystemctlm-soc/tlm-modules/cache-ace.h:1456-1486 | for exactly the payloads a write-through cache stores rightly: after it every place no other master stored to holds byte p of the payload if it is the place of an enabled byte p, and else what it held |
| AcePayload.SameLine | systemc/libsystemctlm-soc/tlm-modules/cache-ace.h:966-979 | the chunk at a position lies in one cache line |
| AcePayload.SlotOf | systemc/libsystemctlm-soc/tlm-modules/cache-ace.h:981-984 | the slot of an address is its line number modulo the number of lines |
| AceBytes.PayloadBytes | systemc/libsystemctlm-soc/tlm-modules/cache-ace.h:931-964 | a stored payload byte by byte: on any memory the stores of all its chunks leave data[p] at address addr + p for every enabled p, and every other place as it was |
| AceBytes.StoredOnLog | systemc/libsystemctlm-soc/tlm-modules/cache-ace.h:1359-1423 | the same on the log of all masters, for every place no other master stores to meanwhile |
| DmaEngine.EngineFollowsChain | systemc/DMA.cc:114-174 | after k enabled edges descriptor, RAM index and remaining count are those of the unrolled chain for any descriptor graph; a count of 0 lasts 2^32 edges |
| DmaEngine.WaitTransferAfter | systemc/DMA.cc:131-168 | a WAIT of w and a TRANSFER of c words move word start + (k - w) at edge k exactly when w <= k < w + c |
| DmaEngine.StridedTransfer | systemc/DMA.cc:131-168 | with any stride m it is word (start + (k - wait) * m) mod 2^32 |
| DmaEngine.ZeroCount | systemc/DMA.cc:131-168 | a count of 0 lasts 2^32 edges |
| DmaEngine.CyclicStream | user-apps/user_level_tb/descriptors.h:42-43 | the source engine repeats its RAM on the stream for ever |
| DmaEngine.WrittenWindow | systemc/DMA.cc:139-147 | a WAIT and TRANSFER program captures exactly that window of the stream and leaves the rest of the RAM alone |
| DmaEngine.StaggeredSplit | user-apps/user_level_tb/descriptors.h:45-64 | waits of 1, 1 + s, 1 + 2s, ... split the first pass over the source into RAMs, each holding its own part and behind it what it held before: nothing lost, nothing twice, for any s and any number of RAMs |
| Dma.Dma.LoadProgram | systemc/DMA.cc:84-94 | the descriptors are replaced and the first one is loaded |
| Dma.Dma.LoadDescriptor | systemc/DMA.cc:96-110 | descriptors arriving one by one are appended, the first one replaces the default and is loaded |
| Dma.Dma.Update | systemc/DMA.cc:114-174 | one edge or reset in place: engine state, RAM, stream output and the finished flag, reset, disabled, suspended and waiting cases included |
| Dma.FinishedExactly | systemc/DMA.cc:150-168 | trans_finished is set at the last edge of a TRANSFER and at no other |
| Dma.Dma.Receive | systemc/LEFT.cc:22-38 | k edges of a receiving engine leave the RAM of the closed form |
| Systolic.PixelMeetsSum | user-apps/user_level_tb/descriptors.h:66-118 | the bus of a tap's group carries the tap's word of window n on the edge at which the partial sum of window n arrives |
| Systolic.PartialSum | systemc/maa.cc:23-31 | the partial sum of window n leaves tap i - 1 after wait + n + i + 1 edges, in the order the hardware accumulates |
| Systolic.ChainComputesWindow | systemc/Right.cc:27-34 | after edge wait + groups * size + n, counted from 0, the last register holds the whole window n, for any width, groups, group size and arithmetic |
| Systolic.LoopbackWord | user-apps/user_level_tb/descriptors.h:120-124 | an engine that waits d edges stores window n in word n + wait + groups * size + 1 - d of its area, for any arithmetic |
| Loopback.LoopbackExactly | user-apps/user_level_tb/descriptors.h:120-124 | its area holds window n in word n, for all weights, image words and n, if and only if d is wait + groups * size + 1 |
| Loopback.ShippedLoopbackLate | user-apps/user_level_tb/descriptors.h:120-124 | the shipped program stores the convolution at row y, column x in word 512 + 10 y + x + 1, one word late |
| Loopback.ShippedFirstWord | user-apps/user_level_tb/descriptors.h:120-124 | one weight and one pixel for which word 512 is 0 although the convolution at row 0, column 0 is 1 |
| Convolution.ChainConvolves | systemc/Right.cc:231-247 | over the integers the last register is the sum over channels, rows and columns of weight times the pixel at row y + row, column x + col, for every window inside the images |
| Convolution.ShippedProgramConvolves | user-apps/user_level_tb/descriptors.h:66-118 | with the shipped descriptors it is the 3 x 3 x 3 convolution after edge 327 + 10 y + x, for all 64 windows of the 10 x 10 images |
| Processor.RamComplete | systemc/LEFT.cc:22-38 | while source, RAMs, chain and loopback engine run together, RAM i holds its part of the source from edge 1 + s (i + 1) on, and behind it what it held before |
| Processor.RegisterAt | systemc/Processor.h:34-46 | every register at every edge is that of the chain over complete RAMs, although the RAMs are filled while it runs and whatever the order of the engines within an edge |
| Processor.SourceExactly | systemc/Processor.h:34-46 | the source memory after any number of edges, word by word: the loopback area takes one register value per edge, every other word is kept |
| Processor.WindowWrittenBack | systemc/Processor.h:34-46 | end to end, window n over the parts of the source is in its word of the loopback area of the same memory |
| ShippedProcessor.ShippedScheduled | user-apps/user_level_tb/descriptors.h:42-124 | the shipped descriptors complete every RAM before a group reads it and write behind the words that are sent |
| ShippedProcessor.SourceToLoopback | user-apps/user_level_tb/descriptors.h:42-124 | from the source memory to the loopback area: word 513 + 10 y + x is the convolution of the three images the source held, whatever the RAMs held before |
| Accelerator.Right.constructor | systemc/Right.cc:242-264 | the all-zero start: registers of time 0 and settled links |
| Accelerator.Right.LoadWeights | systemc/Right.cc:36-42 | the first weights given replace those of one group, as many as both have, others unchanged |
| Accelerator.Right.Edge | systemc/maa.cc:23-31 | an enabled edge from values before the edge gives every unit, bus and engine its next specified value |
| Accelerator.Right.Delta | systemc/Right.cc:146-153 | a delta cycle copies every forwarded signal one hop on; nothing changes exactly when all links carry their source |
| Accelerator.Right.Settle | systemc/Right.cc:231-239 | delta cycles end, with every link carrying the register or constant that feeds it |
| Accelerator.Right.Run | systemc/Right.cc:59-83 | n enabled edges leave the specified registers and put the last one on the output stream |
| Accelerator.Right.RunToWindow | systemc/Right.cc:231-264 | the output stream carries window n after edge wait + groups * size + n |
| Alignment.NaturalAlignment | systemc/libsystemctlm-soc/tlm-modules/tlm-aligner.h:97-107 | address AND its 64-bit negation is the largest power of two dividing the address |
| Alignment.MaxRange | systemc/libsystemctlm-soc/tlm-modules/tlm-aligner.h:109-118 | the range is positive, at most max_len, ends before the next boundary and, when asked, is no longer than the natural alignment |
| Alignment.SentWithinLimits | systemc/libsystemctlm-soc/tlm-modules/tlm-aligner.h:134-150 | the pieces tile the payload in order, and each is non-empty, at most max_len, inside one boundary window and no longer than its address is aligned, on the fast path too |
| Alignment.SentStreamed | systemc/libsystemctlm-soc/tlm-modules/tlm-aligner.h:177-193 | a piece of a streaming payload that starts inside a row ends in it; one that starts a row goes over rows only when the validator accepts that, and is no wider than bus and row otherwise; and no piece could be longer |
| Alignment.FastPathAgrees | systemc/libsystemctlm-soc/tlm-modules/tlm-aligner.h:144-150 | forwarding on the fast path is the same as cutting |
| Alignment.WrittenMeans | systemc/libsystemctlm-soc/tlm-modules/tlm-aligner.h:206-209 | after a write each place holds the last enabled byte that goes there, with streaming width and 64-bit wrap |
| Alignment.FetchedMeans | systemc/libsystemctlm-soc/tlm-modules/tlm-aligner.h:206-209 | after a read the buffer holds what memory has for each enabled byte |
| Alignment.PieceAddresses | systemc/libsystemctlm-soc/tlm-modules/tlm-aligner.h:169-193 | byte i of the piece cut at pos goes to the address of byte pos + i of the payload, in all three cut cases, with streaming width and 64-bit wrap |
| Alignment.PieceEnables | systemc/libsystemctlm-soc/tlm-modules/tlm-aligner.h:157-204 | and is enabled by the sliding window exactly when the cyclic byte enables of the payload enable it |
| Alignment.PieceWrites | systemc/libsystemctlm-soc/tlm-modules/tlm-aligner.h:169-212 | writing a piece after the first pos bytes is writing the first pos + len bytes, on any memory |
| Alignment.PieceFetches | systemc/libsystemctlm-soc/tlm-modules/tlm-aligner.h:169-212 | the same for the read buffer |
| Alignment.PieceCount | systemc/libsystemctlm-soc/tlm-modules/tlm-aligner.h:169-212 | from an address divisible by 2^j at most log2(M) - j alignment cuts are left, as each at least doubles the alignment of the next address |
| Alignment.SentCount | systemc/libsystemctlm-soc/tlm-modules/tlm-aligner.h:134-212 | with natural alignment and power-of-two limits at most log2(M) + len / M + 1 pieces go out, M the smaller limit |
| Aligner.Aligner.Chop | systemc/libsystemctlm-soc/tlm-modules/tlm-aligner.h:169-204 | the reused payload is set up as the specified piece: address, data window, length, streaming width and enables |
| Aligner.Aligner.BTransport | systemc/libsystemctlm-soc/tlm-modules/tlm-aligner.h:120-217 | the pieces go out in order until one is refused; exactly the bytes before it have had their effect on memory or buffer, and with none refused the payload has its whole effect; the response follows |
| Aligner.Target.BTransport | systemc/libsystemctlm-soc/tlm-modules/tlm-aligner.h:206-209 | a byte memory behind the socket: an accepted transaction has its effect byte by byte, a refused one none |
| Bits.AndNegate | systemc/libsystemctlm-soc/tlm-modules/tlm-aligner.h:99-106 | x AND -x in k bits is the lowest set bit, for every k |
| Bits.DividesExactly | systemc/libsystemctlm-soc/tlm-modules/tlm-aligner.h:97-107 | 2^k divides x exactly when k is at most the number of trailing zeros |
| Xgmii.StreamRoundTrip | systemc/libsystemctlm-soc/tlm-bridges/xgmii2tlm-bridge.h:143-184 | from any decoder state, any packets that fit, with the wire held any number of clocks between them, come out as exactly those packets in order, in both modes |
| Xgmii.PacketTen | systemc/libsystemctlm-soc/tlm-bridges/xgmii2tlm-bridge.h:169-184 | in 10G mode a packet comes out whole if and only if it has at most 8188 bytes; a longer one makes the fast path write past the buffer |
| Xgmii.PacketOne | systemc/libsystemctlm-soc/tlm-bridges/xgmii2tlm-bridge.h:135-138 | in 1G mode it comes out whole if and only if it has fewer than 8188 bytes; a longer one is dropped |
| Xgmii.FastAgrees | systemc/libsystemctlm-soc/tlm-bridges/xgmii2tlm-bridge.h:169-183 | the word-wide fast path and process_byte agree if and only if the eight bytes do not fill the buffer (or it is full already) |
| Xgmii.QuietStart | systemc/libsystemctlm-soc/tlm-bridges/xgmii2tlm-bridge.h:159-167 | zero words before the first packet leave the reset decoder as it is |
| Xgmii.BodyParts | systemc/libsystemctlm-soc/tlm-bridges/tlm2xgmii-bridge.h:127-142 | data and checksum go out as full words followed by one word with the rest, the terminate character and idles |
| Xgmii.IdleAtEnd | systemc/libsystemctlm-soc/tlm-bridges/tlm2xgmii-bridge.h:144-144 | the last word of a packet is idle |
| XgmiiWire.PacketOnWire | systemc/libsystemctlm-soc/tlm-bridges/tlm2xgmii-bridge.h:103-145 | every symbol on every lane for a packet: two words 07, FB, six 55, D5, data, C0 C1 C2 C3, FD, 07 to the end of the word and one more; eight lanes in 10G mode, lane 0 in 1G mode |
| XgmiiWire.FrameExactly | systemc/libsystemctlm-soc/tlm-bridges/xgmii2tlm-bridge.h:88-141 | start, no 55, 55, no D5, D5, data, terminate: the data is gathered and its length announced less 4 for fewer than 8192 bytes, and dropped otherwise |
| XgmiiWire.NoPreambleNoFrame | systemc/libsystemctlm-soc/tlm-bridges/xgmii2tlm-bridge.h:105-120 | a packet without 55 or without D5 after it is dropped |
| XgmiiWire.ErrorDrops | systemc/libsystemctlm-soc/tlm-bridges/xgmii2tlm-bridge.h:101-104 | after an error character nothing comes out before the next start |
| XgmiiWire.OthersSkipped | systemc/libsystemctlm-soc/tlm-bridges/xgmii2tlm-bridge.h:88-141 | control characters other than FB, FD and FE are skipped wherever they stand |
| XgmiiBridges.ControlMask | systemc/libsystemctlm-soc/tlm-bridges/tlm2xgmii-bridge.h:137-139 | bit i of the 32-bit shifted mask is set exactly from the terminate character on |
| XgmiiBridges.Encoder.PushDataBuf | systemc/libsystemctlm-soc/tlm-bridges/tlm2xgmii-bridge.h:70-101 | the bytes go out with the control bits of the mask, lane by lane, eight or one to a word |
| XgmiiBridges.Encoder.ProcessPacket | systemc/libsystemctlm-soc/tlm-bridges/tlm2xgmii-bridge.h:103-145 | the wire grows by exactly the encoding of the packet |
| XgmiiBridges.LastBytes | systemc/libsystemctlm-soc/tlm-bridges/tlm2xgmii-bridge.h:113-142 | the last buffer and its mask are the rest of the data, the checksum, the terminate character and idles |
| XgmiiBridges.Decoder.ProcessByte | systemc/libsystemctlm-soc/tlm-bridges/xgmii2tlm-bridge.h:88-141 | one lane in place: new state and emitted payload are those of the specified step |
| XgmiiBridges.Decoder.ProcessWord | systemc/libsystemctlm-soc/tlm-bridges/xgmii2tlm-bridge.h:162-184 | one clock in place, fast path included |
| XgmiiBridges.Link | systemc/libsystemctlm-soc/tlm-bridges/tlm2xgmii-bridge.h:147-155 | the two bridges connected deliver every packet given to the first, in order |
| AxiBeats.BeatAllowed | systemc/libsystemctlm-soc/checkers/checker-axi.h:540-634 | every beat that carries exactly its part of the payload passes the strobe rules, without gaps when there are no byte enables |
| AxiBeats.BeatBytes | systemc/libsystemctlm-soc/tlm-bridges/tlm2axi-bridge.h:1212-1281 | byte j of a payload travels in the beat of its aligned container on the lane of its address, strobed exactly if enabled, and nothing else is strobed |
| AxiBeats.RebuiltWhenOneWord | systemc/libsystemctlm-soc/tlm-bridges/axi2tlm-bridge.h:393-426 | the receiver takes every byte from the beat it was put on when no bus word carries two beats |
| AxiBeats.RebuiltExactly | systemc/libsystemctlm-soc/tlm-bridges/axi2tlm-bridge.h:393-426 | it rebuilds the payload, whatever its byte enables, if and only if no bus word carries two beats |
| AxiBeats.NarrowLoses | systemc/libsystemctlm-soc/tlm-bridges/axi2tlm-bridge.h:410-425 | otherwise it looks for the first byte of the second or third beat on a lane that is not in use |
| AxiBridges.BeatAt | systemc/libsystemctlm-soc/tlm-bridges/tlm2axi-bridge.h:328-339 | for an aligned address or full-width beats the loop's beats are the containers of the burst, one after the other |
| AxiBridges.PrepareWbeat | systemc/libsystemctlm-soc/tlm-bridges/tlm2axi-bridge.h:1212-1281 | each byte and its strobe go on the lane of its address, which starts over after the streaming width; the beat is cut by bus, data, streaming width and burst width |
| AxiBridges.WriteDataPhase | systemc/libsystemctlm-soc/tlm-bridges/tlm2axi-bridge.h:924-953 | exactly m_numBeats beats, wlast on the final one only, each carrying its part |
| AxiBridges.CheckWstrb | systemc/libsystemctlm-soc/checkers/checker-axi.h:540-634 | true if and only if the strobes are those the lane equations allow |
| AxiBridges.WriteTransaction.FillData | systemc/libsystemctlm-soc/tlm-bridges/axi2tlm-bridge.h:393-426 | byte after byte takes enable and data from the lane of its address in the current beat |
| AxiBridges.WriteTransaction.TryDropBE | systemc/libsystemctlm-soc/tlm-bridges/axi2tlm-bridge.h:512-532 | the enables are dropped exactly when they enable everything |
| AxiBridges.WriteThrough | systemc/libsystemctlm-soc/tlm-bridges/axi2tlm-bridge.h:1173-1236 | write round trip: room for every beat; byte j arrives exactly when the lane it is taken from was strobed, with the byte that lane stands for; that is the payload, with its enables, when no bus word carries two beats; otherwise some byte is out of reach, and lost when enabled |
| AxiBridges.ReadTransaction.GetData | systemc/libsystemctlm-soc/tlm-bridges/axi2tlm-bridge.h:428-478 | the beat's lanes take the next bytes, other lanes keep what they had; FIXED bursts fill the bus |
| AxiBridges.TakeReadBeat | systemc/libsystemctlm-soc/tlm-bridges/tlm2axi-bridge.h:837-872 | the buffer takes the enabled bytes of the beat from the lanes of their addresses and keeps all others |
| AxiBridges.ReadThrough | systemc/libsystemctlm-soc/tlm-bridges/tlm2axi-bridge.h:773-880 | read round trip: the buffer holds the read bytes where enabled, after exactly m_numBeats beats, and rlast is never premature |
| AxiScheduler.StepKeepsInvariant | systemc/libsystemctlm-soc/tlm-bridges/axi2tlm-bridge.h:778-848 | every step of address phase, data phase, threads and response phase keeps the invariant |
| AxiScheduler.RunInvariant | systemc/libsystemctlm-soc/tlm-bridges/axi2tlm-bridge.h:879-957 | it holds in every state of every run: order, one thread per ID, count, conservation, issue history |
| AxiScheduler.ExactlyOnce | systemc/libsystemctlm-soc/tlm-bridges/axi2tlm-bridge.h:784-841 | with list and data empty the issued transactions are the accepted ones, each once |
| AxiScheduler.IssueIssued | systemc/libsystemctlm-soc/tlm-bridges/axi2tlm-bridge.h:784-802 | issuing keeps transactions with the same ID or the same page in the order of acceptance |
| AxiScheduler.IssueUnissued | systemc/libsystemctlm-soc/tlm-bridges/axi2tlm-bridge.h:713-776 | what the guard lets through has no unissued transaction with its ID or page before it |
| AxiScheduler.InFlightApart | systemc/libsystemctlm-soc/tlm-bridges/axi2tlm-bridge.h:713-725 | two transactions inside b_transport at the same time touch different 4K pages |
| AxiScheduler.NeverBlocks | systemc/libsystemctlm-soc/tlm-bridges/axi2tlm-bridge.h:836-838 | a returning thread finds room in the depth-16 response FIFO, so removing and queueing are one step |
| AxiScheduler.ReturnCounted | systemc/libsystemctlm-soc/tlm-bridges/axi2tlm-bridge.h:1061-1072 | the outstanding count is data list plus list plus FIFO plus held and stays at most 16 |
| AxiScheduler.ReturnConserved | systemc/libsystemctlm-soc/tlm-bridges/axi2tlm-bridge.h:836-840 | no transaction is lost or duplicated between the queues |
| AxiScheduler.FrontPasses | systemc/libsystemctlm-soc/tlm-bridges/axi2tlm-bridge.h:740-776 | whenever the list is not empty its front transaction is being issued or passes the wait guard |
| AxiScheduler.Drains | systemc/libsystemctlm-soc/tlm-bridges/axi2tlm-bridge.h:778-848 | with nothing new coming in at most 64 inner steps are possible from any reachable state, and they go on until everything whose data arrived is answered |
| AxiScheduler.OverlapIs | systemc/libsystemctlm-soc/tlm-bridges/axi2tlm-bridge.h:713-725 | the overlap scan finds exactly an earlier transaction of the same page |
| AxiScheduler.ThreadFirst | systemc/libsystemctlm-soc/tlm-bridges/axi2tlm-bridge.h:656-668 | the thread of an ID works on the first transaction with the ID in the list |
| AxiHistory.AcceptedExactly | systemc/libsystemctlm-soc/tlm-bridges/axi2tlm-bridge.h:1082-1145 | the accepted transactions are the requests that met a ready channel, with their ID, address and beats |
| AxiHistory.ReadyExactly | systemc/libsystemctlm-soc/tlm-bridges/axi2tlm-bridge.h:1061-1090 | ready after an address edge exactly when fewer than 16 accepted transactions are unanswered, unchanged otherwise |
| AxiHistory.BeatsCounted | systemc/libsystemctlm-soc/tlm-bridges/axi2tlm-bridge.h:1222-1250 | in every state of every run of writes the beats taken are the announced beats (at least one each) of the writes that no longer wait for data plus those received of the first that does, which still lacks some |
| AxiHistory.CompleteExactly | systemc/libsystemctlm-soc/tlm-bridges/axi2tlm-bridge.h:1222-1250 | write j has left the data list exactly when as many beats were taken as writes 0 to j announce, and is then in the list, the FIFO, the response phase or answered |
| AxiHistory.FirstInFirstOut | systemc/libsystemctlm-soc/tlm-bridges/axi2tlm-bridge.h:836-841 | answers come out in the order in which transactions came back from b_transport |
| AxiHistory.AnswersInOrder | systemc/libsystemctlm-soc/tlm-bridges/axi2tlm-bridge.h:727-776 | answers with the same ID are handed over in the order of acceptance |
| Axi2Tlm.GetFirstWithID | systemc/libsystemctlm-soc/tlm-bridges/axi2tlm-bridge.h:656-668 | the first transaction with an ID, if any |
| Axi2Tlm.OverlappingAddress | systemc/libsystemctlm-soc/tlm-bridges/axi2tlm-bridge.h:713-725 | whether a transaction in front has the same page |
| Axi2Tlm.Channel.AddressPhase | systemc/libsystemctlm-soc/tlm-bridges/axi2tlm-bridge.h:1082-1145 | one clock edge in place is the specified address step, ready registered |
| Axi2Tlm.Channel.WriteDataBeat | systemc/libsystemctlm-soc/tlm-bridges/axi2tlm-bridge.h:1173-1252 | one data beat in place; the last one queues the transaction and starts a thread if its ID has none |
| Axi2Tlm.Channel.TryIssue | systemc/libsystemctlm-soc/tlm-bridges/axi2tlm-bridge.h:787-802 | the transaction goes out if and only if the guard allows it |
| Axi2Tlm.Channel.Complete | systemc/libsystemctlm-soc/tlm-bridges/axi2tlm-bridge.h:836-841 | after b_transport the transaction moves to the FIFO, which has room, and the thread takes the next one or ends |
| Axi2Tlm.Channel.TakeResponse | systemc/libsystemctlm-soc/tlm-bridges/axi2tlm-bridge.h:1273-1294 | the response phase takes the oldest answer |
| Axi2Tlm.Channel.GiveResponse | systemc/libsystemctlm-soc/tlm-bridges/axi2tlm-bridge.h:1296-1325 | and hands it over, the count going down by one |
| Handshakes.Checker.Clock | systemc/libsystemctlm-soc/checkers/checker-utils.h:408-528 | one clock in place: counters and ID lists stay functions of the sequence of clock edges, the data counter being announced beats less data handshakes |
| Handshakes.Checker.Accounts | systemc/libsystemctlm-soc/checkers/checker-utils.h:419-528 | over the clock edges since reset: beats outstanding, addresses and last beats waiting for each other, and the responses due, as sums and projections of the handshakes |
| Handshakes.Checker.Expected | systemc/libsystemctlm-soc/checkers/checker-utils.h:381-386 | data is expected exactly while fewer beats came than were announced, an address while more did, a response while one is due |
| Handshakes.Checker.AddressSeen | systemc/libsystemctlm-soc/checkers/checker-utils.h:428-466 | an address completes the oldest last beat without one, otherwise waits; writes without data are due at once |
| Handshakes.Checker.DataSeen | systemc/libsystemctlm-soc/checkers/checker-utils.h:467-515 | a last beat completes the oldest address waiting for one, otherwise waits |
| Handshakes.Checker.ResponseSeen | systemc/libsystemctlm-soc/checkers/checker-utils.h:516-527 | a response counts exactly when one with its ID is due |
| Handshakes.Checker.NeverBoth | systemc/libsystemctlm-soc/checkers/checker-utils.h:373-377 | m_aw and m_wlast are never both non-zero and no counter is negative |
| Handshakes.AddressedDue | systemc/libsystemctlm-soc/checkers/checker-utils.h:434-462 | the responses due are the IDs of the first min(addresses, lasts) writes plus those without data minus those answered: after an address |
| Handshakes.TransferredDue | systemc/libsystemctlm-soc/checkers/checker-utils.h:473-510 | the same after a data beat |
| Handshakes.RespondedDue | systemc/libsystemctlm-soc/checkers/checker-utils.h:516-527 | the same after a response |
| RemotePort.StreamRoundTrip | systemc/libsystemctlm-soc/libremote-port/remote-port-tlm.cc:508-536 | any framed packets written one after the other are read back as those packets in order: same commands, fields, data, byte enables and caps |
| RemotePort.FramedExactly | systemc/libsystemctlm-soc/libremote-port/remote-port-proto.c:300-351 | header plus announced length is the length written if and only if byte enables are not written behind the old layout |
| RemotePort.DecodePacket | systemc/libsystemctlm-soc/libremote-port/remote-port-proto.c:111-195 | decoding one packet of any kind and either layout gives what was encoded |
| RemotePort.DecodeBusPacket | systemc/libsystemctlm-soc/libremote-port/remote-port-proto.c:151-179 | for bus accesses: fields, data found by length and by offset, byte enables by offset |
| RemotePort.DecodeHelloPacket | systemc/libsystemctlm-soc/libremote-port/remote-port-proto.c:118-150 | for hello: version and every cap |
| RemotePort.MasterIdExactly | systemc/libsystemctlm-soc/libremote-port/remote-port-proto.c:156-178 | the twice converted master ID survives a little-endian receiver if and only if its two low bytes are equal |
| RemotePort.HeaderRoundTrip | systemc/libsystemctlm-soc/libremote-port/remote-port-proto.c:98-109 | the packed big-endian header decodes to what was encoded, whatever follows |
| RemotePort.BeRoundTrip | systemc/libsystemctlm-soc/libremote-port/remote-port-proto.c:197-205 | big-endian fields of any width |
| RemotePortLayout.HeaderLayout | systemc/libsystemctlm-soc/libremote-port/remote-port-proto.h:97-103 | in every packet the command number (1, 3, 4, 5 or 6), length, ID, flags and device stand at bytes 0, 4, 8, 12 and 16, byte i of an n-byte field of v being v / 256^(n-1-i) mod 256 |
| RemotePortLayout.BusLayout | systemc/libsystemctlm-soc/libremote-port/remote-port-proto.h:153-218 | the fields of a bus access at their bytes in both layouts, then data and byte enables |
| RemotePortLayout.HelloLayout | systemc/libsystemctlm-soc/libremote-port/remote-port-proto.h:140-144 | version, capability offset and count, and every capability at its bytes |
| RemotePortLayout.EventLayout | systemc/libsystemctlm-soc/libremote-port/remote-port-proto.h:220-231 | interrupts and synchronisation: timestamp, vector, line and value at their bytes |
| RemotePortTlm.Socket.EncodeBusaccess | systemc/libsystemctlm-soc/libremote-port/remote-port-proto.c:300-351 | the prepared structure followed by what the callers still write is the packet, requests and responses, both layouts |
| RemotePortTlm.Socket.SendAccess | systemc/libsystemctlm-soc/libremote-port/remote-port-tlm-memory-slave.cc:125-135 | structure, data and byte enables written separately add up to the packet |
| RemotePortTlm.Socket.SendHello | systemc/libsystemctlm-soc/libremote-port/remote-port-tlm.cc:457-471 | structure and caps written separately add up to the packet |
| RemotePortTlm.Socket.ReadPacket | systemc/libsystemctlm-soc/libremote-port/remote-port-tlm.cc:523-536 | header first, then as many bytes as it announces, decoded |
| ResponseSlots.WaitReturnsOwnAnswer | systemc/libsystemctlm-soc/libremote-port/remote-port-tlm.cc:349-388 | for any packets, devices and nesting of waits, a wait returns only with the answer to its own ID, read during the wait, in a slot of its device that was free; every other slot of every device keeps its wait, and becomes valid exactly when its answer is read |
| ResponseSlots.ProcessKeeps | systemc/libsystemctlm-soc/libremote-port/remote-port-tlm.cc:508-594 | processing packets, requests with any number of nested waits included, keeps used slots on distinct issued IDs and valid slots in use with their own answer |
| ResponseSlots.HandleKeeps | systemc/libsystemctlm-soc/libremote-port/remote-port-tlm.cc:571-592 | handling a request does the same, whatever it waits for |
| ResponseSlots.UntilReturnsExactly | systemc/libsystemctlm-soc/libremote-port/remote-port-tlm.cc:371-387 | for any packets and nesting, a wait in the adaptor returns with the first packet at its own level that is an answer and comes when its own answer has been read, and otherwise does not return |
| ResponseSlots.WaitReturnsExactly | systemc/libsystemctlm-soc/libremote-port/remote-port-tlm.cc:349-388 | a wait with a free slot returns if and only if its answer is read, at any level, and then or later an answer or posted response is read at its own level |
| ResponseSlots.PlainReturnsExactly | systemc/libsystemctlm-soc/libremote-port/remote-port-tlm.cc:371-387 | without nested waits it returns if and only if its answer is among the packets |
| ResponseSlots.NestedAnswerUnnoticed | systemc/libsystemctlm-soc/libremote-port/remote-port-tlm.cc:371-387 | on any consistent table with room for two waits, of the same or of two devices: a run after which the answer of the outer wait is in its slot and the wait is blocked |
| RemotePortTlm.Device.ResponseLookup | systemc/libsystemctlm-soc/libremote-port/remote-port-tlm.cc:334-347 | the first slot in use for an ID, if any |
| RemotePortTlm.Device.ResponseDone | systemc/libsystemctlm-soc/libremote-port/remote-port-tlm.cc:390-394 | frees one slot and nothing else |
| RemotePortTlm.Adaptor.HandleRequest | systemc/libsystemctlm-soc/libremote-port/remote-port-tlm.cc:571-592 | a request whose handling waits itself, any number of times: outcome and slots of all devices in place are those of the specification |
| RemotePortTlm.Adaptor.StoreAnswer | systemc/libsystemctlm-soc/libremote-port/remote-port-tlm.cc:543-567 | an answer goes into the slot of its device that waits for it, and stops the run when there is none |
| RemotePortTlm.Adaptor.RpProcess | systemc/libsystemctlm-soc/libremote-port/remote-port-tlm.cc:508-594 | outcome and slots in place are those of the specification, request by request and answer by answer |
| RemotePortTlm.Adaptor.ResponseWait | systemc/libsystemctlm-soc/libremote-port/remote-port-tlm.cc:349-388 | outcome, slot and tables in place are those of the specification |
| RemotePort.ResponseReadBack | systemc/libsystemctlm-soc/libremote-port/remote-port-proto.h:400-414 | the answer to a received request decodes with its ID, device, command and read data; its layout is that of the request if and only if the request has the extension bit exactly when the peer has the capability |
| AxiBridges.CheckedWrite | systemc/libsystemctlm-soc/checkers/checker-axi.h:540-634 | every beat of a write goes through the checker and passes, gaps allowed only with byte enables |

## Left out

- AceMaster.Master.HandleStore: a whole line with gaps in its byte enables that misses may count as a store of the full line, with what the slot held in the gaps; `AcePayloadRuns.WriteBackExactly` says when that is wrong.
- AceMaster.Master.HandleStoreThrough: for the payloads `AcePayloadRuns.WriteThroughExactly` finds right; for the others a stale line stays in the cache.
- AceMaster.Master.WriteThroughChunk: for the same reason, for chunks that go out whole, start before their own length or enable no byte.
- AceMaster.Master.MakeUnique: the store that follows is part of the same step, because the code does not wait between them.
- Caches: the interconnect answers a request in one step (all snoops at once); its queues, timing and per-segment ReadOnce are not modelled.
- Caches: exclusive accesses and the exclusive monitor, DVM messages, barriers and non-shareable regions.
- Caches: error responses (the miss loops would retry for ever) and snoops without the attribute extension.
- Caches: the own master's CleanInvalid and MakeInvalid maintenance, which evicts dirty lines without writing them back.
- Caches: addresses are unbounded, and the line size mask is a remainder; line size and line count are arbitrary positive numbers.
- DMA: descriptors whose `next` or RAM index points outside; the code has no check and its behaviour is undefined.
- Accelerator: reset and enable going low in the middle of a run, and second weight loads while it runs.
- Accelerator: which forwarding processes the kernel wakes; every delta cycle runs all of them, which writes the same values.
- Processor.Step: the whole accelerator is one value from edge to edge; in place its parts are `Dma.Dma` and, with its delta cycles, `Accelerator.Right`, whose RAM contents do not change.
- Convolution.ChainConvolves: over the integers; `Systolic.ChainComputesWindow` states the sum in the order of the hardware for any arithmetic.
- Aligner: failure to allocate the byte enable copy, and TLM's own payload copy functions.
- Aligner.Target.BTransport: a transaction that is refused has no effect.
- XGMII: a word is kept as eight lanes, not packed into 64-bit and 8-bit values; the checksum is the fixed four bytes the code sends.
- AXI: WRAP bursts, unaligned narrow bursts, unaligned FIXED bursts, AXI3 interleaving, ACE modes, reset, and the response codes.
- AXI: the annotated delay after b_transport is part of the time the transaction is in flight.
- AXI: data beats are followed lane by lane; the shifts that pack lanes into signals are not modelled.
- Handshakes: AXI3 and AXI4-Lite accounting, hang-up timers, reset, and the 32-bit wrap of the counters.
- AxiBridges.WriteThrough: for an aligned address or full-width beats, as `AxiBridges.WriteDataPhase`.
- RemotePortTlm.Adaptor.ResponseWait: packet IDs are unbounded numbers, so the reuse of an ID after 2^32 requests is not modelled; processes other than the adaptor's wait for their slot's event instead, which is not modelled.
- ResponseSlots.WaitReturnsExactly: for the adaptor's own process; devices are numbered from 0, and packets for other numbers go to one device that never waits.
- Remote port: sockets, time synchronisation, posted interrupts, the devices behind the commands, and capability negotiation.
- Left out as easier: `iconnect.h`, `memory.cc`, `regs.cc`, the APB, AXI-Lite, AXI-Stream and CHI bridges, the opcode checkers and the user applications.
