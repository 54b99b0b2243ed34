# ZDX in Dafny

A model of the ZDX pixel machine and of the persistent machine around it, with proofs about every run.

| files | what they model |
|---|---|
| `Isa`, `PixelVm`, `Compiler`, `VmLaws`, `ThreadLaws` | the sixteen-opcode column-major interpreter, the text compiler, and what a run keeps |
| `InstructionLaws`, `ProgramLaws` | what each opcode does as a relation, and what each word of a program does from its text to its effect |
| `Raster`, `Frame`, `Placement` | byte addresses in a raster, regions, dirty rectangles, programs placed in frames |
| `Utf8`, `Codec`, `CodecLaws`, `CodecSizes`, `CodecVectors` | the tag-length-value memory codec, the sizes of its encodings, and samples of its bytes |
| `AtomicFile` | replacing a file by renaming, cut anywhere |
| `Document`, `DocumentLaws`, `SpatialStore`, `SpatialStoreLaws` | the headered memory document in a region, as a plain map; the frame file, its backup and resident snapshots |
| `Ring`, `Mailbox`, `MailboxLaws`, `SpatialMailboxes` | the byte-level ring mailbox, as a bounded queue |
| `AgentMemory`, `AgentMemoryLaws`, `AgentMemoryRuns`, `AgentMemoryRoots`, `AgentMemoryLimits` | namespaced memory with quotas and eviction |
| `Checkpoint`, `CheckpointLaws`, `CheckpointOrder`, `AgentSession` | the coalescing checkpoint worker, its compare-and-swap commit, and the opening, lock and dirty flag of the session in front of it |
| `ToolGateway`, `ToolGatewayLaws` | tool authorization and the intent and result records around a handler call, under crashes |
| `StateStore`, `StateStoreLaws` | saves by renaming, cut anywhere, with recovery and migration on load |
| `ComputeTask`, `Coordinator`, `CoordinatorLaws`, `CoordinatorEndings` | tasks, and the compute queue with leases, attempts and reservations; why a task is in the bucket it is in |
| `Cluster`, `ClusterLaws`, `ClusterEndings` | the mergeable operation log and the task table replayed from it; where each of its records comes from |
| `Handshake`, `HandshakeLaws`, `HandshakeRules` | session establishment and replay protection; exactly what is let through |
| `Basics`, `Lex` | bytes and big-endian words, outcomes, and Python's ordering of strings and tuples |

Objects that the program updates in place are classes whose methods are proved equal to a function of the old state; the
theorems about whole runs are lemmas about those functions. Protocols with several threads or with crashes (the checkpoint
worker, the session, the tool gateway) are step machines: a run is any sequence of steps, and a step that is not enabled does
nothing.

What stands for what: SHA-256 and every other digest is an arbitrary function, and so are Python's `split`, `upper` and `int`;
floats in memory values are opaque eight-byte values with a finiteness test; `list` and `tuple` are one constructor; text is a
sequence of code points in which surrogates do not encode, as in section 3 of RFC 3629; clocks, random identifiers, handler
replies, input and output failures and crash points are parameters; a PNG stores its raster without loss.

Where the code and its comments disagree the code is followed: the interpreter's comment says that R = 0 is always NOP, but the
reverse map is consulted first, so a map that gives a name R = 0 makes such pixels execute (`Compiler.ClearMeansReadable` says
exactly which maps are safe).

Claims that are false of the code have a lemma with a failing case and a lemma that says exactly when the code meets them:

- Request ids may be committed out of order when several threads submit (`CheckpointLaws.OvertakingCommits`); they are safe
  exactly while no submission passes its checks with another call blocked (`CheckpointOrder.OrderKeptExactlyWhen`).
- A damaged primary may have no backup to fall back to (`StateStoreLaws.RollbackLosesBackup`); it has one exactly after two
  commits with no rollback since the last (`StateStoreLaws.DamagedPrimaryFallsBack`).
- A frame file caught between its two renames may be lost, because a store that is opened there writes an empty memory over it
  (`SpatialStoreLaws.SampleLoses`, `SpatialStoreLaws.CrashThenReopenLoses`); over whole histories the last commit is always there
  exactly when no store is opened like that over anything but a first empty memory (`SpatialStoreLaws.KeptExactlyWhen`), and a
  store that is still open reads it exactly when there are no executable rows (`SpatialStoreLaws.TornReadRecovers`).
- A flush may return true with the resident state not on disk (`AgentSession.SeedIsNotFlushed`); it cannot exactly when the
  session started dirty or from a complete document (`AgentSession.FlushKeptExactlyWhen`).
- Decoding accepts integers that encoding would not produce (`CodecLaws.PaddedZeroAccepted`, `CodecLaws.SignedZeroAccepted`);
  re-encoding is the identity exactly on minimal integers (`CodecLaws.ReencodeAccepted`).
- A task may be in two buckets of the cluster table when it is submitted again late (`ClusterLaws.ResubmissionSplits`); this
  happens exactly with late submissions (`ClusterLaws.OneBucketExactlyWhen`).
- An appended operation need not act last (`ClusterLaws.EarlierClaimIgnored`); it does exactly when it sorts last
  (`ClusterLaws.LastExactlyWhen`).
- A tool may run twice after a crash (`ToolGatewayLaws.WithoutBarriersTwice`); under a rule with barriers it never does
  (`ToolGatewayLaws.AtMostOnce`), and that is the exact line (`ToolGatewayLaws.OnceExactlyWhen`).
- An append may generate a key that the next validation refuses (`AgentMemoryLimits.LastAppendIsTooWide`); it does exactly when
  the number needs more than 152 hexadecimal digits (`AgentMemoryRoots.RootsAcceptedExactlyWhen`).
- An append may collide with a persisted key (`AgentMemoryRoots.PersistedKeyCollides`); only with one that was there when the
  manager was opened (`AgentMemoryRoots.OnlyPersistedKeysCollide`).

## Model
| member | source | states |
|---|---|---|
| PixelVm.ParallelVm.constructor | zdx_parallel_vm.py:118-131 | all registers and shared cells start at zero |
| PixelVm.ParallelVm.ControlStep | zdx_parallel_vm.py:298-415 | halting, skipping, chaining, shared memory and jumps change exactly what the instruction set says, with strict-mode errors |
| PixelVm.ParallelVm.Dispatch | zdx_parallel_vm.py:281-420 | one pixel of one thread does what its decoded cell means |
| PixelVm.ParallelVm.ExecuteColumn | zdx_parallel_vm.py:269-420 | one column: threads in order, halted and skipped threads pass, the first jump wins |
| PixelVm.ParallelVm.ExecuteArray | zdx_parallel_vm.py:253-436 | the two nested loops compute the recursive meaning of the frame, errors and step limit included |
| PixelVm.MirrorByMeaning | zdx_parallel_vm.py:314-325 | VERIFY_FREQ's comparison of raw pixels is a comparison of what the pixels mean |
| PixelVm.PixelMeans | zdx_parallel_vm.py:293-420 | a pixel means an opcode its R byte stands for, with its own operands; nothing only for R zero, an unknown opcode only otherwise |
| Compiler.ExpandProgram | zdx_parallel_vm.py:579-591 | the expansion loop replaces exactly the synthetic instruction |
| Compiler.Compile | zdx_parallel_vm.py:662-683 | the drawing loops give the image of the expanded program padded with NOP, or nothing for an empty program; under a clear map it means that program |
| Compiler.ClearMeansReadable | zdx_parallel_vm.py:120-122 | the machine reads back every name and reads padding as nothing if and only if each implemented name has a non-zero R byte that no later name takes over |
| Compiler.DefaultMapIsClear | zdx_parallel_vm.py:13-30 | the built-in map is such a map |
| Compiler.DefaultPixels | zdx_parallel_vm.py:13-30 | the exact pixel each word is drawn as with the built-in map |
| Compiler.ImageMeansProgram | zdx_parallel_vm.py:636-683 | under such a map the image means exactly the source program |
| Compiler.MapIndependence | zdx_parallel_vm.py:120-122 | compiling and running under any two such maps over the same names gives the same registers, memory, clock, next frame and error, those of the source program itself |
| VmLaws.RunStaysInBounds | zdx_parallel_vm.py:268-291 | every run keeps A, B, OUT and shared memory bytes and uses at most the step budget; the limit is raised only when the budget is used up |
| VmLaws.RunReadsThreadRows | zdx_parallel_vm.py:273-275 | rows below the last thread cannot influence a run |
| VmLaws.PaddingPreserves | zdx_parallel_vm.py:405-436 | in a wider blank frame A, B, OUT, memory, halts, next frame and instruction errors are the same, and the run finishes if and only if it finished before with the extra columns inside the budget |
| InstructionLaws.ComputeComputes | zdx_parallel_vm.py:314-403 | each register opcode as a relation: SUB is undone by adding B, NOT adds up to 255, ADD and MUL are congruent modulo 256, DIV is the last multiple not past A, CMP is one exactly on equality, and no other register changes |
| InstructionLaws.ComputesDetermines | zdx_parallel_vm.py:314-403 | that relation leaves only one result |
| InstructionLaws.ByteArithmetic | zdx_parallel_vm.py:337-383 | on bytes the congruences are plain differences, sums and complements |
| InstructionLaws.EveryTurn | zdx_parallel_vm.py:273-420 | a thread's turn: halted or rowless threads do nothing, a skipping one stops skipping, any other does what its cell's opcode says to registers, memory, skip, jump, next frame or halt, and nothing else |
| InstructionLaws.TurnDetermines | zdx_parallel_vm.py:273-420 | a turn has only that outcome |
| InstructionLaws.LoadAfterStore | zdx_parallel_vm.py:351-373 | a load after a store to the same slot gives the stored A, and other slots keep theirs |
| InstructionLaws.TurnInColumn | zdx_parallel_vm.py:273-420 | in a column every thread acts on its own registers as they were before the column |
| InstructionLaws.FirstJumpWins | zdx_parallel_vm.py:405-427 | the next column is that of the first thread that jumps into the frame, or the one to the right |
| InstructionLaws.NextCellActsIf | zdx_parallel_vm.py:278-349 | after IF_A_EQ the next cell acts if and only if A equals the operand |
| InstructionLaws.StraightRun | zdx_parallel_vm.py:268-436 | without jumps every column is visited once, in order |
| ProgramLaws.ClampIsNearest | zdx_parallel_vm.py:654-655 | an operand becomes the nearest byte |
| ProgramLaws.DefaultMapIsFull | zdx_parallel_vm.py:13-30 | the built-in map has every opcode |
| ProgramLaws.TextDoes | zdx_parallel_vm.py:550-660 | every instruction of every program, drawn under any clear map, does what its word says when an active thread meets it; with a map that lacks its opcode it does nothing |
| ProgramLaws.OneInstruction | zdx_parallel_vm.py:550-683 | one instruction, compiled and run by itself, does what its word says to A, B, OUT, the addressed slot, the next frame or the halt, and nothing else |
| ProgramLaws.SelfJump | zdx_parallel_vm.py:405-436 | a jump to its own column spends the whole budget and changes no result |
| ProgramLaws.JumpLeadsTo | zdx_parallel_vm.py:405-427 | a row that starts with a jump to its last column does what that column says and nothing in between |
| ProgramLaws.OutToACopies | zdx_parallel_vm.py:571-591 | OUT_TO_A is COPY_OUT |
| ThreadLaws.ThreadsIndependent | zdx_parallel_vm.py:262-420 | without JMP and STORE_MEM, running all rows together gives each thread the registers it gets alone, and an instruction error together if and only if some row has one alone |
| Raster.OverlapMeansShared | zdx_spatial_frame.py:254-260 | two non-empty regions overlap if and only if they share a cell |
| Raster.PlaceOfIndex | zdx_spatial_frame.py:364-396 | a cell's channel has a byte address in the region that leads back to it |
| Raster.IndexOfPlace | zdx_spatial_frame.py:364-396 | a byte address leads to a channel of a cell of the region and back |
| Raster.ReadAfterWrite | zdx_spatial_frame.py:364-396 | reading a region after a write gives the old bytes with the written span replaced |
| Raster.SpanIsSlice | zdx_spatial_frame.py:364-373 | reading part of a region is a slice of reading all of it |
| Raster.DisjointRegionsIsolated | zdx_spatial_frame.py:94-113 | a write to one region is invisible through any region it does not overlap |
| Raster.RowMajor | zdx_spatial_frame.py:364-396 | bytes run red, green, blue, cell by cell and row by row |
| Raster.NamedRegionsIsolated | zdx_spatial_frame.py:94-113 | in an accepted layout a write to one data region is invisible through any other and through the executable rows |
| Frame.MergePass | zdx_spatial_frame.py:296-312 | one pass absorbs touching rectangles, loses no cell, and either changes nothing with everything apart or leaves fewer |
| Frame.Mark | zdx_spatial_frame.py:288-314 | merging terminates with all rectangles in bounds and pairwise strictly apart, covering the old ones and the new one; all but the last are old ones, and each side of the last is a side of one of them |
| Frame.UntouchedOutside | zdx_spatial_frame.py:397-417 | no cell outside the rectangle marked for a write changes |
| Frame.SpanRectTight | zdx_spatial_frame.py:397-417 | the rectangle marked for a write is tight: each of its rows, and each cell if there is one row, has a written byte |
| Frame.SpatialFrame.constructor | zdx_spatial_frame.py:266-279 | a new frame has no dirty rectangle |
| Frame.SpatialFrame.ClearDirtyRectangles | zdx_spatial_frame.py:285-286 | forgets the rectangles and starts a new baseline |
| Frame.SpatialFrame.WriteBytes | zdx_spatial_frame.py:375-417 | replaces exactly the addressed span, fails without change, and keeps every cell that differs from the baseline covered |
| Frame.SpatialFrame.WriteCell | zdx_spatial_frame.py:348-353 | replaces one cell and keeps the cover |
| Placement.CompileSpatial | zdx_spatial_frame.py:461-492 | draws the expanded program into the executable rows of a blank frame and then the payloads, or refuses a program that is too tall or too wide, or the first payload that does not fit |
| Placement.PlacementPreserves | zdx_spatial_frame.py:469-485 | a placed program gives the results of the program itself, and finishes if and only if the padding fits in the budget |
| Placement.DataPlaneIsolated | zdx_spatial_frame.py:514-535 | no sequence of writes to data regions changes the outcome of an execution |
| Placement.CompiledFrameRuns | zdx_spatial_frame.py:461-535 | a compiled frame with payloads in its data regions runs as the program itself does |
| Placement.PayloadReadBack | zdx_spatial_frame.py:486-492 | an accepted payload is read back from where it was put |
| Basics.UnpackPacked | zdx_pixel_memory/spatial_store.py:45-66 | reading back a fixed-width big-endian word gives the number |
| Basics.PackUnpacked | zdx_pixel_memory/spatial_store.py:45-66 | writing back a word that was read gives its bytes |
| Basics.ShortestIsLeast | zdx_pixel_memory/spatial_store.py:84-87 | the spelling of an integer is the shortest one |
| Lex.SortedIsOnlyAscending | zdx_pixel_memory/spatial_store.py:107 | the only ascending listing of a set of keys is the sorted one |
| Utf8.DecodeEncoded | zdx_pixel_memory/spatial_store.py:92-94 | strict UTF-8 decoding undoes encoding |
| Utf8.EncodeDecoded | zdx_pixel_memory/spatial_store.py:154-157 | encoding undoes strict decoding, so overlong forms and surrogates are refused |
| CodecLaws.DecodeEncoded | zdx_pixel_memory/spatial_store.py:76-190 | an encoding met anywhere decodes to its value and stops exactly at its end, whatever follows |
| CodecLaws.PrefixFree | zdx_pixel_memory/spatial_store.py:76-120 | no encoding is a prefix of another value's, so encoding is injective |
| CodecLaws.ReencodeAccepted | zdx_pixel_memory/spatial_store.py:123-190 | accepted bytes re-encode to something never longer that decodes to the same value, identical if and only if every integer in them is spelled minimally |
| CodecLaws.ZeroEncodes | zdx_pixel_memory/spatial_store.py:84-87 | the encoder spells zero in one way |
| CodecLaws.PaddedZeroAccepted | zdx_pixel_memory/spatial_store.py:134-142 | zero with a leading zero byte is accepted, and refused by the strict reader |
| CodecLaws.SignedZeroAccepted | zdx_pixel_memory/spatial_store.py:134-142 | zero with a minus sign is accepted, and refused by the strict reader |
| CodecLaws.StrictAgrees | zdx_pixel_memory/spatial_store.py:134-142 | insisting on minimal integers changes no value that is still accepted |
| CodecVectors.WordBytes | zdx_pixel_memory/spatial_store.py:45-66 | words are big-endian |
| CodecVectors.ScalarBytes | zdx_pixel_memory/spatial_store.py:76-99 | the bytes of null, booleans, integers, floats and byte strings |
| CodecVectors.TextBytes | zdx_pixel_memory/spatial_store.py:92-94 | the bytes of a character of each length |
| CodecVectors.StringBytes | zdx_pixel_memory/spatial_store.py:92-94 | the bytes of a string |
| CodecVectors.ListBytes | zdx_pixel_memory/spatial_store.py:98-105 | the bytes of a list |
| CodecVectors.DictBytes | zdx_pixel_memory/spatial_store.py:106-119 | the bytes of a dictionary, entries in the order of their keys |
| CodecSizes.RemoveShrinks | zdx_pixel_memory/spatial_store.py:106-119 | a dictionary without one of its entries still encodes, to strictly fewer bytes |
| CodecSizes.ReplaceShrinks | zdx_pixel_memory/spatial_store.py:106-119 | replacing a value by one with a smaller encoding makes the dictionary's encoding no larger |
| DocumentLaws.CommitWhen | zdx_pixel_memory/spatial_store.py:253-264 | a commit goes through if and only if the memory encodes, fits the region, and the generation is not exhausted |
| DocumentLaws.CommitReads | zdx_pixel_memory/spatial_store.py:266-291 | a committed document reads back as that memory and the next generation |
| DocumentLaws.HeaderFields | zdx_pixel_memory/spatial_store.py:253-291 | where the header has its magic, version, generation, length, digest and count |
| DocumentLaws.StoreRefinesMap | zdx_pixel_memory/spatial_store.py:431-485 | any sequence of write, update, delete and clear on the bytes reads back as the plain map gives, the generation counting committed changes |
| SpatialStore.PixelStore.ReadFrame | zdx_pixel_memory/spatial_store.py:307-350 | reads the file; one that cannot be read is put away and replaced by a readable backup with the same executable rows, or the read fails; the quarantine may fail and the recovery may be cut |
| SpatialStore.PixelStore.Store | zdx_pixel_memory/spatial_store.py:352-372 | draws the memory over the frame that was read and replaces the file, cut anywhere between its renames |
| SpatialStore.PixelStore.Write | zdx_pixel_memory/spatial_store.py:431-438 | after the read, sets one key of the map; every refusal and cut leaves the files as specified |
| SpatialStore.PixelStore.Update | zdx_pixel_memory/spatial_store.py:440-451 | after the read, merges into the map; every refusal and cut leaves the files as specified |
| SpatialStore.PixelStore.Delete | zdx_pixel_memory/spatial_store.py:458-465 | after the read, removes a key that is there; every refusal and cut leaves the files as specified |
| SpatialStore.PixelStore.Clear | zdx_pixel_memory/spatial_store.py:482-485 | after the read, empties the map; every refusal and cut leaves the files as specified |
| SpatialStore.PixelStore.Read | zdx_pixel_memory/spatial_store.py:453-456 | the map's value, or the error of an unrecoverable file |
| SpatialStore.PixelStore.EnsureFile | zdx_pixel_memory/spatial_store.py:220-223 | opening replaces a missing file by a blank frame with an empty memory, possibly cut |
| SpatialStore.PixelStore.CommitSnapshot | zdx_pixel_memory/spatial_store.py:381-412 | the resident frame and memory replace the file, cut anywhere, if the file still has the expected digest and the memory fits; otherwise neither file nor frame changes |
| SpatialStore.PixelStore.LoadResident | zdx_pixel_memory/spatial_store.py:374-379 | what the read gave, with the digest of the file it left |
| SpatialStoreLaws.CommittedIsLoaded | zdx_pixel_memory/spatial_store.py:374-412 | what was committed is loaded: that memory, the next generation, and the resident frame's cells outside the region |
| SpatialStoreLaws.SnapshotGeneration | zdx_pixel_memory/spatial_store.py:393-412 | a snapshot is committed under the generation after that of the file, or the first over an unreadable one |
| SpatialStoreLaws.ReadGivesExactlyWhen | zdx_pixel_memory/spatial_store.py:307-350 | a read gives what the file holds; otherwise it gives what the backup holds if and only if that has the same program, the file could be put away and nothing is cut |
| SpatialStoreLaws.ChangeThenRead | zdx_pixel_memory/spatial_store.py:431-485 | a change that reports success is what the next read finds, key by key, with the next generation and every other cell as it was |
| SpatialStoreLaws.ChangedExactlyWhen | zdx_pixel_memory/spatial_store.py:431-485 | the exact condition of that success |
| SpatialStoreLaws.DamagedRegionFallsBack | zdx_pixel_memory/spatial_store.py:307-340 | after a committed change, damage confined to the region costs exactly that change: the next read recovers the memory, generation and raster from before |
| SpatialStoreLaws.TornReadRecovers | zdx_pixel_memory/spatial_store.py:316-325 | with the file missing, a read by a store that is still open recovers the memory if and only if there are no executable rows |
| SpatialStoreLaws.TornReopenBlanks | zdx_pixel_memory/spatial_store.py:220-223 | a store that is reopened there never recovers: it reads an empty memory of generation one, or stays without a file if that does not fit |
| SpatialStoreLaws.RunRefines | zdx_pixel_memory/spatial_store.py:307-485 | over every history of changes, reads and reopenings, each cut anywhere, the files hold what a map with its generation and surrounding cells says |
| SpatialStoreLaws.StoreIsMap | zdx_pixel_memory/spatial_store.py:431-485 | over every uncut history on a readable file, it holds the plain map with its counter, and every cell outside the region is the one there at first |
| SpatialStoreLaws.KeptExactlyWhen | zdx_pixel_memory/spatial_store.py:220-485 | over every history, the files hold the last committed change at every moment if and only if no store is reopened while a torn commit has left its file missing, unless what it wipes was a first empty memory |
| SpatialStoreLaws.CrashThenReopenLoses | zdx_pixel_memory/spatial_store.py:220-223 | any change torn by a crash and followed by a reopening loses the memory |
| SpatialStoreLaws.LosingHistory | zdx_pixel_memory/spatial_store.py:220-223 | a concrete history: open, write, crash in the next write, open again, and the value is gone |
| SpatialStoreLaws.SampleLoses | zdx_pixel_memory/spatial_store.py:220-223 | there is a store on which that history runs |
| SpatialStoreLaws.HeldRemoval | zdx_pixel_memory/spatial_store.py:458-465 | a key of what a file holds can be removed as long as there are generations left |
| Ring.NoCollision | zdx_spatial_mailbox.py:116-118 | live sequence numbers never share a slot |
| Ring.RoundAndRound | zdx_spatial_mailbox.py:116-118 | numbers go round the slots one after another, starting with the first |
| Ring.PushModels | zdx_spatial_mailbox.py:143-160 | filling the next slot appends to the queue the slots stand for |
| Ring.PopModels | zdx_spatial_mailbox.py:177-187 | clearing the oldest slot takes the front of the queue |
| MailboxLaws.DecodeSlotImage | zdx_spatial_mailbox.py:189-219 | a slot image decodes to its packet |
| MailboxLaws.SlotHeaderFields | zdx_spatial_mailbox.py:149-153 | where a slot header has its number, lengths and digest |
| MailboxLaws.SendableExactlyWhen | zdx_spatial_mailbox.py:129-141 | the exact sizes a message may have |
| MailboxLaws.TamperingDetected | zdx_spatial_mailbox.py:63-79 | if the hash has no collisions, a slot that decodes at all decodes to the packet its digest was made for: the digest covers every field and keeps them apart |
| MailboxLaws.EnqueuedInSlot | zdx_spatial_mailbox.py:143-160 | an enqueued message lies in its slot as its encoded sender, recipient, topic and payload, in that order |
| MailboxLaws.EnqueueWhen | zdx_spatial_mailbox.py:129-146 | enqueue succeeds, or reports full, for exactly the reasons a bounded queue has |
| MailboxLaws.EnqueueRefines | zdx_spatial_mailbox.py:143-160 | a successful enqueue appends the numbered packet to the queue the bytes stand for |
| MailboxLaws.PeekRefines | zdx_spatial_mailbox.py:170-175 | peek finds the front |
| MailboxLaws.AdvanceRefines | zdx_spatial_mailbox.py:177-187 | dequeue removes the front |
| MailboxLaws.OpenRefines | zdx_spatial_mailbox.py:103-109 | opening a blank region makes an empty queue; reopening with the same geometry changes nothing |
| MailboxLaws.FifoForever | zdx_spatial_mailbox.py:87-187 | over every history of enqueue, peek, dequeue and reopen: received messages are the first ones sent, intact and in order, numbered 1, 2, 3; peek, dequeue and the pending count are right; at most the slot count are pending, and a sendable message is refused as full if and only if that many are |
| SpatialMailboxes.SpatialMailbox.EnsureHeader | zdx_spatial_mailbox.py:103-109 | writes a header into a blank region, accepts a matching one, refuses any other |
| SpatialMailboxes.SpatialMailbox.Enqueue | zdx_spatial_mailbox.py:120-168 | the region becomes the specified bytes, a failure changes nothing, and the rest of the frame is untouched |
| SpatialMailboxes.SpatialMailbox.PatchSlot | zdx_spatial_mailbox.py:149-158 | the three in-place edits leave exactly the slot image |
| SpatialMailboxes.SpatialMailbox.Peek | zdx_spatial_mailbox.py:170-175 | the front message of the region's bytes |
| SpatialMailboxes.SpatialMailbox.Dequeue | zdx_spatial_mailbox.py:177-187 | the front message, with the region advanced in place |
| AgentMemory.Manager.EnforceNamespace | zdx_agent_memory_manager.py:232-252 | the loop evicts as the specification does, or fails |
| AgentMemory.Manager.EnforceDocument | zdx_agent_memory_manager.py:254-270 | the same for the whole document |
| AgentMemory.Manager.SetEntry | zdx_agent_memory_manager.py:322-345 | a set succeeds with the specified session or leaves the session as it was |
| AgentMemory.Manager.Append | zdx_agent_memory_manager.py:347-356 | sets under the key made from the next sequence number |
| AgentMemory.Manager.DeleteEntry | zdx_agent_memory_manager.py:358-371 | removes that entry and no other, and says whether it was there |
| AgentMemory.Manager.ClearNamespace | zdx_agent_memory_manager.py:373-380 | removes every entry of that namespace and nothing else |
| AgentMemoryLaws.OldestIsFirst | zdx_agent_memory_manager.py:224-230 | the victim has a smaller sequence than every other candidate |
| AgentMemoryLaws.EvictKeepsLongest | zdx_agent_memory_manager.py:232-270 | eviction stops at the longest acceptable run of newest entries |
| AgentMemoryLaws.AcceptableExactlyWhen | zdx_agent_memory_manager.py:213-270 | entries are acceptable if and only if they are within the count and the bytes of their policy and the document can be written into its region |
| AgentMemoryLaws.SetKeepsLongestRun | zdx_agent_memory_manager.py:322-337 | a successful set keeps the new entry and the longest run of newest others that meets the count, namespace byte and document byte limits at once, and leaves other namespaces alone |
| AgentMemoryLaws.SetSucceedsWhen | zdx_agent_memory_manager.py:241-270 | when everything encodes, a fifo namespace takes a value if and only if it is acceptable as the only entry; a rejecting one, if and only if nothing has to go |
| AgentMemoryLaws.RejectNeverEvicts | zdx_agent_tool_gateway.py:289-298 | a rejecting namespace never loses an entry to a set |
| AgentMemoryRuns.DeleteStep | zdx_agent_memory_manager.py:358-371 | delete keeps the numbers and each quota |
| AgentMemoryRuns.EntryInDocument | zdx_agent_memory_manager.py:106-120 | every entry, number and policy is found in the document under its own path |
| AgentMemoryRuns.ClearStep | zdx_agent_memory_manager.py:373-380 | clear keeps the numbers and each quota, and brings its namespace within its own |
| AgentMemoryRuns.RunKeepsQuotas | zdx_agent_memory_manager.py:157-194 | over every run from any root that passed its checks, numbers stay unique and below the counter, a namespace within its quotas stays so, one persisted over them is within them from the first value it takes, and likewise the document |
| AgentMemoryRuns.FreshIsSound | zdx_agent_memory_manager.py:106-120 | a newly installed root has every namespace within its quotas and the document within its region |
| AgentMemoryRuns.FreshRunsStaySound | zdx_agent_memory_manager.py:106-380 | and so has every state of every run of a newly installed manager |
| AgentMemoryRoots.OnlyPersistedKeysCollide | zdx_agent_memory_manager.py:347-356 | over every run from any root that passed its checks, a generated key can only collide with one that was already persisted under another number |
| AgentMemoryRoots.FreshAppendNeverCollides | zdx_agent_memory_manager.py:347-356 | in a manager that installed its own root it never collides |
| AgentMemoryRoots.PersistedKeyCollides | zdx_agent_memory_manager.py:157-200 | an accepted root on which an append collides |
| AgentMemoryRoots.GeneratedKeyAllowed | zdx_agent_memory_manager.py:347-356 | a generated key is an allowed key if and only if its number has at most 152 hexadecimal digits |
| AgentMemoryRoots.HexReads | zdx_agent_memory_manager.py:347-356 | the digits of a generated key read back as its number |
| AgentMemoryRoots.RootsAcceptedExactlyWhen | zdx_agent_memory_manager.py:157-200 | over every run, each root produced passes the root validation again if and only if no append used a wider number |
| AgentMemoryRoots.ShortRunsAccepted | zdx_agent_memory_manager.py:157-200 | so no run shorter than the numbers left produces a root that would be refused |
| AgentMemoryRoots.FreshIsAccepted | zdx_agent_memory_manager.py:106-120 | a newly installed root passes the validation |
| AgentMemoryLimits.LastAppendIsTooWide | zdx_agent_memory_manager.py:347-356 | an accepted root within its quotas whose next append succeeds and leaves a root that is refused |
| Checkpoint.Manager.SubmitRequest | zdx_checkpoint.py:105-151 | the critical section of submit: a pending barrier is never replaced, and an accepted request is the pending one with the number drawn |
| Checkpoint.Manager.ResumeSubmit | zdx_checkpoint.py:133-143 | a blocked submitter goes on or gives up |
| Checkpoint.Manager.TakePending | zdx_checkpoint.py:200-206 | what was pending is in the hands of the worker, which otherwise stops when closed |
| Checkpoint.Manager.CommitSnapshot | zdx_pixel_memory/spatial_store.py:393-412 | the file changes only if it is the expected parent, and then holds the snapshot under the next store generation; otherwise the worker stops |
| Checkpoint.Manager.RecordCommit | zdx_checkpoint.py:226-231 | the commit becomes the last one, and an undisturbed file is the parent the next commit expects |
| CheckpointLaws.CommitsFollowSubmissions | zdx_checkpoint.py:105-236 | with one submitter at a time, commits are a subsequence of submissions with increasing ids, and each one's parent has the digest of the commit before |
| CheckpointLaws.SubmitAnswers | zdx_checkpoint.py:105-151 | exactly when a submission is refused, waits, or becomes the pending request, and what it then is |
| CheckpointLaws.CommitsAreSound | zdx_checkpoint.py:198-231 | over every run, each commit holds a snapshot with its own hash one store generation above what it replaced, and the number and generation reported as committed are those of one commit |
| CheckpointLaws.DurableMeansOnDisk | zdx_checkpoint.py:153-184 | when a barrier returns or a flush is true, the file holds exactly the last submitted snapshot, unless someone else has written it |
| CheckpointLaws.CleanStopIsDurable | zdx_checkpoint.py:186-203 | a worker that stops without an error has left nothing uncommitted |
| CheckpointLaws.BarriersAreNotSkipped | zdx_checkpoint.py:131-149 | a submitted barrier is committed, on its way, or the worker has failed |
| CheckpointLaws.ForeignWriteSurvives | zdx_pixel_memory/spatial_store.py:393-398 | once someone else has written the file, no run of the manager overwrites it or commits |
| CheckpointLaws.DivergedStep | zdx_checkpoint.py:232-236 | the next write then fails and stops the worker |
| CheckpointLaws.UndisturbedRun | zdx_pixel_memory/spatial_store.py:393-412 | without other writers every commit replaces exactly the file before it, raising the store generation by one, and every write succeeds |
| CheckpointLaws.WorkerCatchesUp | zdx_checkpoint.py:198-231 | without other writers and without errors, five worker steps from any reachable state make the last submission durable |
| CheckpointLaws.OvertakingCommits | zdx_checkpoint.py:119-143 | three concurrent submitters can have ids 1, 3, 2 committed in that order |
| CheckpointOrder.LateLoses | zdx_checkpoint.py:119-143 | every submission that passes its checks while another call is blocked can be committed before that call |
| CheckpointOrder.OnlyLateStepsLoseOrder | zdx_checkpoint.py:105-236 | after any serial undisturbed run, a step puts the order of commits at risk if and only if it is such a submission |
| CheckpointOrder.OrderKeptExactlyWhen | zdx_checkpoint.py:105-236 | over whole undisturbed runs, commits are safe from overtaking throughout if and only if no submission passes its checks while another call is blocked |
| AgentSession.FlushedIsResident | zdx_spatial_agent_session.py:58-298 | over every run of an opened session, a flush that returns true has the resident state on disk once anything was submitted, and from the start if the session was dirty or the loaded document complete |
| AgentSession.CleanExactlyWhen | zdx_spatial_agent_session.py:105-140 | a session that is not dirty starts with what was loaded if and only if that had a checkpoint and its interface in normal form |
| AgentSession.FlushKeptExactlyWhen | zdx_spatial_agent_session.py:105-298 | flushes keep their promise over all runs if and only if the session started dirty or from such a document |
| AgentSession.SeedIsNotFlushed | zdx_spatial_agent_session.py:117-140 | a document with interface and metadata and no checkpoint, seeded with a machine state that has no metadata, starts a session whose first flush is wrong |
| AgentSession.DirtyUntilSubmitted | zdx_spatial_agent_session.py:220-298 | a change sets the dirty flag, and only a submission or a committed barrier clears it |
| AgentSession.BarrierReturnsResident | zdx_spatial_agent_session.py:278-291 | a checkpoint that returns from its barrier has put the resident state on disk, however the session was opened |
| ToolGateway.RuleFor | zdx_agent_tool_gateway.py:143-147 | a rule for the tool if there is one, and only then |
| ToolGateway.Propose | zdx_agent_tool_gateway.py:335-381 | a request becomes a proposal with its own tool, operation, resource, arguments and key, bound to the resident state and the policy, that passes validation; or that is illegal |
| ToolGateway.Gateway.Execute | zdx_agent_tool_gateway.py:518-619 | a run of the modelled steps; the handler is called at most once, with the request's own fields in the machine state it was made in; refused if and only if no rule grants the request or the authorizer did not approve it; exactly when it starts, gives the handler's result, or fails, and what is recorded; no other action's records change |
| ToolGateway.Gateway.Attempt | zdx_agent_tool_gateway.py:562-619 | the handler is called once if and only if the intent could be recorded and, where required, made durable |
| ToolGateway.Gateway.Conclude | zdx_agent_tool_gateway.py:579-619 | a result is returned if and only if it is stored and, where required, durable, and then the intent is gone; a failed handler leaves its intent marked for review |
| ToolGateway.GrantedIsAllowed | zdx_agent_tool_gateway.py:383-409 | the local decision allows an action if and only if some rule grants its tool, operation and resource |
| ToolGateway.DeniedExactlyWhen | zdx_agent_tool_gateway.py:383-498 | a legal request is denied if and only if no rule grants its tool, operation and resource or the authorizer did not approve it under its own hash |
| ToolGatewayLaws.AllowedExactlyWhen | zdx_agent_tool_gateway.py:412-498 | a call is allowed if and only if the proposal is genuine and current, locally granted, and externally allowed for this very action and policy |
| ToolGatewayLaws.AtMostOnce | zdx_agent_tool_gateway.py:541-619 | over every run of calls, failures, other checkpoints and crashes that restore any memory since the last barrier, an action under a barrier rule reaches its handler at most once |
| ToolGatewayLaws.RecordedActionsNeverRun | zdx_agent_tool_gateway.py:541-563 | an action whose intent or result was loaded never reaches its handler |
| ToolGatewayLaws.OnlyApprovedCalls | zdx_agent_tool_gateway.py:535-566 | only registered tools are called, and only with genuine, granted proposals |
| ToolGatewayLaws.FinalBarrierSettles | zdx_agent_tool_gateway.py:608-614 | the last barrier of a call makes its result durable |
| ToolGatewayLaws.DurableResultIsFinal | zdx_agent_tool_gateway.py:541-554 | once durable, a result is what every later authorised call for the same proposal returns, across any crashes |
| ToolGatewayLaws.WithoutBarriersTwice | zdx_agent_tool_gateway.py:575-579 | without barriers a crash can make the handler run twice |
| ToolGatewayLaws.OnceExactlyWhen | zdx_agent_tool_gateway.py:541-619 | an action hash reaches its handler at most once over all runs if and only if every runnable action with that hash is under a barrier rule |
| AtomicFile.Folder.Replace | zdx_storage.py:157-211 | the two renames and the rollback, cut by a crash or an exception at any step |
| StateStore.Store.Save | zdx_storage.py:450-468 | a damaged primary is quarantined first; an intact one passes on its creation time and migration log |
| StateStore.Store.Load | zdx_storage.py:380-448 | primary, backup, recovery, migration, default or error, with every rename possibly cut |
| StateStore.Store.UpgradeData | zdx_storage.py:238-273 | the loop applies the one-version migrations in order, or fails at the first that is missing or raises |
| StateStoreLaws.UpgradeComposes | zdx_storage.py:238-273 | upgrading in two stages is upgrading in one |
| StateStoreLaws.OneStage | zdx_storage.py:249-263 | one stage gives what its migration makes of the data |
| StateStoreLaws.FailsAtFirst | zdx_storage.py:244-272 | an upgrade that fails stopped at the first version whose migration is missing or raises |
| StateStoreLaws.SaveKeepsRecord | zdx_storage.py:450-468 | a save over an intact primary keeps its creation time and migration log |
| StateStoreLaws.MigrationKeepsRecord | zdx_storage.py:410-447 | a migrating load writes the upgraded data with the old creation time and logs every version passed, in order |
| StateStoreLaws.NothingToLoad | zdx_storage.py:380-409 | with nothing intact: the default without files, the offered default or a report with one damaged file, a report with two |
| StateStoreLaws.UnusableMeans | zdx_storage.py:410-434 | a file that cannot be used is reported as newer, or with the migration that is missing or raised |
| StateStoreLaws.SaveIsAtomic | zdx_storage.py:157-211 | wherever it is cut and whatever is damaged, a save replaces what a load finds if its final rename happened and otherwise leaves it |
| StateStoreLaws.LoadFindsNewest | zdx_storage.py:380-448 | a load, cut at any rename of its quarantine, recovery or migration, never changes what the next load finds, and returns it; a default or a report of damage means nothing intact was there |
| StateStoreLaws.RunKeepsNewest | zdx_storage.py:380-468 | over every run of saves and loads cut anywhere, a load finds the newest save whose final rename happened |
| StateStoreLaws.LoadReturnsNewestSave | zdx_storage.py:380-468 | an uncut load then returns exactly that data |
| StateStoreLaws.DamagedPrimaryFallsBack | zdx_storage.py:389-404 | over every run from empty files that leaves a primary: damage to it leaves something to load if and only if two saves were committed and none was rolled back since the last, and that is the save before the last |
| StateStoreLaws.RunBackedUp | zdx_storage.py:187-206 | over every run, a primary has a backup if and only if two saves were committed and none was rolled back since the last |
| StateStoreLaws.RollbackLosesBackup | zdx_storage.py:202-206 | a rolled back save loses the older backup |
| ComputeTask.Validate | zdx_compute_core.py:48-115 | a task that passes keeps its id, has positive sizes and a proper digest, that of its artifact if it has one, and if spatial asks for the feature and fits its layout |
| ComputeTask.ValidationSettles | zdx_compute_core.py:48-115 | validating twice is validating once |
| ComputeTask.ValidatedExactlyWhen | zdx_compute_core.py:48-115 | the exact condition on a task |
| ComputeTask.ValidationKeeps | zdx_compute_core.py:48-115 | validation changes only the spelling of digests, a missing digest, and the feature a spatial task needs |
| Coordinator.ComputeCoordinator.SubmitTask | zdx_compute_core.py:170-178 | queues a new task in normal form with no attempts, moves no other task, refuses a known or invalid one |
| Coordinator.ComputeCoordinator.RegisterWorker | zdx_compute_core.py:183-188 | the worker is registered with these capabilities, and no other changes; an empty id is refused |
| Coordinator.ComputeCoordinator.Reservation | zdx_compute_core.py:208-224 | the loop's sum is the order-free sum of the worker's running leases |
| Coordinator.ReservedSplits | zdx_compute_core.py:208-212 | the sum does not depend on the order: each of the worker's own leases counts with its task's memory or threads, any other not at all |
| Coordinator.ComputeCoordinator.RequeueExpired | zdx_compute_core.py:313-331 | giving expired leases up one by one, in any order, is giving them all up at once |
| Coordinator.ChosenIsFirst | zdx_compute_core.py:226-234 | a task is chosen if and only if some queued task fits, and it was submitted before every other that fits |
| Coordinator.ComputeCoordinator.FirstFit | zdx_compute_core.py:226-234 | the scan in order of submission finds the least of the tasks that fit |
| Coordinator.ComputeCoordinator.ClaimTask | zdx_compute_core.py:190-249 | expires, computes the room left under the registered caps, and leases the first task that fits |
| Coordinator.ComputeCoordinator.GrantLease | zdx_compute_core.py:235-247 | moves the task, and no other, to running under this worker with one more attempt, for the shorter of the lease time and the task's own |
| Coordinator.ComputeCoordinator.CompleteTask | zdx_compute_core.py:251-264 | succeeds if and only if the worker holds the lease and the result is not too large; the task is then completed, with its worker and result recorded, and nothing has failed |
| Coordinator.ComputeCoordinator.ReleaseTask | zdx_compute_core.py:266-285 | succeeds if and only if the worker holds the lease; the task waits again, or has failed when its attempts are spent, and no other moves |
| Coordinator.ComputeCoordinator.FailTask | zdx_compute_core.py:287-300 | succeeds if and only if the worker holds the lease; the task has then failed, with its worker and error recorded, and nothing is completed |
| CoordinatorLaws.EveryTaskInOneBucket | zdx_compute_core.py:170-331 | in every reachable state an accepted task is in exactly one bucket, has attempts to spare while queued and between one and all while running, and is leased at most the cap over the whole run |
| CoordinatorLaws.QueuedTasksRevalidate | zdx_compute_core.py:228-229 | every queued task is in normal form, so reading it back for a claim never fails |
| CoordinatorLaws.NeverLost | zdx_compute_core.py:170-331 | an accepted task stays accepted and its granted leases stay granted |
| CoordinatorLaws.OnlyLastLeaseCounts | zdx_compute_core.py:308-311 | complete, release and fail accept a lease id only if it is the one granted last for that task |
| CoordinatorEndings.EndedExactlyBy | zdx_compute_core.py:251-331 | over every run, a task is completed if and only if some call completed it as its lease holder, and has failed if and only if its holder failed it or its lease was released or ran out with its attempts spent; the record is that call's: leased task, worker, result or error, attempts |
| CoordinatorEndings.ExpiryTakesBack | zdx_compute_core.py:313-331 | expiry takes back exactly the leases that ran out |
| CoordinatorEndings.TaskIsSubmitted | zdx_compute_core.py:170-331 | whatever happened to it, the task under an id is the normal form of the one submitted |
| CoordinatorEndings.ClaimExactlyWhen | zdx_compute_core.py:190-249 | a worker gets a task if and only if a waiting one fits its offer, each of its limits and its features with what it holds; it is the first such, and becomes the worker's |
| CoordinatorLaws.ReservationsStayWithinCaps | zdx_compute_core.py:197-247 | while a worker's capabilities are unchanged, its leases never exceed any of its positive memory limits or its processor count |
| Cluster.ReplicatedClusterState.Append | zdx_cluster.py:87-100 | adds one operation, below the limit, that any merge accepts |
| Cluster.ReplicatedClusterState.MergeSnapshot | zdx_cluster.py:102-123 | the loop adds unknown intact operations in order and stops at the first bad one |
| Cluster.ReplicatedClusterState.Materialize | zdx_cluster.py:132-164 | the loop replays the operations in order of time and id |
| ClusterLaws.MergeIsUnion | zdx_cluster.py:110-120 | merging an honest snapshot, in any listing order, is set union |
| ClusterLaws.MergeCounts | zdx_cluster.py:108-123 | an honest snapshot is accepted and the answer is the number of new operations |
| ClusterLaws.MergeRefused | zdx_cluster.py:102-107 | a snapshot of another cluster or version, or with too many operations, changes nothing |
| ClusterLaws.RefusedExactlyWhen | zdx_cluster.py:111-118 | what is wrong with a refused operation |
| ClusterLaws.MergeOnlyAdds | zdx_cluster.py:110-120 | however a merge ends, nothing changes or goes and everything new is intact and listed |
| ClusterLaws.FailedMergeKeepsPrefix | zdx_cluster.py:110-120 | a failed merge has kept exactly what came before the offending operation |
| ClusterLaws.ReplicasConverge | zdx_cluster.py:102-164 | nodes that hold or received the same operations in all, in any order and with repeats, have the same log and the same task table |
| ClusterLaws.OrderIsUnique | zdx_cluster.py:129-130 | there is only one ascending order of a log's operations |
| ClusterLaws.AppendActsLast | zdx_cluster.py:129-164 | an operation that sorts after everything in the log is replayed last |
| ClusterLaws.LastExactlyWhen | zdx_cluster.py:129-130 | an appended operation comes last if and only if it is later than everything in the log, ties going to the greater id |
| ClusterLaws.EarlierClaimIgnored | zdx_cluster.py:129-164 | a claim appended with an earlier time than its submission has no effect, although replayed last it would |
| ClusterLaws.OneBucketExactlyWhen | zdx_cluster.py:140-160 | throughout a replay every submitted task is in exactly one bucket if and only if no submission comes after its task left the queue |
| ClusterLaws.OneSubmissionOneBucket | zdx_cluster.py:140-160 | with one submission per task that condition holds |
| ClusterLaws.OneBucketPerTask | zdx_cluster.py:132-164 | so every submitted task of such a log is in exactly one bucket of the table |
| ClusterLaws.ResubmissionSplits | zdx_cluster.py:140-143 | a second submission while the task runs leaves it both waiting and running |
| ClusterLaws.OnlyTheTakerEnds | zdx_cluster.py:144-169 | only the lease that took a task from the queue last can complete, fail or release it |
| ClusterLaws.FinishedStays | zdx_cluster.py:149-158 | a finished task keeps its record unless it is submitted again |
| ClusterEndings.PresentedExactlyWhen | zdx_cluster.py:166-169 | a lease id is accepted if and only if it is the running one |
| ClusterEndings.CompletionFiles | zdx_cluster.py:151-155 | a completion with the running lease files the task as completed with its run and body, and nowhere else |
| ClusterEndings.FailureFiles | zdx_cluster.py:156-160 | a failure with the running lease files it as failed |
| ClusterEndings.ReleaseReturns | zdx_cluster.py:147-150 | a release with the running lease puts the task back as it was taken |
| ClusterEndings.ClaimTakes | zdx_cluster.py:145-146 | a claim takes a waiting task and records worker, lease and deadline |
| ClusterEndings.OutOfPlaceIgnored | zdx_cluster.py:145-160 | anything else about a task is ignored |
| ClusterEndings.EveryEntryExplained | zdx_cluster.py:132-164 | every entry of the table has its history in the operations, in order: submitted with that body, claimed by that worker under that lease until then, ended with that lease and body |
| ClusterEndings.LastWordStands | zdx_cluster.py:132-164 | a task is among the completed, or the failed, if and only if an operation with the lease running then put it there, and the last such record stands; so for contributions |
| ClusterEndings.SubmitClaimComplete | zdx_cluster.py:143-155 | the table after a submission, its claim and its completion |
| Handshake.SessionRegistry.EstablishSession | zdx_network.py:254-272 | a new inactive session replaces the peer's old one, and the tables stay inverse |
| Handshake.SessionRegistry.CloseSession | zdx_network.py:325-330 | removes the session, and the peer if it points to it, and the tables stay inverse |
| Handshake.SessionRegistry.Cleanup | zdx_network.py:332-341 | closing expired sessions one by one, in any order, is closing them all at once, and the tables stay inverse |
| Handshake.SessionRegistry.GetSession | zdx_network.py:274-289 | the live session, or the first failing check, closing it if expired, and the tables stay inverse |
| Handshake.SessionRegistry.ActivateSession | zdx_network.py:291-296 | the peer's own unexpired session becomes active, and the tables stay inverse |
| Handshake.SessionRegistry.CheckReplay | zdx_network.py:298-316 | accepts the next number with a nonce not seen recently, and nothing else; the tables stay inverse |
| Handshake.SessionRegistry.DrawSequence | zdx_network.py:318-323 | hands out outbound numbers one by one; the tables stay inverse |
| Handshake.SessionCoordinator.ReceiveHello | zdx_session.py:62-86 | an authentic hello opens an inactive session with a challenge |
| Handshake.SessionCoordinator.ReceiveConfirmation | zdx_session.py:88-121 | only the same sender with that session's challenge activates it |
| Handshake.SessionCoordinator.ReceivePacket | zdx_network.py:429-442 | a packet is checked before any session state changes |
| HandshakeLaws.TablesStayInverse | zdx_network.py:254-341 | over every run the session table and the peer table are mutually inverse: one live session per peer |
| HandshakeLaws.AcceptedAfterConfirmation | zdx_session.py:62-121 | an accepted packet comes after a confirmation by its own sender carrying the challenge its session was opened with for that sender |
| HandshakeLaws.NumbersAreConsecutive | zdx_network.py:298-316 | the accepted numbers of every session are exactly 1, 2, 3, and so on |
| HandshakeLaws.NoPacketTwice | zdx_network.py:298-316 | no packet is accepted twice |
| HandshakeRules.AcceptedExactlyWhen | zdx_network.py:298-316 | a packet is accepted if and only if it is fresh, of an active unexpired session of its sender, next in number, and without a nonce of the last minute |
| HandshakeRules.RefusedChangesLittle | zdx_network.py:274-316 | a refused packet moves no number |
| HandshakeRules.HelloExactlyWhen | zdx_session.py:62-86 | the exact condition on a hello, and the session it opens |
| HandshakeRules.ConfirmedExactlyWhen | zdx_session.py:88-121 | the exact condition on a confirmation, and what it changes |
| HandshakeRules.CleanedExactlyWhen | zdx_network.py:332-341 | a cleanup closes exactly the expired sessions |
| HandshakeRules.DrawnExactlyWhen | zdx_network.py:318-323 | a number is handed out if and only if the session is active and unexpired |
| HandshakeRules.OutboundConsecutive | zdx_network.py:318-323 | over every run the numbers a session hands out are 1, 2, 3, and so on |
| HandshakeLaws.InOrderDelivery | zdx_network.py:298-316 | packets numbered in order, with nonces of their own, that arrive in order and in time are all accepted |
| HandshakeLaws.HonestPeerGetsThrough | zdx_session.py:62-121 | a peer that says hello, answers its challenge in time and numbers packets from one gets all of them accepted |

## Left out
- Frame chaining through the file system, the chain bound of `execute_texture`, persisted shared-state files, debug output and metrics: input and output.
- Checkpoint hashes of the machine state: an arbitrary function of the snapshot.
- `SimpleCompiler._validate` only prints warnings; a JSON payload of the spatial compiler is its bytes.
- The quarantined copies of damaged files, which nothing reads again.
- SpatialStore.PixelStore.constructor: takes only the arguments the source accepts; its last step is `EnsureFile`.
- SpatialMailboxes.SpatialMailbox.constructor: takes only the arguments the source accepts; its header step is `EnsureHeader`.
- Histories of a mailbox with corrupted slots, beyond what `TamperingDetected` says about one slot.
- The default memory policies, and the parsing of a persisted root into namespaces, entries and numbers.
- Checkpoint.Manager.CommitSnapshot: the file is replaced in one step; a replacement torn between its renames is `WriteFails` followed by `Overwrite(None)`, and one that raises after its last rename is `Write` followed by `RecordFails`.
- ToolGateway.Propose: the name, argument and size rules of a proposal are one arbitrary test.
- The gateway's records are touched by nobody but the gateway.
- `StateStore.update`, the rollback callbacks of migrations, and the envelope's compatibility fields; whether a file passes its checks is part of its value.
- Task metadata other than the execution model and the required features; times are whole numbers.
- The coordinator's state file. A call that presents no lease id is accepted from the lease holder, as in the source, so `OnlyLastLeaseCounts` is about calls that present one.
- `claim_task` and the live-lease checks of the cluster state, which only choose what to append; the session client; key enrolment and rotation.
- The election, the servers, artifacts, enrolment, discovery and the user interfaces.
