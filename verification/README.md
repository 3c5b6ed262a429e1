# Models of the shared-memory channel, the DZFlat wire and the path switch

This project states and proves what the repository's concurrent and layout-critical code is for.
`dafny verify dfyconfig.toml` checks all of it.

**The broadcast ring and its chunks.** One sender and up to 32 receivers share 256 slots; large messages
travel as chunk ids from a pool of 32. `Ownership` is the system of both at the granularity of single
atomic accesses (the sender's claim, callback, payload and index increment are one step, as the comments
in the ring exclude a finer overlap). `Delivery` proves what a `pop` that returns true delivers, `Chunks`
that every chunk id has one owner, `ChunkLife` how it passes from one to the next, `LateJoiner` runs the one
case in which it has not. `Fifo` takes `pop` as one step and proves order, laps, when `push` is refused and the
"last reader" verdict over whole runs; `SoloPops` shows that the accesses of a receiver left alone add up to
that step, `PopOrder` what is left of the order when it is not. `Channel` is the same ring as
objects updated in place, each method tied to the functions the theorems are about. `CommitRing` is the
multi-producer multi-consumer ring, every load, store and exchange a step, for any number of threads;
`CommitSolo` shows that a call left alone ends.
`IdPool` is the free list under the chunk pool, `ChunkSizes` the arithmetic around it, `Fragments` the
cutting and reassembly of messages that do not travel in chunks.

**DZFlat.** A schema is a datatype with the seven kinds of field, nested to any depth. `DzFlatSchema` lays
records out; `DzFlatWriter` is the generated `emit` and `write` as interpreters over the schema;
`DzFlatSegment` is the same writer as an object that fills an array; `DzFlatDecoder` and `DzFlatReceiver`
are the Python decoder, as functions and as loops with counters, `DzFlatOutcome` what both make of arbitrary
bytes, told from the bytes. `DzFlatCapacity`, `DzFlatRoundTrip`,
`DzFlatDeterminism` and `DzFlatLeak` hold the theorems. `DepSort` and `LayoutCache` are the order in which
types are generated and the caches that rely on it. Strings are byte sequences, floats bit patterns.

**Control.** `PathSwitch` is the supervisor of either role together with the section its mutex guards;
`RwLock` and `Waiter` are the reader/writer spin lock and the condition waiter as step systems.

## What was found

- The cursor of a receiver fixes the slot it looks at, not the message it finds there. A receiver that is
  lapped after it has chosen a slot gets a message of a later lap and then older ones: 256 before 1
  (`PopOrder.LappedOutOfOrder`). A delivery is the message of the cursor's own position if and only if the
  writer has not gone round since (`PopOrder.DeliversAtCursorIff`), and a receiver that is never lapped inside
  a call gets everything in order (`PopOrder.InOrderUnlessLapped`).
- A receiver that connects between the acquisition of a chunk and its publication is not in the bitmap
  stored in the chunk, but its bit is set in the slot. The chunk then goes back to the pool while that
  receiver holds it, and later enters the pool a second time (`LateJoiner.LateJoinerBreaksOwnership`).
  Ownership survives a publication if and only if the stored bitmap equals the connected receivers
  (`ChunkSafety.PublishKeepsOwnershipIff`), and all along a run if and only if it does at each of its
  publications (`ChunkSafety.OwnedAllAlongIff`).
- The generated expression for "no padding" calls a type without fields tight, although its 8 bytes are
  never written. An array of such elements therefore carries bytes left over in the chunk
  (`DzFlatLeak.EmptyElementLeaks`). Segments depend on the message alone if and only if no tight element
  type has an empty record inlined in it (`DzFlatLeak.ChunkIndependentIff`).
- Nothing marks a first fragment. A listener that starts in the middle of a message hands out the rest of
  it as a message (`Fragments.LateListenerHandsOutSuffixes`; the smallest case is
  `Fragments.HalfIsHandedOut`). What it hands out are messages if and only if it missed no fragment of those
  whose last one it saw (`Fragments.LateListenerWholeIff`). The comment in sniffer.cpp gives this as the
  reason to drop everything after a lap and to go on at the write index; a message that is being sent at
  that moment is still handed out without its beginning (`Fragments.Sniffer.TryRecvOne`,
  `Fragments.LappedHandsOutWholeIff`).
- Sizes of 2^31 bytes and more do not survive the 32-bit field that carries them, so loans above 2^30 bytes
  cannot be found again by a receiver: it reads no size at all, or one of another pool
  (`ChunkSizes.LoanFoundIff`).
- The once-per-connection flag of the path switch never refuses an attempt: the question is only asked once
  per connection (`PathSwitch.GuardIsNeverUsed`).

## Model

| member | source | states |
|---|---|---|
| BroadcastRing.IndexSurvivesWrap | src/libipc/circ/elem_def.h:22-24 | a write index cut to 32 bits names the same of the 256 slots |
| BroadcastRing.LagSurvivesWrap | src/libipc/prod_cons.h:379-383 | cursors less than 2^32 behind compare and subtract alike on 32 bits |
| Channel.LowestFree | src/libipc/circ/elem_def.h:59-71 | the lowest free of the 32 connection bits |
| Channel.Elems.ConnectReceiver | src/libipc/circ/elem_def.h:59-71 | a free bit is handed out and added; none only when all 32 are taken |
| Channel.Elems.Push | src/libipc/prod_cons.h:239-276 | in place: refused without receivers or while one holds the slot in this epoch, otherwise the ring of the step relation; the callback gets the readers that lose the old message |
| Channel.Elems.ForcePush | src/libipc/prod_cons.h:279-327 | in place: the epoch always moves, the slot is overwritten whenever there is a receiver |
| Channel.Elems.Pop | src/libipc/prod_cons.h:379-430 | in place: the scan from the resynchronised cursor, result and ring as the step relation says |
| Channel.Queue.Connect | src/libipc/queue.h:76-84 | a new receiver gets a free bit and starts at the write index; connecting twice changes nothing |
| Channel.Queue.Pop | src/libipc/queue.h:224-231 | the handle's cursor moves with the pop |
| DeliverySafety.WriteKeepsReader | src/libipc/prod_cons.h:239-327 | an overwrite under a reader's feet always changes the epoch of the slot |
| DeliverySafety.CasKeeps | src/libipc/prod_cons.h:394-428 | the successful clear: the words copied before are those of the message whose bit is cleared |
| DeliverySafety.StepKeeps | src/libipc/prod_cons.h:239-430 | every step of sender and receivers keeps the ring invariant |
| DeliverySafety.OnlyClearingDelivers | src/libipc/prod_cons.h:394-428 | a receiver's deliveries change in the clearing exchange only; the return without clearing is never reached |
| DeliverySafety.DeliveriesAreUntornAndUnique | src/libipc/prod_cons.h:340-430 | in every interleaving each delivery is word for word the message pushed at its position, and no receiver gets one twice |
| DeliverySafety.DeliveryClearsItsOwnBit | src/libipc/prod_cons.h:394-428 | the step that delivers takes the reader's bit off exactly the message delivered |
| ChunkSafety.OwnInvImpliesOwned | src/libipc/ipc.cpp:382-608 | the inductive invariant gives every chunk exactly one of: pool, loan, live with bitmap = readers to come + holders (disjoint, not empty), being released by one party |
| ChunkSafety.ClearMovesBit | src/libipc/prod_cons.h:394-428 | clearing the slot bit and getting hold of the chunk are one step |
| ChunkSafety.RecycledExactly | src/libipc/ipc.cpp:446-492 | destroying a buffer takes exactly the receiver's own bit off the chunk, whatever bitmap it captured |
| ChunkSafety.LastOneOut | src/libipc/ipc.cpp:446-492 | when no bit is left, no slot and no receiver refers to the chunk |
| ChunkSafety.VacatedKeepsOwn | src/libipc/ipc.cpp:519-608 | an overwrite takes off the lost readers and gives the chunk back only when nobody else has it |
| ChunkSafety.StepKeepsOwn | src/libipc/ipc.cpp:382-608 | every step keeps the ownership invariant, publication under its condition |
| ChunkSafety.EveryChunkHasOneOwner | src/libipc/ipc.cpp:382-608 | in every interleaving in which nobody connects between acquisition and publication, every chunk has exactly one owner |
| ChunkSafety.AcquireAndReleaseAreSafe | src/libipc/ipc.cpp:382-435 | a chunk acquired is referred to by nobody, an id released is not in the pool, no id is in the pool twice |
| ChunkSafety.PublishKeepsOwnershipIff | src/libipc/ipc.cpp:1344-1456 | a publication leaves every chunk one owner if and only if the bitmap stored at acquisition equals the connected receivers |
| ChunkSafety.OwnedAllAlongIff | src/libipc/ipc.cpp:1344-1456 | every chunk has exactly one owner in every state of a run if and only if each publication in it finds the stored bitmap equal to the connected receivers |
| ChunkLife.ChunkLifeCycle | src/libipc/ipc.cpp:1344-1456 | which step brings a chunk from which owner to which, exactly: the last receiver to recycle has it to give back, what is given back is in the pool, an overwritten message frees its chunk unless somebody holds it |
| LateJoiner.LateJoinerBreaksOwnership | src/libipc/ipc.cpp:880-913 | a run in which a receiver connects in between: a held chunk is in the pool, then its id is there twice |
| SoloPops.PopRefinesOneStep | src/libipc/prod_cons.h:379-428 | from any reachable state a receiver left to run alone, lapped or not, ends with the result, the cursor and the ring of `pop` as one step |
| SoloPops.NobodyIsHeldUp | src/libipc/prod_cons.h:239-428 | from any reachable state a receiver in the middle of a call ends it by its own accesses; `force_push` is always possible, `push` unless refused |
| SoloPops.NewcomerReadsNothing | src/libipc/queue.h:76-84 | a receiver that has just loaded its cursor finds nothing to read |
| PopOrder.DeliversAtCursorIff | src/libipc/prod_cons.h:382-425 | a delivering step delivers the message of the cursor's own position if and only if the writer has not gone round since, otherwise a later one of the same slot |
| PopOrder.InOrderUnlessLapped | src/libipc/prod_cons.h:379-425 | in every interleaving a receiver not lapped inside a call gets strictly later and later messages |
| PopOrder.LappedOutOfOrder | src/libipc/prod_cons.h:382-425 | a run in which a receiver gets message 256 and then message 1 |
| Fifo.PopTakesCursor | src/libipc/prod_cons.h:379-428 | in a reachable state a pop takes the message at the cursor, or the oldest one left when lapped; it skips no slot |
| Fifo.StepDelivers | src/libipc/prod_cons.h:340-430 | of the positions a cursor moves past, exactly those at most 256 behind the writer are delivered |
| Fifo.DeliveriesAreASubsequence | src/libipc/prod_cons.h:239-430 | each receiver's deliveries are the pushed messages at strictly increasing positions |
| Fifo.MissedExactlyWhenLapped | src/libipc/prod_cons.h:379-381 | a position the receiver has passed was passed once, and delivered if and only if the writer was then at most one lap ahead |
| Fifo.RefusedExactly | src/libipc/prod_cons.h:244-251 | in any run `push` is refused if and only if some connected receiver has yet to take the message 256 back and no `force_push` came after that message |
| Fifo.ForceUnblocks | src/libipc/prod_cons.h:253-258 | after a `force_push` no message from before it makes a `push` fail: a whole lap goes through |
| Fifo.EverythingArrivesInOrder | src/libipc/prod_cons.h:239-276 | without `force_push`: lag at most 256, and every message since the connection arrives, in order |
| Fifo.ExactlyOneIsToldLast | src/libipc/prod_cons.h:417-425 | without `force_push`: of the readers of a message exactly one is told it was the last, and not before all are done |
| CommitRing.StepKeeps | src/libipc/prod_cons.h:121-208 | every atomic step of any thread keeps the invariant of the commit-flag ring |
| CommitRing.ConsumedInClaimOrder | src/libipc/prod_cons.h:135-208 | consumed indices are 0, 1, 2, ... each once with the whole payload of the producer that claimed it |
| CommitRing.WriteIndexPassesCommitted | src/libipc/prod_cons.h:150-170 | the write index advances by one, past a committed slot only |
| CommitRing.NeverOverfull | src/libipc/prod_cons.h:135-148 | read, write and claim index never overtake each other; at most 255 outstanding |
| CommitRing.EmptyOnlyWhenDrained | src/libipc/prod_cons.h:179-208 | a pop that runs alone reports empty if and only if everything claimed is consumed |
| CommitRing.RefusedOnlyWhenFull | src/libipc/prod_cons.h:135-170 | a push that runs alone is refused if and only if 255 indices are outstanding; otherwise its payload is claimed next and committed, and the write index passes it if it had passed all before |
| CommitSolo.CallsEnd | src/libipc/prod_cons.h:135-208 | at any point a push or pop called and left to run alone ends, wherever the others stand |
| CommitRing.Elems.Push | src/libipc/prod_cons.h:135-170 | in place: refused exactly at 255 waiting, otherwise the payload joins the end of the queue |
| CommitRing.Elems.Pop | src/libipc/prod_cons.h:179-208 | in place: empty exactly when nothing waits, otherwise the front of the queue |
| IdPool.Pool.Prepare | src/libipc/utility/id_pool.h:55-65 | zeroed memory becomes the list of all 32 ids, once |
| IdPool.Pool.Acquire | src/libipc/utility/id_pool.h:76-81 | the threaded array is a stack: the top comes off, -1 exactly when it is empty |
| IdPool.Pool.Release | src/libipc/utility/id_pool.h:83-88 | an id not in the stack goes on top |
| IdPool.ThreadedEnds | src/libipc/utility/id_pool.h:72-88 | a sound list reaches its end mark after as many links as it has ids |
| IdPool.ReleasedTwiceNeverEnds | src/libipc/utility/id_pool.h:83-88 | releasing an id that is in the list closes a ring of it and the ids above: no end is reached, twice in a row gives the same id forever |
| ChunkSizes.LoanSizeClass | src/libipc/ipc.cpp:364-380 | the doubling loop with its 64-bit overflow exit ends and computes the class function |
| ChunkSizes.SizeClassSpec | src/libipc/ipc.cpp:364-380 | a class is at least the size, idempotent, whole kilobytes up to 2^63, below twice the size above 64 KiB |
| ChunkSizes.SizeClassMonotone | src/libipc/ipc.cpp:364-380 | larger sizes have no smaller class, overflow included |
| ChunkSizes.DoubledPower | src/libipc/ipc.cpp:371-379 | short of overflow a class is a power of two times 128 KiB |
| ChunkSizes.ChunkHolds | src/libipc/ipc.cpp:201-213 | header and payload fit, in whole kilobytes, with less than one to spare |
| ChunkSizes.ChunksDisjoint | src/libipc/ipc.cpp:215-263 | payloads of different chunks share no byte with each other or the headers, and are aligned to 8 |
| ChunkSizes.SizeSurvivesIff | src/libipc/ipc.cpp:1236-1256 | a size comes back from `remain_` if and only if it is below 2^31; then all places compute one chunk size |
| ChunkSizes.LoanFoundIff | src/libipc/ipc.cpp:1371-1432 | a published loan is found by its receivers if and only if at most 2^30 bytes were asked for; above that no size is read, and beyond 2^63 possibly a size whose chunks are smaller |
| ChunkSizes.LoanWastesLittle | src/libipc/ipc.cpp:1371-1375 | a loan is 1024 bytes for anything small, less than a kilobyte too large up to 64 KiB and less than twice the size above |
| Fragments.Split | src/libipc/ipc.cpp:916-941 | the fragment loop of `send` gives the pieces of the payload in order, as many as it needs |
| Fragments.SniffHolds | src/libipc/sniffer.cpp:347-421 | one fragment through the sniffer: its table holds exactly the open messages and what has come of them |
| Fragments.RecvHolds | src/libipc/ipc.cpp:1291-1333 | the same for the cache of `recv`, when its cleaning throws out nothing open |
| Fragments.StepsAlike | src/libipc/sniffer.cpp:347-421 | on the next piece of a message cache and sniffer take the same step |
| Fragments.Reassembles | src/libipc/ipc.cpp:1291-1333 | for every lossless interleaving of messages both reassemblers hand out every payload byte for byte, in the order of the last fragments |
| Fragments.ReassemblersAgree | src/libipc/sniffer.cpp:371-421 | cache and sniffer yield the same payloads and hold the same tables |
| Fragments.OnceWhenComplete | src/libipc/ipc.cpp:1322-1333 | a message is handed out once when all of it has come, never before |
| Fragments.EmptyOnesIgnored | src/libipc/sniffer.cpp:347-351 | headers that announce no bytes change neither reassembler, wherever they come |
| Fragments.NoFullOneStays | src/libipc/sniffer.cpp:391-419 | a sniffer never keeps a buffer that is full |
| Fragments.CacheStaysSmall | src/libipc/ipc.cpp:1291-1333 | whatever arrives, the cache of `recv` never holds more than 16385 messages |
| Fragments.LateListenerHandsOutSuffixes | src/libipc/sniffer.cpp:309-330 | whoever missed the beginning of messages hands out their suffixes as messages |
| Fragments.LateListenerWholeIff | src/libipc/sniffer.cpp:322-330 | it hands out whole messages if and only if it missed nothing of those whose last fragment it saw |
| Fragments.HalfIsHandedOut | src/libipc/sniffer.cpp:322-330 | the second of two fragments, come alone, is handed out as a message by both reassemblers |
| Fragments.LappedHandsOutWholeIff | src/libipc/sniffer.cpp:322-421 | what a sniffer hands out after a lap is the rest of a message from the write index on, the whole one exactly when nothing of it went by before |
| Fragments.Receiver.CleanFor | src/libipc/ipc.cpp:1299-1313 | the collection loop drops exactly the entries more than 8192 away, only beyond 1024 entries |
| Fragments.Receiver.Recv | src/libipc/ipc.cpp:1201-1334 | the receive loop runs the cache over the fragments popped and returns at the first message |
| Fragments.Sniffer.Take | src/libipc/sniffer.cpp:347-421 | one fragment, in place, as the step function says |
| Fragments.Sniffer.TryRecvOne | src/libipc/sniffer.cpp:309-421 | unlapped, it runs the step over the slots since its cursor; lapped, it counts the drop and runs the step with an empty table from the write index on; after a drop inside the call nothing from before it is in the table; the first look never replays |
| DzFlatWire.IntsRoundTrip | python/dzipc/dzflat.py:143-175 | scalars of all eleven types survive little-endian encoding, decoded or viewed |
| DzFlatWire.AnyBytesAreInts | python/dzipc/dzflat.py:143-175 | any bytes decode to values in range that encode to the same bytes, booleans normalised |
| DzFlatWire.ViewShowsBytes | python/dzipc/dzflat.py:163-175 | a zero-copy view shows the bytes as they are |
| DzFlatSchema.AlignUpAligns | generator/dzflat_generator.py:108-109 | rounding up gives a multiple and leaves multiples alone |
| DzFlatSchema.LayoutIsSound | generator/dzflat_generator.py:112-146 | every field is aligned and inside the record, no two share a byte, the record is a multiple of 8 |
| DzFlatSchema.LayoutIsTheAbi | generator/dzflat_generator.py:112-146 | a scalar is at the first multiple of its own width after the field before it, an inlined record of 8, a reference of 4; the record is the smallest positive multiple of 8 that holds the fields |
| DzFlatSchema.LayoutExample | generator/dzflat_generator.py:46-64 | offsets and size of a record with seven fields, worked out by hand |
| DzFlatSchema.TightExactly | generator/dzflat_generator.py:341-352 | the expression for "no padding" holds of a record with fields exactly if no gap is before, between or behind them and the same holds of every nested type |
| DzFlatWriter.FieldsGrow | generator/dzflat_generator.py:415-556 | emitting a record writes its fields and what comes after the old end, nothing else |
| DzFlatWriter.MsgArrayGrows | generator/dzflat_generator.py:513-549 | emitting an array of records writes, below the old end, only its reference |
| DzFlatCapacity.WriteFits | generator/dzflat_generator.py:558-600 | `write` with at least `size(m)` bytes succeeds, and the recorded total is `size(m)` up to the last alignment gap |
| DzFlatSegment.Segment.Reserve | include/ipc_msg/ipc_msg_base/dzflat.h:154-166 | in place: the next multiple of 8 with the gap zeroed, or 0 when it does not fit |
| DzFlatSegment.Segment.EmitStrArray | generator/dzflat_generator.py:478-511 | the table loop fills the segment as the interpreter says |
| DzFlatSegment.Segment.EmitMsgArray | generator/dzflat_generator.py:513-549 | the element loop, after clearing the block unless the type is tight |
| DzFlatSegment.Segment.EmitRecord | generator/dzflat_generator.py:415-556 | field after field up to the first that does not fit |
| DzFlatSegment.Segment.Write | generator/dzflat_generator.py:583-600 | the whole `write`, in place |
| DzFlatDecoder.InBoundsMeans | python/dzipc/dzflat.py:123-129 | the bounds check by division holds exactly when the last byte is inside the segment |
| DzFlatDecoder.FieldsLocal | python/dzipc/dzflat.py:136-201 | decoding a record looks at nothing beyond the declared total |
| DzFlatDecoder.DecodeLocal | python/dzipc/dzflat.py:248-276 | on arbitrary bytes decoding ends, and its result depends on the declared segment only |
| DzFlatOutcome.OutcomeFromBytes | python/dzipc/dzflat.py:248-276 | each of the five outcomes, exactly, from the bytes: accepted if and only if they are a well-formed segment with the hash and the root size of the schema it is read with |
| DzFlatOutcome.BlockFromBytes | python/dzipc/dzflat.py:123-134 | what lies behind a reference: its count of elements at its offset if the last byte is inside, otherwise nothing |
| DzFlatOutcome.ArrayFromBytes | python/dzipc/dzflat.py:163-175 | an array viewed is its bytes, listed it is values in range, booleans normalised |
| DzFlatOutcome.AcceptedIsTyped | python/dzipc/dzflat.py:136-201 | whatever bytes are accepted, what comes back is a message of the schema |
| DzFlatOutcome.HeaderWords | include/ipc_msg/ipc_msg_base/dzflat.h:350-366 | every word of a written header is at its place |
| DzFlatOutcome.EmptyIsZero | include/ipc_msg/ipc_msg_base/dzflat.h:266-273 | an empty string or array leaves a zero reference and takes no block |
| DzFlatOutcome.BlocksAligned | python/dzipc/dzflat.py:163-175 | blocks start at multiples of 8, as the cast of a view needs |
| DzFlatRoundTrip.HeaderParses | python/dzipc/dzflat.py:105-116 | the written header parses to hash, root size, total and id |
| DzFlatRoundTrip.EmitFieldsRead | generator/dzflat_generator.py:415-556 | after emission the record reads as the message in every buffer that keeps its fields and blocks |
| DzFlatRoundTrip.RoundTrip | python/dzipc/dzflat.py:136-276 | decoding whatever carries a written segment gives the message back, for every schema and message within 32 bits, with or without zero copy |
| DzFlatDeterminism.NonEmptyIsDeterminate | generator/dzflat_generator.py:341-352 | schemas whose message types all have a field leave no byte of an uncleared block unwritten |
| DzFlatDeterminism.FieldsTwin | generator/dzflat_generator.py:415-556 | two runs on different chunk contents agree on everything placed, and on the record if it agreed before or is seamless |
| DzFlatLeak.SegmentIsTheMessage | generator/dzflat_generator.py:525-549 | for determinate schemas the segment is the same whatever the chunk held, and whether or not element blocks are always cleared |
| DzFlatLeak.HoleStays | generator/dzflat_generator.py:341-352 | a tight record with an empty one inlined has a byte that emission leaves alone |
| DzFlatLeak.ChunkIndependentIff | generator/dzflat_generator.py:341-352 | segments depend on the message alone if and only if every tight element type has all its bytes written |
| DzFlatLeak.EmptyElementLeaks | generator/dzflat_generator.py:349-352 | an array of messages without fields carries old bytes |
| DzFlatReceiver.DecodeRecord | python/dzipc/dzflat.py:136-201 | the loop over the fields computes the decoding function |
| DzFlatReceiver.DecodeStrTable | python/dzipc/dzflat.py:176-186 | the loop over a table of strings |
| DzFlatReceiver.DecodeMsgArray | python/dzipc/dzflat.py:192-199 | the loop over element records |
| DzFlatReceiver.Receiver.Decode | python/dzipc/dzflat.py:248-276 | exactly one of the five counters moves; which one, and whether a message comes back, is told from the bytes and the schema |
| DzFlatReceiver.Transfer | python/dzipc/dzflat.py:248-276 | write into `size(m)` bytes, register, decode: the message comes back |
| DepSort.ParseDependencies | generator/batch_msg_srv_generator.py:348-369 | raises exactly for a type that names itself, otherwise the registered types named, each once in order |
| DepSort.MentionedInOrder | generator/batch_msg_srv_generator.py:348-369 | a type comes before another exactly if its first use does |
| DepSort.Sorter.Visit | generator/batch_msg_srv_generator.py:382-393 | a visit keeps the order sound and adds its type, or ends with a cycle in hand |
| DepSort.OrderedMeansAcyclic | generator/batch_msg_srv_generator.py:382-398 | types that can be put in such an order have no cycle |
| DepSort.Sort | generator/batch_msg_srv_generator.py:372-398 | raises exactly when there is a cycle, otherwise every type once, after all it depends on; it terminates |
| LayoutCache.Compiler.ComputeLayout | generator/dzflat_generator.py:130-146 | the layout loop gives the layout of the record, and fails exactly on a nested type not cached |
| LayoutCache.Compiler.Generate | generator/dzflat_generator.py:333-340 | a type is compiled exactly when all it names are cached, its hash from theirs in order |
| LayoutCache.NamedInOrder | generator/dzflat_generator.py:333-340 | nested hashes come in field order, one for each field that names a type |
| LayoutCache.GenerateAll | generator/dzflat_generator.py:66-73 | in dependency order no lookup misses, and every type ends up compiled from its own parts |
| LayoutCache.Compile | generator/batch_msg_srv_generator.py:876-890 | sorting and compiling succeeds exactly for sets of types without a cycle |
| PathSwitch.StepKeepsInv | src/dzIPC/auto_ser_cli_ipc.cc:339-531 | every step of a supervisor of either role keeps route, counters and the once rule |
| PathSwitch.OneLegCarries | src/dzIPC/auto_ser_cli_ipc.cc:597-660 | at any point: flag set means leg there and socket stopped, outside an attempt the leg is there only then, a request goes to the one leg that carries data |
| PathSwitch.CountersBalance | src/dzIPC/auto_ser_cli_ipc.cc:339-531 | at most one attempt per connection; attempts + losses = successes + fallbacks outside an attempt, losses at most successes |
| PathSwitch.CountersCount | src/dzIPC/auto_ser_cli_ipc.cc:339-531 | each counter is the number of its events in the run: every decision, refused ones included, and every way back |
| PathSwitch.AttemptCanEnd | src/dzIPC/auto_ser_cli_ipc.cc:420-487 | an attempt can always be given up, and either end leaves one leg carrying data |
| PathSwitch.SwitchGoesThrough | src/dzIPC/auto_ser_cli_ipc.cc:339-487 | on any new connection that allows it, the steps of either role end with requests on shared memory and the socket silent |
| PathSwitch.FallsBackExactly | src/dzIPC/auto_ser_cli_ipc.cc:496-531 | an active path falls back exactly when requests go over shared memory and that leg lost its peer, starts over exactly when the peer is gone, and is left alone exactly when healthy |
| PathSwitch.AfterFallingBack | src/dzIPC/auto_ser_cli_ipc.cc:496-531 | after that the socket carries the requests; a lost leg is counted and not tried again on this connection, a lost peer leaves the next one free to try |
| PathSwitch.NeverStuck | src/dzIPC/auto_ser_cli_ipc.cc:339-531 | the supervisor waits for others only for a peer to appear or on a healthy path |
| PathSwitch.StopCloses | src/dzIPC/auto_ser_cli_ipc.cc:296-311 | told to stop, it can close the channel by its own steps from anywhere, and every leg is gone |
| PathSwitch.GuardIsNeverUsed | src/dzIPC/auto_ser_cli_ipc.cc:340-360 | when the supervisor asks, the once-per-connection flag is clear |
| PathSwitch.AttemptedMeansTried | src/dzIPC/auto_ser_cli_ipc.cc:340-487 | while a server serves a connection the flag is set exactly if an attempt was decided on it |
| PathSwitch.Channel.SendRequest | src/dzIPC/auto_ser_cli_ipc.cc:597-615 | a request is handed to the leg the route names and to no other |
| PathSwitch.Channel.WithdrawToSocket | src/dzIPC/auto_ser_cli_ipc.cc:313-337 | whatever the attempt left: no shared-memory leg stays, the route is consistent, and while there is a socket leg requests go to it and it carries data |
| PathSwitch.Channel.SwitchToShm | src/dzIPC/auto_ser_cli_ipc.cc:463-477 | from a consistent route with a leg to a consistent one that hands requests to it, the socket's data plane silent |
| RwLock.StepKeepsInv | include/libipc/rw_lock.h:153-191 | every atomic access of any thread keeps: word = readers + flag of the one writer |
| RwLock.MutualExclusion | include/libipc/rw_lock.h:153-191 | in every state of every run the low bits count the readers, the flag marks the one writer, a thread that writes is alone |
| RwLock.DrainingOnlyShrinks | include/libipc/rw_lock.h:153-169 | once a writer has announced itself no reader gets in |
| RwLock.DrainedWriterEnters | include/libipc/rw_lock.h:165-168 | it can go on exactly when the readers have left |
| RwLock.WriterGetsIn | include/libipc/rw_lock.h:153-167 | in any run the access of `lock` makes the caller the writer unless one is inside: writing if nobody reads, otherwise draining with the flag set |
| RwLock.ReaderGetsIn | include/libipc/rw_lock.h:171-189 | a reader with the present word gets in if and only if no writer is inside or waiting, other readers or not |
| RwLock.DrainingEnds | include/libipc/rw_lock.h:165-168 | when the readers inside have left, which they can, the waiting writer writes |
| RwLock.LockIsTaken | include/libipc/rw_lock.h:153-169 | a thread that calls `lock` with no writer inside ends up writing, and its unlock leaves the lock as at first |
| RwLock.SharedIsTaken | include/libipc/rw_lock.h:171-191 | a thread that calls `lock_shared` with no writer inside is in after three accesses, and unlocking undoes it |
| Waiter.StepKeepsOwed | src/libipc/waiter.h:33-47 | every change a sleeper has not seen is owed a notification, at every step |
| Waiter.NoLostWakeup | src/libipc/waiter.h:105-121 | if a thread is blocked and the state changed since its last test, the maker of the latest change has yet to notify |
| Waiter.PendingDelivers | src/libipc/waiter.h:33-47 | while anybody is blocked the look at the count decides for the call, and the call wakes all |
| Waiter.DebtIsPaid | src/libipc/waiter.h:33-47 | in any run a notifier can end by his own steps once the mutex is free, and then no thread that was blocked still is |
| Waiter.ChangeWakesAll | src/libipc/waiter.h:33-47 | a change followed by `broadcast`, alone, wakes every blocked thread, each of which had tested an older state |
| Waiter.LookDecides | src/libipc/waiter.h:38-45 | the look at the count saves the call exactly when no thread is counted in |
| Waiter.HowWaitEnds | src/libipc/waiter.h:105-121 | `wait_if` returns only when its predicate says stop or by timeout; a blocked thread is woken only by a broadcast, a timeout or spuriously |
| Waiter.SoloWait | src/libipc/waiter.h:105-121 | alone, a predicate that says stop leaves all as it was, one that says wait leaves the thread blocked, counted and the mutex free |
| Waiter.WokenTestsAgain | src/libipc/waiter.h:105-121 | a woken thread tests again, and leaves uncounted if that says stop |
| Waiter.TimeoutReturns | src/libipc/waiter.h:112-118 | a thread whose time is over leaves uncounted |

## Left out

- The overlap of the sender's payload store with a reader's copy, and the split of the claim from the index increment: one step here.
- Liveness is stated as what a participant can do by its own steps; no scheduler is assumed, and the mutex is given to whoever asks while it is free.
- PopOrder.InOrderUnlessLapped: one direction over whole runs; the if-and-only-if is the one per delivery beside it.
- Memory orders: all atomics are sequentially consistent.
- Receivers that disconnect, the reuse of their bits, and the reaping of crashed ones.
- Epochs and sequence numbers that wrap after 2^32 increments; ring indices are covered by the two wrap lemmas.
- `Fifo` connects a receiver in one step; between taking the bit and loading the cursor a push can be missed, which `Ownership` has as two steps.
- `try_send`, which returns false without giving its chunk back; `push_sniffer`; the allocation failure of the recycling record in `recv`.
- Chunk pools of different size classes are independent of each other; one class is modelled.
- The single-producer unicast rings and the multi-writer broadcast ring.
- CommitRing.Elems.Push: the undisturbed thread; the interleavings are the step system beside it.
- CommitRing.Elems.Pop: the undisturbed thread, as for `Push`.
- Fragments.Receiver.Recv: fragments only; large messages and messages to oneself are not part of this model.
- Fragments.Sniffer.TryRecvOne: fragments only, no large messages; reads of a slot are whole; the check for a slot overwritten while it was copied is kept.
- DzFlatWriter.FieldsGrow: the four other emission members have the same kind of lemma and no row of their own.
- DzFlatLeak.ChunkIndependentIff: requires the probe message (one element in every array of records) to stay within 32 bits.
- DzFlatRoundTrip.RoundTrip: UTF-8 decoding of strings, field names and the FNV-1a hash of the canonical text are not modelled; hashes are given.
- The views and builders of the generated C++ headers, which address the same layout.
- Parsing of the message files beyond the type names; class names are taken to be as unique as the type names.
- PathSwitch.OneLegCarries: restarting the socket data plane is taken to succeed; reasons, wire signals and evidence are not modelled, timeouts are choices.
- RwLock.MutualExclusion: fewer threads than 2^31, the reader count's width; the yielding of the spin loops is not modelled.
- Waiter.NoLostWakeup: `broadcast`; `notify` wakes one waiter and makes no such promise. The counter of waiters is unbounded.
- Sockets, shared-memory mapping, the operating system's mutexes and conditions, logging and the Python bindings.
