# CFIO forwarding: a verified model

CFIO forwards netCDF writes from a grid of client processes to a few server
processes. A client packs each call into a ring buffer and publishes snapshots
of it; a server pulls the snapshots, splits them into messages, queues them per
client, decodes one message of every client per round, and performs each call
once, merging the clients' blocks into one array.

The project proves that the pieces compose: whatever the interleaving, the calls
a server makes are those of the clients' common program, once each and in order,
and each array it writes is the overlay of what its clients packed for that call.

## Layers

| file | content |
|---|---|
| Bytes, Wire | bytes, integers, the message format and its parser |
| Ring, Recv | the ring buffer (as a value and as an object) and the server's queue of messages |
| Stream, StreamInvariant, StreamRuns | one client and its server as a machine of interleaved steps; its invariant; what holds in every run |
| Sender, Receiver, Comm | the client's send side, the server's receive ring and the server loop as code that updates objects and tables in place, proved against the machine |
| Boxes, Merge | row-major boxes, the odometer copy, hull and overlay |
| Grid, Tiling | divisors, the server grid search, the client/server bijection, gap-free tiling |
| Bitmap, Collective, Rounds, Definitions, IoServer | request bitmaps, the handlers as functions and as methods, rounds, deferred definitions |
| EndToEnd, Programs, Exit | all clients of a server together; the end-to-end theorems; how the server's loop ends |
| Trace, TraceProof | the netCDF calls of a program, read off the program alone; the server's calls are these |
| StreamExamples, ProgramExample | a concrete run that loses data, a flush that hangs; a complete program and its calls |

`Safe` in StreamInvariant excludes the one step in which the code loses data, a message
packed up to the last byte of the ring. It is characterised exactly
(StreamRuns.PackKeepsStreamIff) and reached by a concrete run from the start
(StreamExamples). The theorems over runs exclude this step and nothing else; that an
empty flush hangs is proved for all enabled steps.

The region of a client and its receive ring have the same size in the code
(src/server/server.c:505, src/server/recv.c:66). The protocol relies on it: in a larger
receive ring one copy loop could empty a full region before the end of the snapshot has
been noticed. The model assumes that the region is at least as large.

## What the code does that its documentation does not say

- A message that ends exactly at the ring's end loses its last field:
  `use_buf` records `end_addr` as the position before the last increment.
- README.md of the repository tells users to call `cfio_io_end` at the end of each
  iteration and then `cfio_finalize`, which calls `cfio_send_io_end` once more. That
  flush carries no message, is never acknowledged, and the client waits for ever.
- put_vara of byte or char data is accepted and collected but never written.
- `_gen_server_x_and_y` compares candidates with a tolerance of 0.4 but never records
  a distance other than 0, so only exact factorizations succeed.
- The file's own entry of the id table has dimension id 0 and variable id 0. A call that
  names such an id meets it in the lookup and ends the process. The library assigns ids
  from 1, but `cfio_def_var` takes dimension ids from the caller.
- Cells of the hull that no block covers are written from memory that was never set.
- The element type of a put_vara is not compared with the variable's; the merge uses the
  variable's.

## Assumptions

- The test for completed reads answers true only after a poll that saw them all, so all
  posted bytes have landed (`polled` in Stream). Bytes land one by one in any order.
- Assertions are enabled: the repository's build files do not switch them off.
- netCDF calls succeed; ids they return are fresh. They are recorded as events.
- The program theorems assume that the clients of one server issue matching calls,
  that the files and variables a call names exist, that a write has the variable's rank
  and elements of the size of the variable's, and that no call makes the server look up
  id 0 (Rounds.RoundOk; exact for the last by Rounds.RoundFailsIff).
- Messages satisfy 2 * size < ring size on both sides, in the spirit of
  src/common/msg.c:59-61.

## Model
| member | source | states |
|---|---|---|
| Programs.EndToEndCorrect | src/server/server.c:328-455 | In every run (any interleaving of client steps, arriving bytes and acks, server turns; only packing a message up to the last byte of a ring is excluded) of any number of clients that follow one program, the netCDF calls made are exactly those of the first `rounds` rounds of the program, once each and in order, with no request pending; when every client is done and had flushed its N calls, all N rounds have been performed |
| TraceProof.EndToEndTrace | src/server/server.c:328-455 | The calls made in any run, read off the program alone: those of its first `rounds` rounds, where module Trace gives for each round which file, dimension or variable it names, what it defines under which id, which attributes and which write; no table, bitmap or slot of the server occurs in it |
| TraceProof.TraceCorrect | src/server/io.c:700-1563 | For every program the calls a server makes are those of the trace: create with the call's own path and mode; at enddef one definition per counted def call, with its name and length or type and its dimension ids translated one by one, then the variable's attributes; global attributes at once; one write per put_vara of a writable type, with its element size; close of the file's own id |
| TraceProof.RoundTied | src/server/io.c:152-212 | Every round keeps the server's tables equal to what the program's calls so far say of every file, and adds exactly the round's calls |
| TraceProof.DefinedAtEndDef | src/server/io.c:472-571 | A def_dim or def_var with a new id and known dimensions is made exactly once, at its file's enddef: with the call's name and length, or its name, type and as t-th dimension the id that the dimension named by its t-th dimid is given there |
| TraceProof.AttributeAtEndDef | src/server/io.c:523-563 | An attribute put on a variable before enddef is written once, under the variable's new id, with the call's name, type and data, between those put before and after it, if its type is char, int, float or double; with any other type not at all |
| TraceProof.DefDimTied | src/server/io.c:783-880 | After a def_dim round the file's table holds the call's id, name and length if the id is new; other files are as they were |
| TraceProof.DefVarTied | src/server/io.c:1034-1121 | After a def_var round the file's table holds the call's id, name, type and dimension ids, in the call's order, if the id is new and all dimensions are known; other files are as they were |
| TraceProof.PutAttTied | src/server/io.c:1124-1230 | After a put_att round the variable it names, and no other, has the attribute appended, or, for NC_GLOBAL, the attribute has been written if its type has a put function |
| TraceProof.EndDefTied | src/server/io.c:1232-1290 | The first enddef of an open file makes its definitions in the order of the program and ends define mode; a later one does nothing |
| TraceProof.CreateTied | src/server/io.c:700-781 | A create of an unknown file opens it under a fresh id with an empty table; other files are as they were |
| TraceProof.CloseTied | src/server/io.c:1505-1563 | A close closes the file's own server id and forgets that file; every other file is as it was |
| Exit.ProgramIsPerformed | src/server/server.c:342-384 | Once every client has issued and flushed the program and is done, at most one server turn a client leads to the end of the loop, with every client marked finished, every round decoded and exactly the calls of the program made |
| Exit.DoneStep | src/server/server.c:376-384 | When all clients are done the only thing that can happen is a server turn on an unfinished client, and it only marks that client finished |
| Exit.DoneRun | src/server/server.c:342-384 | Every run from such a state finishes one client a step and changes nothing else, so it has at most as many steps as there are clients |
| Exit.ServerExits | src/server/server.c:342-384 | From such a state there is a run that finishes every client |
| Programs.PutVaraIsWritten | src/server/io.c:1350-1466 | The r-th round of the program, a write to a short, int, float or double variable, stands, once decoded, in the list of calls as one write of the hull of that round's blocks and the overlay of that round's payloads, and later rounds do not disturb it |
| Programs.RoundWrites | src/server/io.c:1420-1455 | A put_vara round makes exactly one write call, of the hull and the overlay, if the variable is short, int, float or double (the types listed one by one), and none if it is byte or char; there are no others |
| Programs.WrittenWholeIff | src/server/io.c:652-676 | Every cell of the written array is some client's value if and only if the blocks cover their hull; the other cells are memory the server never set |
| Programs.TiledWrite | test/client/C/func_test.c:48-51 | When every client writes the block of its grid position, the write covers the server's rectangle and each of its cells is the value its one owner packed |
| Programs.NothingLeft | src/server/server.c:342-342 | When all clients are marked finished and had flushed all N calls the number of decoded rounds is N; Exit.ProgramIsPerformed shows that this state is reached |
| Programs.SpecRunStep | src/server/server.c:423-437 | Round r acts on the state left by rounds 0..r-1, in which nothing is pending |
| Programs.EventsGrow | src/server/server.c:423-437 | A call once made stays where it is in the list of calls |
| EndToEnd.RoundInv | src/server/server.c:429-437 | One pass of the round loop keeps the invariant: the k-th round decodes the k-th message of every client, in slot order |
| EndToEnd.SomeQueueEmpty | src/server/server.c:423-450 | At the head of the server loop some client has no message queued, whatever the iteration did |
| EndToEnd.AlwaysSomeEmpty | src/server/server.c:342-450 | The same over every run of `Safe` steps |
| EndToEnd.HeadIsNext | src/server/recv.c:168-212 | The first queued message of a client is its next undecoded call, byte for byte |
| EndToEnd.ColumnsKept | src/client/C/send.c:146-432 | Calls already packed are never changed by later steps |
| StreamRuns.StreamConserved | src/server/server.c:211-326 | After every interleaving of `Safe` steps: messages queued ++ bytes in the region ++ unread snapshot ++ unflushed ring is the sequence packed, in order, each message once, no padding; undecoded messages are intact; at most two reclaim calls per message |
| StreamInvariant.StepInv | src/server/server.c:358-420 | Every `Safe` step of client, network and server keeps the protocol invariant |
| StreamRuns.PackKeepsStreamIff | src/common/buffer.h:58-70 | The stream equation survives a pack if and only if the message does not end at the last byte of the ring, where use_buf records an end before the last field |
| StreamInvariant.VisitInv | src/server/server.c:358-420 | Every turn of the server keeps the invariant |
| StreamInvariant.VisitFinishes | src/server/server.c:358-384 | In every state of the protocol the server's turn marks a client finished if and only if the client is done, and changes nothing else then |
| StreamInvariant.FullRegionStays | src/server/server.c:276-323 | One copy loop never empties a full region, because the region is as large as the receive ring |
| StreamRuns.PublishedIsStable | src/client/C/send.c:96-116 | From publication to acknowledgement no byte of the snapshot changes, in any run of `Safe` steps |
| StreamInvariant.PackKeepsSnapshot | src/client/C/send.c:480-522 | Packing writes no byte of a published snapshot |
| StreamInvariant.SkipInv | src/common/buffer.h:124-128 | Skipping the tail keeps the client invariant: the unflushed bytes are the same and the message fits at the start |
| StreamInvariant.CopyLoopCorrect | src/server/server.c:276-310 | Splitting moves a prefix of the pending messages to the queue, unchanged and in order, and leaves the rest of the stream in the region |
| StreamInvariant.ReadContent | src/server/server.c:219-238 | A read moves its piece of the snapshot from the unread part to the region, including the wrap at the upper end |
| StreamRuns.ReadProgress | src/server/server.c:211-264 | Every read with room left decreases (parts to visit, unread bytes, not done) lexicographically and never overfills the region |
| StreamRuns.ReclaimCarriesMessage | src/client/C/send.c:96-109 | A reclaim call never publishes a range without a message |
| StreamRuns.FlushAcknowledgedIff | src/server/server.c:396-421 | An io_end is acknowledged, after enough turns in which the queue has been emptied and the posted bytes have landed, if and only if something was packed since the last flush; for every size of the client's ring |
| StreamRuns.FlushIsAcknowledged | src/server/server.c:358-421 | Any published snapshot that carries a message is acknowledged after enough such turns |
| StreamRuns.ServeProgress | src/server/server.c:358-421 | Each such turn acknowledges, or decreases (not picked up, parts, unread bytes, not marked, messages to queue) lexicographically |
| StreamRuns.ServeIsRun | src/server/server.c:342-450 | Such a turn is a run of enabled steps |
| StreamRuns.StuckAfter | src/server/server.c:396-421 | A published empty snapshot is never acknowledged, after any sequence of enabled steps, safe or not |
| StreamRuns.EmptyFlushHangs | src/client/C/cfio.c:155-170 | An io_end with nothing packed since the last flush (as in finalize right after a loop that ends with io_end) leaves no later io_end or io_done enabled, after any sequence of enabled steps |
| StreamRuns.FlushSnapshot | src/client/C/send.c:480-522 | io_end publishes exactly the unflushed bytes; the snapshot is empty if and only if nothing was packed since the last flush |
| StreamExamples.FourthCallIsLost | src/common/buffer.h:58-70 | A run from the start, of `Safe` steps: in a ring of 64 bytes three calls of 16 bytes are packed, flushed and acknowledged; the next step packs a fourth up to the ring's end, and its bytes are lost |
| StreamExamples.FreshFlushHangs | src/client/C/send.c:480-522 | A client that flushes before it has packed anything never gets to another io_end or io_done, after any sequence of enabled steps |
| ProgramExample.OrdinaryUse | src/server/io.c:700-1563 | Create, a dimension, a variable of ints, enddef, a write by all clients, close: a program of the end-to-end theorem, with exactly the calls it leads to |
| ProgramExample.DimensionZeroEndsTheServer | src/server/io.c:1085-1092 | A variable defined over dimension id 0 ends the server process |
| Sender.EveryInterleavingSettles | src/client/C/send.c:88-117 | In every run of `Safe` steps that completes a call the client ends where the call's code, run alone with its waits answered, leaves it |
| Sender.OutcomeIsFixed | src/client/C/send.c:88-117 | No `Safe` step of server, network or packer changes that outcome |
| Sender.CfioSender.EnsureFreeSpace | src/common/buffer.h:105-134 | Ends, after at most two reclaim calls, with the message fitting contiguously into free space, in the state every interleaving reaches |
| Sender.CfioSender.ClientBufFree | src/client/C/send.c:88-117 | Adopts what was acknowledged, or flushes, waits and adopts |
| Sender.CfioSender.SendCreate | src/client/C/send.c:146-169 | Field by field packing leaves the ring as if the whole message had been stored at once, and the client where every interleaving leaves it; the invariant holds unless free_addr is 0 afterwards |
| Sender.CfioSender.SendDefDim | src/client/C/send.c:174-199 | Field by field packing leaves the ring as if the whole message had been stored at once, and the client where every interleaving leaves it; the invariant holds unless free_addr is 0 afterwards |
| Sender.CfioSender.SendDefVar | src/client/C/send.c:236-271 | Field by field packing leaves the ring as if the whole message had been stored at once, and the client where every interleaving leaves it; the invariant holds unless free_addr is 0 afterwards |
| Sender.CfioSender.SendPutAtt | src/client/C/send.c:273-305 | Field by field packing leaves the ring as if the whole message had been stored at once, and the client where every interleaving leaves it; the invariant holds unless free_addr is 0 afterwards |
| Sender.CfioSender.SendEndDef | src/client/C/send.c:307-326 | Field by field packing leaves the ring as if the whole message had been stored at once, and the client where every interleaving leaves it; the invariant holds unless free_addr is 0 afterwards |
| Sender.CfioSender.SendPutVara | src/client/C/send.c:328-413 | Field by field packing leaves the ring as if the whole message had been stored at once, and the client where every interleaving leaves it; the invariant holds unless free_addr is 0 afterwards |
| Sender.CfioSender.SendClose | src/client/C/send.c:415-432 | Field by field packing leaves the ring as if the whole message had been stored at once, and the client where every interleaving leaves it; the invariant holds unless free_addr is 0 afterwards |
| Sender.CfioSender.SendIoEnd | src/client/C/send.c:480-522 | Publishes a snapshot holding exactly the bytes unflushed before the call, and keeps the invariant |
| Sender.CfioSender.SendIoDone | src/client/C/send.c:434-478 | Waits for the last acknowledgement and changes nothing but the signal |
| Sender.CallMsgIsGood | src/common/msg.c:59-61 | Every call smaller than half of both rings is a message the protocol carries |
| Comm.CfioServer.constructor | src/server/server.c:470-535 | A new server, whose regions and receive rings have the same size, stands at the start of the protocol, with all tables, queues and handlers in agreement |
| Comm.CfioServer.Iterate | src/server/server.c:342-450 | One iteration of the loop: serves the next unfinished client, which the protocol allows, and moves everything as the protocol and the rounds say; the client is marked finished and counted if and only if it is done |
| Comm.CfioServer.LeaveLoop | src/server/server.c:342-354 | Once all clients are done the loop ends after one iteration for each unfinished client, with every entry of comm_dones set and comm_done_cnt equal to client_num; nothing is decoded in them |
| Comm.CfioServer.CountTells | src/server/server.c:342-342 | The loop's test is true exactly when every client is finished |
| Comm.CfioServer.ExitDecodesAll | src/server/server.c:342-342 | When the loop has ended and the clients had flushed N calls each, N rounds have been decoded; LeaveLoop shows that it ends |
| Comm.CfioServer.Turn | src/server/server.c:354-450 | The part behind the choice of the client does to the tables exactly what the protocol machine and the rounds prescribe, with the queues, unpackers and handlers at work as objects; the counters stay equal to the queue lengths and the number of non-empty queues, and the process is never ended by a message of size 0 |
| Comm.CfioServer.ReadData | src/server/server.c:211-264 | Updates the tables as the model's read does, for this client and no other |
| Comm.CfioServer.PostReads | src/server/server.c:247-256 | The transfers recorded take at most 4096 * 1024 bytes each, all but the last just that many; each begins where the one before ends, in the client's memory and in the region, and together they are exactly the chosen range |
| Comm.CfioServer.CopyDataToList | src/server/server.c:266-326 | Moves messages and shifts the region as the model's copy does, with the message counters kept |
| Comm.CfioServer.TakeMessages | src/server/server.c:276-310 | The splitting loop: where it stops, what is queued and how the counters change; a size of 0 ends the process |
| Comm.CfioServer.VisitClient | src/server/server.c:358-421 | Pickup, read, copy and acknowledgement together are one visit of the protocol machine, whose pickup marks exactly the done clients finished (StreamInvariant.VisitFinishes); other clients are untouched |
| Comm.NoZeroSize | src/server/recv.c:128-136 | What is left in the region never starts with a size of 0 |
| Comm.CfioServer.TakeFirst | src/server/server.c:429-436 | Takes and unpacks the first message of client i and counts it; the other clients are untouched |
| Comm.CfioServer.DecodeOneRound | src/server/server.c:427-437 | One pass over the clients, with get_first, the unpackers and the handlers, is one round; get_first always finds a message and client_get_index is 0 again; matching calls have had the effect of one call |
| Receiver.RecvTable.AddMsg | src/server/recv.c:100-166 | Adds to one client's queue; all queues stay valid and the others are untouched |
| Receiver.RecvTable.GetFirst | src/server/recv.c:168-212 | Takes the first message of the client whose turn it is, unpacked, and moves client_get_index on |
| Comm.CfioServer.DecodeRounds | src/server/server.c:423-439 | Decodes rounds until some client has no message |
| Comm.CfioServer.NextClient | src/server/server.c:349-354 | Finds the next unfinished client in cyclic order |
| Comm.NonEmptyAll | src/server/server.c:304-307 | The counter equals the number of clients exactly when every queue is non-empty |
| RecvQueue.AddMsgCorrect | src/server/recv.c:100-166 | Adding keeps every queued message byte for byte and in order, appends the new one unless full, is never full on an empty queue for 2*size < ring size, even after a failed attempt skipped the tail |
| RecvQueue.AddMsgAcceptsIff | src/server/recv.c:108-118 | A message is taken if and only if the ring has that many free bytes in a row somewhere; an empty ring takes all that is smaller than itself |
| RecvQueue.PopCorrect | src/server/recv.c:168-232 | The in-use assertion holds, the bytes at the descriptor are the first queued message, its size field is the descriptor's, and the rest stays queued |
| RecvQueue.StoreValid | src/server/recv.c:153-163 | Storing overwrites no queued message |
| Receiver.CfioRecv.AddMsg | src/server/recv.c:100-166 | The in-place method is the add of the model |
| Receiver.CfioRecv.GetFirst | src/server/recv.c:168-232 | In place: assertion passes, size read is the descriptor's, reading continues after it |
| Receiver.CfioRecv.Decode | src/server/server.c:68-134 | Returns the call whose message is first in the queue, consumes exactly its bytes and keeps the queue valid |
| Receiver.CfioRecv.UnpackCreate | src/server/recv.c:246-261 | Reads in place what the parser on bytes reads, and stops where it stops |
| Receiver.CfioRecv.UnpackDefDim | src/server/recv.c:263-279 | Reads in place what the parser on bytes reads, and stops where it stops |
| Receiver.CfioRecv.UnpackDefVar | src/server/recv.c:307-329 | Reads in place what the parser on bytes reads, and stops where it stops |
| Receiver.CfioRecv.UnpackPutAtt | src/server/recv.c:331-354 | Reads in place what the parser on bytes reads, and stops where it stops |
| Receiver.CfioRecv.UnpackPutVara | src/server/recv.c:370-424 | Reads in place what the parser on bytes reads, and stops where it stops |
| Receiver.CfioRecv.UnpackDataArray | src/common/buffer.c:162-200 | Reads a length and that many elements, also none |
| Wire.MessageRoundTrip | src/server/recv.c:217-279 | Unpacking what was packed returns the call and leaves exactly what follows, for all kinds and fields |
| Wire.BodyRoundTrip | src/server/recv.c:307-438 | The same for the fields behind size and function code, including empty arrays |
| Wire.MessageLength | src/client/C/send.c:328-383 | The size field is the number of bytes packed |
| Wire.SplitUnique | src/client/C/send.c:146-199 | A concatenation of messages is the concatenation of one sequence of calls only |
| Rings.FreeSize | src/common/buffer.h:90-92 | The modular formula is the number of free bytes less one, by the order of the pointers |
| Rings.UsedSize | src/common/buffer.h:101-103 | Used and free bytes add up to the ring size less one |
| Rings.EnoughIff | src/common/buffer.h:136-159 | The space test succeeds if and only if somewhere in the block n bytes in a row are free, counting out the byte before used_addr; free_addr then stands before such bytes |
| Rings.PackOneMore | src/common/buffer.c:99-113 | Packing a further field is packing the longer message at once; only the last non-empty field decides end_addr |
| Rings.CfioBuf.Use | src/common/buffer.h:58-70 | New state of use_buf, with the recorded end |
| Rings.CfioBuf.Free | src/common/buffer.h:78-85 | New state of free_buf |
| Rings.CfioBuf.IsEnough | src/common/buffer.h:136-159 | Answer and new state, including the tail skip of a failing call |
| Rings.CfioBuf.CheckUsed | src/common/buffer.h:169-192 | True exactly for addresses in the used part |
| Rings.CfioBuf.PackData | src/common/buffer.c:99-113 | Stores the bytes at free_addr and nowhere else |
| Rings.CfioBuf.PackDataArray | src/common/buffer.c:137-160 | Stores length and contents as two fields |
| Rings.CfioBuf.UnpackData | src/common/buffer.c:114-128 | Returns the bytes at used_addr and releases them |
| Boxes.PutVar | src/server/io.c:314-376 | For any rank and any source box inside the destination: each source cell lands at the row-major offset of its global index and every other cell keeps its bytes; all copies are in bounds |
| Boxes.IncSrcIndex | src/server/io.c:214-236 | Moves the odometer to the next multi-index and the pointer to its row-major address; the dimension index never goes below zero |
| Boxes.CornerOffset | src/server/io.c:355-361 | The offset of the source box's first cell in the destination |
| Boxes.UnlinInverse | src/server/io.c:214-236 | Row-major positions unrank to in-bounds indices of that position |
| Boxes.LinInverse | src/server/io.c:214-236 | In-bounds indices rank to positions that unrank to them |
| Boxes.PlaceOfSource | src/server/io.c:314-376 | Destination offset of a source cell is corner offset plus strided index |
| Merge.MergeVarData | src/server/io.c:622-678 | Start and count become the hull, the array the last-writer-wins overlay of all payloads in slot order, and the slots are emptied |
| Merge.HullIsLeast | src/server/io.c:604-619 | The hull contains every client's box and lies in every box that does |
| Merge.UpdateStartAndCount | src/server/io.c:604-619 | In place join of two boxes |
| Merge.OverlayStep | src/server/io.c:662-672 | One more assignment turns the overlay of n clients into that of n + 1 |
| Grid.GetFactor | src/common/map.c:38-66 | Exactly the divisors of n, strictly increasing, at most n of them |
| Grid.AppendCofactors | src/common/map.c:52-65 | The mirror pass completes the list of small divisors without duplicates and within n slots |
| Grid.Saddleback | src/common/map.c:99-127 | Finds a pair of divisors with product best if and only if there is one, for any best; the first has the least index of all such pairs |
| Grid.GridMap.GenServerXAndY | src/common/map.c:74-162 | For every best whose distance test the source can pass with an index it has set (best * 0.4 <= clients): succeeds if and only if best factors over the two sides and enough servers exist; then server_x divides X, server_y divides Y, their product is the server amount, and server_x is the least divisor of X that some divisor of Y completes to best |
| Grid.RefuseNearMiss | src/common/map.c:103-160 | The search for 8 servers over 3 by 3 clients is refused, although the candidate 9 is well within the tolerance |
| Grid.RankRoundTrip | src/common/map.c:301-364 | rank -> (server, slot) -> rank is the identity |
| Grid.SlotRoundTrip | src/common/map.c:232-343 | (server, slot) -> rank -> (server, slot) is the identity, with equal shares for all servers |
| Grid.GetClients | src/common/map.c:232-264 | Lists the clients of a server slot by slot |
| Tiling.TilesOnce | test/client/C/func_test.c:48-51 | Every cell of a server's rectangle lies in the block of exactly one of its clients |
| Tiling.HullIsServerBox | src/server/io.c:637-650 | The hull of a server's client blocks is its rectangle |
| Tiling.TiledMerge | src/server/io.c:622-678 | In the merged array every cell holds its only writer's bytes |
| Bitmaps.AddHas | src/server/io.c:86-100 | Adding sets the client's bit and no other |
| Bitmaps.FullIff | src/server/io.c:110-135 | The bitmap is full if and only if exactly the slots 0..n-1 are set, for any n |
| Bitmaps.AddBitmap | src/server/io.c:86-100 | The in-place update is the model's |
| Bitmaps.BitmapFull | src/server/io.c:110-135 | The loop decides fullness |
| Rounds.RoundCorrect | src/server/io.c:152-212 | After one matching message of each of the n clients the operation has been performed exactly once, no request is pending and all slots are empty; what the operation does is stated by TraceProof.RoundTied |
| Rounds.RunCorrect | src/server/server.c:423-437 | Over whole programs: each round's call once, in order, the request table empty in between |
| Rounds.PutCollecting | src/common/id.c:759-803 | Before the last message a write only fills slots and sets bits |
| Rounds.PutLast | src/server/io.c:1365-1466 | The last message writes the round's slots and empties them |
| Rounds.FirstOnly | src/server/io.c:783-880 | Create and definitions act on the first message of a round; the others change nothing. What the first records is stated by TraceProof.DefDimTied and DefVarTied |
| Rounds.Collecting | src/server/io.c:1253-1286 | Attributes, enddef and close only collect bits until the last message |
| Rounds.RoundFailsIff | src/common/id.c:703-757 | A round of matching calls ends the process if and only if the call makes the server look up dimension or variable id 0 of a known file, which is the file's own entry |
| Rounds.LibraryIdsAreSafe | src/common/id.c:250-345 | Calls with the ids the library assigns never do so |
| IoServer.CfioIo.Decode | src/server/server.c:68-134 | Every handler has the effect on tables, slots and calls that the model gives its message |
| IoServer.CfioIo.IoPutVara | src/server/io.c:1292-1503 | Stores the block; with a full bitmap merges in place, writes the merged array, empties the slots and removes the request; id 0, and blocks of another rank or with too short a payload, fail |
| IoServer.CfioIo.MergeAndWrite | src/server/io.c:1394-1455 | The array handed to the write call holds the overlay of the slots' payloads in their hull; for which types there is a call is stated by Programs.RoundWrites |
| IoServer.CfioIo.IoEndDef | src/server/io.c:1232-1290 | Defines the whole list once and leaves define mode, or only removes the request |
| IoServer.CfioIo.HandleDef | src/server/io.c:472-571 | One entry: a fresh id, translated dimension ids, then its attributes |
| IoServer.CfioIo.IoDefVar | src/server/io.c:1034-1121 | The method adds what the model adds if the file and all its dimensions are known and the variable is not (TraceProof.DefVarTied: the call's name, type and dimension ids in the call's order); id 0 fails at the lookup that meets it |
| IoServer.CfioIo.IoDefDim | src/server/io.c:783-880 | Adds a dimension once; id 0 fails |
| IoServer.CfioIo.IoCreate | src/server/io.c:700-781 | Creates a file once |
| IoServer.CfioIo.IoPutAtt | src/server/io.c:1124-1230 | Global attributes are written, variable attributes appended for enddef (TraceProof.PutAttTied) |
| IoServer.CfioIo.IoClose | src/server/io.c:1505-1563 | Closes the file once and forgets its table |
| IoServer.CfioIo.RecvClientIo | src/server/io.c:152-187 | Marks the client in the request's bitmap, creating the request if needed |
| Definitions.ReachableOrdered | src/server/io.c:822-830 | In every reachable state each variable's dimensions stand before it in the file's list, whatever the order of messages |
| Definitions.HandleOrdered | src/server/io.c:1085-1112 | Every message keeps that order |
| Definitions.EndDefDefines | src/server/io.c:1264-1286 | enddef gives every entry a fresh id in list order and replaces each dimension id by the id that dimension got, keeping order and arity |
| Definitions.EndDefOnce | src/server/io.c:1264-1286 | The list is defined once per file; a second enddef emits nothing |

## Left out

- RDMA verbs, connection setup, MPI exchange, completion polling: environment steps here.
- Error returns of netCDF calls, failed allocation, freeing, debug output and timing; handlers are modelled by their effect, not their return code.
- Machine-integer truncation: sizes, offsets and addresses are unbounded naturals; ids and size fields keep their widths.
- Dead or legacy code: the `*_old` functions, `_io_msgs`, `cfio_buf_unpack_data_array_ptr`, the SEND_ADDR and SVR_* variants, FUNC_FINAL messages.
- Client-side name assignment in id.c, the hash function and the intrusive lists (maps and sequences here), the Fortran wrappers.
- `client_dim_id` in request keys: it is always 0 in the code in use.
- StreamRuns.FlushIsAcknowledged: assumes fair turns, that is, that rounds empty the client's queue and posted bytes land before the turns that follow; scheduling among the clients is not modelled as fair.
- Comm.CfioServer: the per-client tables are sequences that the methods reassign, so aliasing between them is not captured; the receive queues and the handlers are objects.
- Comm.CfioServer.Turn: works on the protocol state of the clients as history; the clients' own steps between turns are those of EndToEnd.
- Sender.CfioSender.ClientBufFree: its waits are answered at once; Sender.EveryInterleavingSettles states that no interleaving changes the outcome.
- IoServer.CfioIo: the request table and the id tables are maps whose entries are replaced; Bitmaps.AddBitmap and Merge.MergeVarData are the in-place algorithms.
- IoServer.CfioIo.IoPutVara: a block of another rank than the variable's counts as a failure; where its arrays are merely longer the source uses their first entries.
- EndToEnd.Do: after a failure within a turn only `io` is meaningful; the model finishes the turn, the process does not.
- Grid.GridMap.GenServerXAndY: best greater than 2.5 times the number of clients is not modelled; there the tolerance test passes and the source uses indices it never set.
- Receiver.CfioRecv.GetFirst: the branch for a descriptor with several messages is not modelled because it is proved never to be taken.
