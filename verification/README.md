# Ordered delivery, queue locks, a node queue and two snappy routines

The connection object of the communication server turns a byte stream into messages for worker threads, and
packets from any number of threads into a byte stream. It must not lose, repeat or reorder anything, although
buffers complete out of order, packets are prepared out of order, the socket writes and reads pieces, and
handlers may finish asynchronously. This project models that object and proves the ordering end to end; then it
does the same for three spin locks (mutual exclusion, first come first served, everybody gets in), the queue of
pointers (how long it is first-in first-out, and where its nodes go) and the word-level parts of the bundled snappy
headers.

How the parts fit together:

- `SortedList`, `Receiver`, `Sender`, `Dispatch` and `QueueData` (on `NodeChains`) are imperative: classes with the
  source's own fields and linked nodes. Every method is proved against a function on values (`Rx`, `Tx`, `Dx`,
  `Layout`).
- `ReceiveRun`, `SendRun`, `EndToEnd`, `DispatchRun`, `Delivery` and `QueueRun` are about whole runs: events in any
  order, an invariant kept by every step, and theorems about every reachable state. Methods in them call those of
  the classes and show that each call is an event of the run. `Progress` shows from which reachable states what was
  begun can be finished. `Delivery` joins sender, receiver and workers, from the submission of a body to its handler.
- `K42`, `Mcs` and `Ticket`, with `Waiters`, are transition systems over any number of threads in which every
  load, store and read-modify-write is one step, under sequential consistency. History variables log arrival and
  entry.
- `LittleEndian`, `Wire`, `Buffers`, `Streams`, `Bits`, `SnappyMatch` and `Varint` hold the data formats. The packet
  header is the packed structure of lines 28 to 48 of CXCommon/include/CXCommonPacketStructure.h, and workers call
  the dispatcher as in lines 111 to 120 of CXCommunicationServer/src/CXMessageProcessLevelBase.cpp.

What the outside world decides is a parameter or an event: the outcomes of `send` and `recv` (an arbitrary
script), whether the poller obeys, how many buffers the memory cache can serve, which thread moves next, how long
asynchronous work takes, whether a block can be allocated. Sizes of structures are those with 8-byte pointers.

Where the code and its own comments disagree, the model follows the code: `CX_MAX_CHACHE_SIZE` is 1048576,
although a comment and a log message speak of 10 MB. Six properties one might expect do not hold of the code.
Each is proved with its exact condition and with an input for which it fails:

- RecvPacket does not always return. If a packet with a wrong check sum ends where the last listed buffer does,
  it follows a null pointer while it logs the error (`Receiver.ReceiveSide.RecvPacket`, `ReceiveRun.FaultExactly`,
  `Receiver.LonePacketFaults`). A sender of this kind never causes it (`EndToEnd.NeverRejected`).
- Not everything that is numbered and sent can be received. The sender gets a buffer for bodies of up to 1048504
  bytes, but the receiver asks for a message buffer with a longer head and gets none from 1048485 bytes on
  (`EndToEnd.DeliveredIff`, `EndToEnd.LengthsBetween`, `Progress.BigBodyLost`). Below that everything arrives.
- Not everything that is prepared is sent. An accepted connection is attached to the poller while it is PENDING, and
  then set to ESTABLISHED without a call of SendDataList (lines 461 to 465 of
  CXCommunicationServer/src/CXCommunicationServer.cpp). What PostSend has listed in between stays where it is until
  a new packet comes (`SendRun.StrandedIff`, `SendRun.ReplyStranded`, `Progress.CanSettleIff`). A connection that is
  created on a request is safe: its task calls SendDataList (lines 130 to 140 of
  CXCommunicationServer/src/CXTaskCreateConnection.cpp).
- The queue of pointers is not always first-in first-out. Once the last free node is taken, PopFront gives nodes back
  to the end of the chain in use. A push into a new block mends that, at the price of lost nodes; but if the queue is
  popped empty before, pointers come out again (`QueueRun.AlwaysRightIff`, `QueueRun.PopsCycle`,
  `QueueRun.PushMends`, `QueueRun.FillAndPop`).
- Clear on an empty queue follows a null pointer, and Init with a block of less than two nodes writes outside it
  (`QueueData.Queue.Clear`, `QueueRun.FullIff`, `QueueRun.ClearEmpty`, `QueueRun.SmallBlock`).
- `ticket_trylock` can fail on an idle lock (`Ticket.TrySucceedsExactly`, `Ticket.TryCanFailWhenIdle`).

Check everything with `dafny verify dfyconfig.toml` (Dafny 4.11).

## Model

| member | source | states |
|---|---|---|
| Wire.DecodeEncode | CXCommunicationServer/src/CXConnectionObject.cpp:1351-1357 | every packed 16-byte header that fits its field widths is read back as it was written |
| Wire.EncodeDecode | CXCommunicationServer/src/CXConnectionObject.cpp:347-374 | and every 16 bytes are the encoding of exactly the header read from them |
| Wire.FrameBytes | CXCommon/include/CXCommonPacketStructure.h:30-48 | where every field of a sent packet stands, in plain arithmetic on its bytes: F7 25, two zeros, length, byte sum and length with their low bytes first, and the body |
| Wire.FrontOfBytes | CXCommunicationServer/src/CXConnectionObject.cpp:374-409 | and what the receiver makes of any bytes at the front of a stream, in the same terms: more bytes needed, wrong magic number, too long, no message buffer, wrong sum, no codec, or the packet |
| Wire.PeerPacket | CXCommunicationServer/src/CXConnectionObject.cpp:374-440 | so 16 bytes that read so, from whatever peer, and the bytes they speak of are cut out as one packet, and parsing goes on behind it |
| Wire.ComputeCheckSum | CXCommunicationServer/src/CXConnectionObject.cpp:1344-1348 | the loop's sum, kept in 32 bits |
| Wire.CheckSumNeverWraps | CXCommunicationServer/src/CXConnectionObject.cpp:595-608 | for every body within CX_MAX_CHACHE_SIZE the 32-bit check sum is the true sum of the bytes |
| Wire.FrontOf | CXCommunicationServer/src/CXConnectionObject.cpp:374-392 | what is cut out is exactly the bytes behind the header, and a message buffer can hold it; bytes are dropped only with a spoiled packet |
| Wire.FrontOfSpoiled | CXCommunicationServer/src/CXConnectionObject.cpp:595-613 | a complete packet with any other check sum than that of its body is dropped as a whole |
| Wire.ParseResumes | CXCommunicationServer/src/CXConnectionObject.cpp:324-556 | for every cut of a byte stream: parsing the front, then the leftover again before the rest, finds what one pass over the whole finds - also after a stop for want of memory |
| Wire.EnoughMemory | CXCommunicationServer/src/CXConnectionObject.cpp:394-407 | a pass that did not run out of message buffers, but may have met a body too big for any, finds the same packets with any larger supply, and with any supply greater than the number it found |
| Wire.FrontOfFrame | CXCommunicationServer/src/CXConnectionObject.cpp:1341-1357 | given at least the whole frame, the receiver accepts every framed body for which it gets a message buffer; it stops at the header of every other one, and waits for more on every proper piece |
| Wire.ParsePrefix | CXCommunicationServer/src/CXConnectionObject.cpp:328-556 | in whatever prefix of the framed packets has arrived, one pass finds the packets that are complete in it, all of them unless memory runs out or one is too big for a message buffer, and nothing else |
| SortedList.InsertFresh | CXCommunicationServer/src/CXConnectionObject.cpp:1699-1757 | inserting a new number keeps the list strictly increasing and adds that number and no other |
| SortedList.InsertKeeps | CXCommunicationServer/src/CXConnectionObject.cpp:1699-1757 | the old entries and the new one are the entries afterwards if and only if the number was not already the last one - the one case in which the insertion drops its node |
| SortedList.List.Push | CXCommunicationServer/src/CXConnectionObject.cpp:1768-1825 | the three identical insertion routines on head, end and next pointers compute that insertion, keep both pointers right, and the branches that report a broken list are unreachable |
| SortedList.List.RemoveHead | CXCommunicationServer/src/CXConnectionObject.cpp:1945-1949 | unlinking the first node keeps head and end pointer right |
| Buffers.DropRun | CXCommunicationServer/src/CXConnectionObject.cpp:445-472 | what the contiguous run loses in bytes at its front it gains in processed buffers: the rest of the run is the same bytes without the first c |
| Buffers.DropTwice | CXCommunicationServer/src/CXConnectionObject.cpp:445-472 | using up bytes in two goes, with buffers split anywhere, is using them up at once |
| Streams.PushRun | CXCommunicationServer/src/CXConnectionObject.cpp:208-271 | a buffer that completes leaves the contiguous run as it was or extends it by whole buffers, exactly those up to the next gap |
| Streams.ConsumeContent | CXCommunicationServer/src/CXConnectionObject.cpp:445-477 | consumption keeps every listed buffer equal to what was read into it, but for a front part of the next one in turn |
| Streams.ConsumeNums | CXCommunicationServer/src/CXConnectionObject.cpp:452-472 | and takes just the processed numbers out of the list |
| Sockets.Socket.Send | CXCommunicationServer/src/CXConnectionObject.cpp:1894-1933 | which outcome of send gives which answer: a short count, EAGAIN, EINTR, reset, other error, closed; the accepted bytes are on the wire |
| Sockets.Socket.Recv | CXCommunicationServer/src/CXConnectionObject.cpp:1013-1045 | which outcome of recv gives which answer; what it returns is a leading part of what the peer sent |
| Sockets.NeverHard | CXCommunicationServer/src/CXConnectionObject.cpp:1897-1925 | so a socket that only moves bytes, asks to wait or is interrupted gives no call a hard error, which by the contracts below are all that break a connection |
| Receiver.Rx.Consume | CXCommunicationServer/src/CXConnectionObject.cpp:445-477 | the run afterwards is the run without its first c bytes |
| Receiver.UnpackRound | CXCommunicationServer/src/CXConnectionObject.cpp:328-556 | one round of the loop followed by a pass over what it leaves is one pass |
| Receiver.CopyPart | CXCommunicationServer/src/CXConnectionObject.cpp:347-361 | the bounded copy: as much as fits, to the right place, never past the end of the destination |
| Receiver.TakeFrom | CXCommunicationServer/src/CXConnectionObject.cpp:347-437 | the loop body for one buffer: the header and message buffers hold exactly the bytes gathered so far, or the packet is complete, or it must be refused |
| Receiver.FillBody | CXCommunicationServer/src/CXConnectionObject.cpp:417-437 | every copy into the message buffer stays inside it, and it is filled exactly when the packet is complete |
| Receiver.FrontGathered | CXCommunicationServer/src/CXConnectionObject.cpp:373-406 | the decision taken on the gathered bytes is the one the one-pass parser takes on the whole run |
| Receiver.FrontWhole | CXCommunicationServer/src/CXConnectionObject.cpp:417-440 | a packet gathered over several buffers is the packet at the front of their concatenation |
| Receiver.ReceiveSide.constructor | CXCommunicationServer/src/CXConnectionObject.cpp:63-130 | the counters and the list of a fresh connection |
| Receiver.ReceiveSide.FindPacket | CXCommunicationServer/src/CXConnectionObject.cpp:324-437 | scanning the list from the head finds the packet at the front of the run, however many buffers it straddles and wherever empty ones lie |
| Receiver.ReceiveSide.FreeBefore | CXCommunicationServer/src/CXConnectionObject.cpp:452-477 | exactly the buffers before the current one are freed and counted, and both list pointers are right |
| Receiver.ReceiveSide.FreeUsed | CXCommunicationServer/src/CXConnectionObject.cpp:445-477 | shortening the last buffer and freeing those before it is consuming the packet's bytes; the current buffer afterwards is the first one listed, if any is left |
| Receiver.ReceiveSide.HandOn | CXCommunicationServer/src/CXConnectionObject.cpp:439-547 | the packet gets the next number, is verified, and is handed on or refused with its number used up; with a wrong check sum and no current buffer a null pointer is followed |
| Receiver.ReceiveSide.CutFront | CXCommunicationServer/src/CXConnectionObject.cpp:324-547 | one packet off the front of the run, or the reason why there is none; it ends at a null pointer if and only if the check sum is wrong and nothing is listed behind the packet |
| Receiver.ReceiveSide.RecvData | CXCommunicationServer/src/CXConnectionObject.cpp:983-1075 | reads a leading part of the stream into a numbered buffer under all outcomes of recv; a number is used up only if something was read, and nothing read is lost; 0 if the buffer is full, -1 if and only if the reading ended with EAGAIN, -2 with a reset or another error or for want of a buffer, -3 with the end of the stream |
| Receiver.ReceiveSide.PushReceivedBuffer | CXCommunicationServer/src/CXConnectionObject.cpp:202-278 | insertion and the two counters |
| Receiver.ReceiveSide.RecvPacket | CXCommunicationServer/src/CXConnectionObject.cpp:286-574 | the whole call, with its return code, equals one pass over the concatenated bytes of the contiguous run; it terminates, at a null pointer if and only if that pass stops at a wrong check sum with nothing listed any more; 0, -3, -4 or -6, by the reason why the pass stopped |
| Receiver.FaultsIff | CXCommunicationServer/src/CXConnectionObject.cpp:535-538 | so, as long as no buffer is empty, if and only if a packet with a wrong check sum ends with the last byte of the last listed buffer and no gap comes before |
| Receiver.LonePacketFaults | CXCommunicationServer/src/CXConnectionObject.cpp:447-477 | a fresh connection that receives nothing but one packet with a wrong check sum, in one buffer, is such a case |
| Receiver.UnpackDrains | CXCommunicationServer/src/CXConnectionObject.cpp:551-573 | after a call that found nothing wrong no complete packet is left in the run |
| ReceiveRun.CompleteInv | CXCommunicationServer/src/CXConnectionObject.cpp:286-574 | every call of RecvPacket keeps the ledger, the placement of the numbers and the one-pass correspondence |
| ReceiveRun.RunInv | CXCommunicationServer/src/CXConnectionObject.cpp:286-574 | they hold in every reachable state, whatever is read and in whatever order buffers complete |
| ReceiveRun.OnePass | CXCommunicationServer/src/CXConnectionObject.cpp:324-556 | over any run without a failed call, the messages emitted and their numbers 1, 2, 3, ... are those of one pass over the concatenated bytes of the buffers that have arrived without a gap |
| ReceiveRun.BufferLedger | CXCommunicationServer/src/CXConnectionObject.cpp:268-271 | m_uiRecvBufferIndex = posted + listed + processed in every reachable state; every number issued is processed, listed or in flight, and only one of these; m_uiNumberOfReceivedPacketInQueue counts the messages handed on |
| ReceiveRun.FaultExactly | CXCommunicationServer/src/CXConnectionObject.cpp:535-538 | in every reachable state a call of RecvPacket follows a null pointer if and only if the bytes that have then arrived without a gap end with a packet whose check sum is wrong, the first such one, and every buffer behind the gap is still in flight |
| ReceiveRun.ReadStep | CXCommunicationServer/src/CXConnectionObject.cpp:983-1075 | every call of RecvData is a reading event of the run, or none if nothing was read; its buffer can then be handed to RecvPacket |
| ReceiveRun.CompleteStep | CXCommunicationServer/src/CXConnectionObject.cpp:286-574 | every call of RecvPacket is a completion event of the run, which fails if and only if an error is returned or the call does not return |
| Sender.Tx.Consume | CXCommunicationServer/src/CXConnectionObject.cpp:1942-1949 | the bytes still to send afterwards are those before without the first c |
| Sender.HeadProgress | CXCommunicationServer/src/CXConnectionObject.cpp:1886-1952 | a turn of the loop, all of the head packet or a beginning of it, is progress by as many bytes of the run |
| Sender.SendSide.NumberPacket | CXCommunicationServer/src/CXConnectionObject.cpp:1147-1213 | submission takes a buffer and issues the next sequence number and nothing else; the packet holds, behind 16 bytes of room, the object identifier, the request identifier, message code and packet number with their low bytes first, and the data; without a buffer - none left, or the packet too big for any - and for empty data no number is used up; the data does not fit the buffer if and only if the length asked for wraps around 2^32 |
| Sender.SendSide.SendOne | CXCommunicationServer/src/CXConnectionObject.cpp:1886-1940 | the write loop for one packet, for every script of outcomes: what send accepted is on the wire, and no more is asked for than is needed; on EAGAIN, and only then, the packet keeps exactly the rest; a reset, another error and the end of the stream end the loop with their codes |
| Sender.SendSide.SendHead | CXCommunicationServer/src/CXConnectionObject.cpp:1886-1952 | the packet leaves the list when it is out, and stays with its read pointer advanced on EAGAIN, and only on EAGAIN |
| Sender.SendSide.SendDataList | CXCommunicationServer/src/CXConnectionObject.cpp:1836-2020 | until the first hard error, under all outcomes of send and of the poller: what went out is a beginning of the run of packets next in turn, exactly that has left the list, and 0 is returned only with everything out or the poller watching; the call counts as broken if and only if one of the outcomes it met was a hard error; otherwise it ends with everything out, or with EAGAIN, and returns -4 if and only if something is left and the poller refuses |
| Sender.SendSide.PushSendBuffer | CXCommunicationServer/src/CXConnectionObject.cpp:1768-1833 | packets prepared out of order are sorted in |
| Sender.SendSide.SendAssembledPacket | CXCommunicationServer/src/CXConnectionObject.cpp:1339-1368 | framing, the size limit of PostSend, insertion, and the flush in an established connection; it breaks if and only if send meets a hard error |
| Sender.SendSide.OnWritable | CXCommunicationServer/src/CXSocketServerKernel.cpp:663-680 | disarm, then send: the watch is decided anew from what is left; it breaks if and only if send meets a hard error |
| Sender.NoStrandedOutput | CXCommunicationServer/src/CXConnectionObject.cpp:1953-1975 | when SendDataList returns 0 and the head of the list is next to go, write notification is armed - and, on the disarm-then-send path, only then |
| SendRun.SentIsFlush | CXCommunicationServer/src/CXConnectionObject.cpp:1836-2020 | every call of SendDataList without a hard error is a flush step of the run, in which the poller fails if and only if -4 is returned |
| SendRun.NumberStep | CXCommunicationServer/src/CXConnectionObject.cpp:1147-1213 | every call of SendPacket up to the number is a submission event of the run, or none if the packet got no buffer |
| SendRun.PostStep | CXCommunicationServer/src/CXConnectionObject.cpp:1339-1368 | every call of SendAssembledPacket with a numbered packet is a preparation event: PostSend never refuses it for its size; the connection breaks in it if and only if send meets a hard error |
| SendRun.WritableStep | CXCommunicationServer/src/CXSocketServerKernel.cpp:663-680 | every writable event of the poller is one of the run, unless the poller does not stop watching; the connection breaks in it if and only if send meets a hard error |
| SendRun.StepInv | CXCommunicationServer/src/CXConnectionObject.cpp:1179-1254 | submission, preparation in any order, flushes and writable events keep: every number is on the wire, listed or unprepared; wire and run together are the frames in order |
| SendRun.WireInOrder | CXCommunicationServer/src/CXConnectionObject.cpp:1864-1974 | in every reachable state the bytes written are packets 1..m_uiLastSentPacketSequenceNum in full, then the beginning of the next one, as long as its nCurDataPointer has advanced |
| SendRun.StrandedIff | CXCommunicationServer/src/CXConnectionObject.cpp:795-800 | over every run of a connection whose poller obeys: a packet that can go out next is listed in the established connection, and nobody watches for it, if and only if one was next in turn when the state was set and SendDataList has not been called since |
| SendRun.StuckIff | CXCommunicationServer/src/CXConnectionObject.cpp:795-800 | and nothing will be done about it if and only if, besides, neither a preparation nor the call of the creating task is still to come |
| SendRun.StuckStays | CXCommunicationServer/src/CXConnectionObject.cpp:1836-1975 | then every event but a new packet leaves list, wire and poller as they are |
| SendRun.EstablishSticks | CXCommunicationServer/src/CXConnectionObject.cpp:187-194 | setting the state gets a connection stuck if and only if it was not created on a request, everything submitted is prepared, and something of it can go out |
| SendRun.ReplyStranded | CXCommunicationServer/src/CXConnectionObject.cpp:795-798 | for every body there is such a run: submitted and prepared before the state is set |
| SendRun.CreatedStep | CXCommunicationServer/src/CXConnectionObject.cpp:1836-2020 | the call of SendDataList by the creating task is the event that follows the setting of the state; the connection breaks in it if and only if send meets a hard error |
| EndToEnd.StepInv | CXCommunicationServer/src/CXConnectionObject.cpp:286-574 | sender, byte stream and receiver keep their invariants together under every event |
| EndToEnd.InOrderDelivery | CXCommunicationServer/src/CXConnectionObject.cpp:1208-1209 | for every run - any preparation order, partial writes, cuts into buffers, completion order - the messages emitted are a beginning of the bodies submitted, in sequence order, numbered from 1 |
| EndToEnd.NeverRejected | CXCommunicationServer/src/CXConnectionObject.cpp:374-392 | the receiver never finds anything wrong with what the sender sent: a call succeeds or fails for want of memory, and never follows a null pointer |
| EndToEnd.AllDelivered | CXCommunicationServer/src/CXConnectionObject.cpp:394-407 | once everything is prepared and sent, and read and completed unless the receiver has failed: the bodies emitted are all those before the first one too big for any message buffer, and the receiver has failed if and only if there is one - provided that the cache never runs out of buffers |
| EndToEnd.DeliveredIff | CXCommunicationServer/src/CXConnectionObject.cpp:394-407 | so everything submitted is emitted, with its number, if and only if no body is longer than 1048484 bytes |
| EndToEnd.LengthsBetween | CXCommunicationServer/src/CXConnectionObject.cpp:1155-1163 | the lengths of body for which the sender gets a buffer and the receiver never does: 1048485 to 1048504 |
| Progress.BigBodyLost | CXCommunicationServer/src/CXConnectionObject.cpp:394-407 | for every such body there is a run in which the sender numbers it and sends it in full, and the receiver fails as soon as it has read 4096 bytes, with whatever supply of message buffers |
| Progress.NextEvent | CXCommunicationServer/src/CXConnectionObject.cpp:1953-1975 | in every reachable state whose sender is not stuck, as long as not all is settled, some event brings it nearer - fewer packets to prepare, bytes to send, bytes to read, or buffers to complete - and does not get it stuck |
| Progress.CanSettle | CXCommunicationServer/src/CXConnectionObject.cpp:1953-1975 | so every such run can go on, without a new packet, until all is settled, even if the poller has failed before |
| Progress.StuckForEver | CXCommunicationServer/src/CXConnectionObject.cpp:795-800 | once the sender is stuck, no further run without a new packet gets another byte out |
| Progress.CanSettleIff | CXCommunicationServer/src/CXConnectionObject.cpp:795-800 | so a run can be brought to where all is settled, without a new packet, if and only if its sender is not stuck |
| Progress.CanDeliver | CXCommunicationServer/src/CXConnectionObject.cpp:1208-1209 | and then everything submitted has been emitted, up to the first body too big for any message buffer, if the cache has not failed |
| Dispatch.DispatchSide.ProcessUnpackedMessage | CXCommunicationServer/src/CXConnectionObject.cpp:1452-1695 | one thread alone: the message is sorted in, and the handlers run on the consecutive messages from m_uiLastProcessedMessageSequenceNum + 1 on, up to a gap or an asynchronous one; by positions: the messages handed out are the first ones listed, with the next numbers; none but the last goes asynchronous, and if that one does, it is not counted and nothing follows; otherwise the next number is not at the head |
| Dispatch.DrainIs | CXCommunicationServer/src/CXConnectionObject.cpp:1493-1690 | the loop on the list as a value has just that effect |
| DispatchRun.WatchedKept | CXCommunicationServer/src/CXConnectionObject.cpp:1624-1690 | no lost dispatch: whenever the next message is listed, some thread is going to look at the list again |
| DispatchRun.StepInv | CXCommunicationServer/src/CXConnectionObject.cpp:1444-1697 | every step of every thread keeps the invariant: one bearer of the message in flight, every other message in one place, no lost dispatch |
| DispatchRun.ExactlyOnceInOrder | CXCommunicationServer/src/CXConnectionObject.cpp:1499-1690 | for any number of threads interleaving at the lock releases, the messages handed to ProcessMessage are exactly 1, 2, 3, ... with their own bodies, no gap, no repeat |
| DispatchRun.OneAtATime | CXCommunicationServer/src/CXConnectionObject.cpp:1620-1637 | at most one handler runs; while a message is asynchronous - working, completed or about to be ended - it is the only one and no successor has been handed out |
| DispatchRun.MessageLedger | CXCommunicationServer/src/CXConnectionObject.cpp:1636-1637 | m_uiNumberOfReceivedPacketInQueue = unpacked - m_uiLastProcessedMessageSequenceNum in every reachable state, never below zero |
| DispatchRun.NothingStuck | CXCommunicationServer/src/CXConnectionObject.cpp:1499-1690 | when no worker has anything left to do and no asynchronous work goes on, every unpacked message has been handed out and counted and the list is empty |
| DispatchRun.EndReleases | CXCommunicationServer/src/CXConnectionObject.cpp:2194-2198 | the end of an asynchronous message, whenever it is reported: it counts the one message in flight, and none is left in flight; then, and not before, its successor is ready if it is listed, and the reporting thread will look |
| DispatchRun.EndStep | CXCommunicationServer/src/CXConnectionObject.cpp:2194-2198 | the method that reports the end is that step of the run |
| DispatchRun.EveryStepCounts | CXCommunicationServer/src/CXConnectionObject.cpp:1499-1690 | no schedule keeps the workers busy for ever: every step but the arrival of a message makes a bound on the remaining steps smaller |
| DispatchRun.ComesToRest | CXCommunicationServer/src/CXConnectionObject.cpp:1499-1690 | so from every reachable state, within that many steps, every message unpacked so far is handed out and counted |
| DispatchRun.AloneIsDrain | CXCommunicationServer/src/CXConnectionObject.cpp:1499-1690 | a thread left alone does in its steps what ProcessUnpackedMessage above does in one go |
| DispatchRun.AloneDrains | CXCommunicationServer/src/CXConnectionObject.cpp:1493-1690 | so a thread alone hands out what the method would: up to the first message that goes asynchronous, or to a gap |
| Delivery.HandledInOrder | README.md:45 | the handlers of the receiver are given the first bodies submitted at the sender, in that order, each once, whatever sender, network, completion order and worker threads do |
| Delivery.AllHandled | CXCommunicationServer/src/CXConnectionObject.cpp:1499-1690 | and at rest all of them up to the first one too big for any message buffer, provided that the cache never ran out of buffers |
| Delivery.NetIsRun | CXCommunicationServer/src/CXConnectionObject.cpp:432-440 | the workers do not interfere with the network: its part of a joint run is a run of its own |
| Delivery.CanHandleAll | README.md:45 | from every reachable state of the whole system whose sender is not stuck and whose cache has not failed, everything submitted so far can still reach its handler, up to the first body too big |
| K42.First | CXLock/include/linux/spinlock-k42.h:44-74 | a thread that does not wait for another one is the first in the queue |
| K42.Second | CXLock/include/linux/spinlock-k42.h:56-69 | a next pointer seen by the first in the queue points to the second, which has linked itself in; a tail that is not its own means there is a second |
| K42.LinkStep | CXLock/include/linux/spinlock-k42.h:47-51 | the pending predecessor pointer leads to the right place even when that is the lock word |
| K42.StepInv | CXLock/include/linux/spinlock-k42.h:36-98 | every access keeps the queue, the chain of next pointers through stack nodes and the lock word, and the logs |
| K42.MutualExclusion | CXLock/include/linux/spinlock-k42.h:36-91 | in every reachable state of n threads at most one is between the return of k42_lock and its hand-over |
| K42.FirstComeFirstServed | CXLock/include/linux/spinlock-k42.h:44-95 | threads get the lock in the order of their exchange or successful trylock on l->tail, as their program counters tell |
| K42.LogsAreTrue | CXLock/include/linux/spinlock-k42.h:44-95 | the history variables log just what the program counters tell |
| K42.NodeRetired | CXLock/include/linux/spinlock-k42.h:56-73 | once k42_lock has returned, no pointer to the thread's stack node is left in l->tail, in l->next, in a live node or in a pending local pointer |
| K42.NeverThroughNull | CXLock/include/linux/spinlock-k42.h:47-90 | whenever a thread links itself in or wakes its successor, the pointer it stores through leads to the lock word or to another thread's node |
| K42.TrySucceedsIffIdle | CXLock/include/linux/spinlock-k42.h:93-98 | k42_trylock succeeds if and only if nobody holds the lock or waits for it |
| K42.TryRefused | CXLock/include/linux/spinlock-k42.h:93-98 | otherwise, if anybody is queued, it leaves lock word, nodes, logs and program counters as they were |
| K42.SomeoneMoves | CXLock/include/linux/spinlock-k42.h:53-90 | no lost hand-over: as long as somebody is queued, the first can go on, or the second has just to link itself in |
| K42.EveryStepCounts | CXLock/include/linux/spinlock-k42.h:36-91 | every access of a thread inside the routines that does not find it has to wait lowers a bound on those that are left |
| K42.CanEnter | CXLock/include/linux/spinlock-k42.h:36-74 | from every reachable state every thread that has called k42_lock can be brought to its return, within that bound and without anybody calling again |
| K42.CanLock | CXLock/include/linux/spinlock-k42.h:36-74 | so every thread outside can call and get the lock with nobody else calling |
| K42.NothingStuck | CXLock/include/linux/spinlock-k42.h:36-91 | and whatever the schedule, when nobody inside can do anything but wait, nobody is inside |
| Mcs.StepInv | CXLock/include/linux/spinlock-mcs.h:27-65 | every access keeps the queue, the chain of next pointers and the logs |
| Mcs.MutualExclusion | CXLock/include/linux/spinlock-mcs.h:27-65 | at most one holder in every reachable state, from any initial contents of the nodes |
| Mcs.FirstComeFirstServed | CXLock/include/linux/spinlock-mcs.h:34-46 | threads get the lock in the order of their exchange on the tail, as their program counters tell |
| Mcs.LogsAreTrue | CXLock/include/linux/spinlock-mcs.h:27-65 | the history variables log just what the program counters tell |
| Mcs.SomeoneMoves | CXLock/include/linux/spinlock-mcs.h:46-64 | no lost hand-over: as long as somebody is queued, the first in the queue does not spin, or the second has just to link itself in |
| Mcs.EveryStepCounts | CXLock/include/linux/spinlock-mcs.h:27-65 | every access of a thread inside the routines that does not find it has to wait lowers a bound on those that are left |
| Mcs.CanEnter | CXLock/include/linux/spinlock-mcs.h:27-46 | from every reachable state every thread that has called lock_mcs can be brought to its return, within that bound and without anybody calling again |
| Mcs.CanLock | CXLock/include/linux/spinlock-mcs.h:27-46 | so every thread outside can call and get the lock with nobody else calling |
| Mcs.NothingStuck | CXLock/include/linux/spinlock-mcs.h:27-65 | and whatever the schedule, when nobody inside can do anything but wait, nobody is inside |
| Mcs.NodeRetired | CXLock/include/linux/spinlock-mcs.h:51-65 | after unlock_mcs nobody will follow a pointer to the thread's node |
| Mcs.NeverThroughNull | CXLock/include/linux/spinlock-mcs.h:42-64 | whenever a thread links itself in or wakes its successor, the pointer it stores through leads to another thread's node |
| Ticket.WordHalves | CXLock/include/linux/spinlock-ticket.h:43-52 | the packed comparison succeeds if and only if both halves equal the expected counter |
| Ticket.SameShort | CXLock/include/linux/spinlock-ticket.h:30-35 | tickets less than 2^16 apart are told apart by 16 bits |
| Ticket.RunInv | CXLock/include/linux/spinlock-ticket.h:30-53 | as long as no more than 2^16 tickets are out at a time, the counters count modulo 2^16 and only the first in line holds |
| Ticket.MutualExclusion | CXLock/include/linux/spinlock-ticket.h:30-41 | then there is at most one holder |
| Ticket.ExclusiveIff | CXLock/include/linux/spinlock-ticket.h:30-41 | n threads exclude each other in every run if and only if n is at most 2^16 |
| Ticket.TooMany | CXLock/include/linux/spinlock-ticket.h:32-34 | for every larger n a run with two holders |
| Ticket.FirstComeFirstServed | CXLock/include/linux/spinlock-ticket.h:30-41 | service follows the order in which the tickets were drawn, through wrap-around, as the program counters tell |
| Ticket.LogsAreTrue | CXLock/include/linux/spinlock-ticket.h:30-53 | the history variables log just what the program counters tell |
| Ticket.TicketsDiffer | CXLock/include/linux/spinlock-ticket.h:30-35 | the tickets out are pairwise different |
| Ticket.IncrementUnraced | CXLock/include/linux/spinlock-ticket.h:37-41 | between the load and the store of the holder's ticket++ the counter does not change |
| Ticket.EveryStepCounts | CXLock/include/linux/spinlock-ticket.h:30-53 | every access of a thread inside the routines that does not find it has to wait lowers a bound on those that are left |
| Ticket.CanEnter | CXLock/include/linux/spinlock-ticket.h:30-41 | with no more than 2^16 tickets out, every waiter can be brought to the return of ticket_lock within that bound, by steps of whoever is first in line alone |
| Ticket.CanLock | CXLock/include/linux/spinlock-ticket.h:30-41 | so every thread outside can call and get the lock, as long as the bound leaves room for its ticket |
| Ticket.NothingStuck | CXLock/include/linux/spinlock-ticket.h:30-41 | and whatever the schedule, when nobody inside can do anything but wait, nobody is inside |
| Ticket.EqualIffIdle | CXLock/include/linux/spinlock-ticket.h:55-60 | with less than 2^16 tickets out the two counters are equal if and only if nobody holds or waits |
| Ticket.TrySucceedsIff | CXLock/include/linux/spinlock-ticket.h:43-53 | then trylock succeeds if and only if nobody holds or waits at its compare-exchange and the users counter still is what it read |
| Ticket.TryRefused | CXLock/include/linux/spinlock-ticket.h:43-53 | otherwise it fails, and neither counter nor anybody else has changed |
| Ticket.TrySucceedsExactly | CXLock/include/linux/spinlock-ticket.h:43-53 | over whatever the others do between its load and its compare-exchange: it succeeds if and only if nobody then holds or waits, and the number of tickets drawn in between is a multiple of 2^16 |
| Ticket.TryCanFailWhenIdle | CXLock/include/linux/spinlock-ticket.h:43-53 | a run in which trylock fails on an idle lock, so the second condition is needed |
| NodeChains.LinkBlock | CXContainer/src/CXQueueData.cpp:143-156 | the linking loop makes one doubly linked chain of a block, for every size from two on |
| NodeChains.Attach | CXContainer/src/CXQueueData.cpp:183-185 | linking behind a node of a chain keeps both directions linked and the data in order, and cuts off what followed; behind a node outside it changes nothing in it |
| QueueData.ReturnedRight | CXContainer/src/CXQueueData.cpp:297-302 | wherever the end pointers have got to, giving a node back leaves two chains of different nodes, with both end pointers where the value says |
| QueueData.Queue.constructor | CXContainer/src/CXQueueData.cpp:24-45 | an empty queue without blocks |
| QueueData.Queue.AllocateMemoryBlock | CXContainer/src/CXQueueData.cpp:108-172 | all nodes of a new block join the free chain and nothing else changes; a block of less than two nodes is too small |
| QueueData.Queue.Init | CXContainer/src/CXQueueData.cpp:52-69 | refines the queue as a value; a failed allocation leaves it uninitialised |
| QueueData.Queue.GetNode | CXContainer/src/CXQueueData.cpp:240-282 | the first free node, from a new block if need be, or none if the heap cannot serve it; m_pEmptyListEnd keeps pointing to the last one that is taken |
| QueueData.Queue.Push | CXContainer/src/CXQueueData.cpp:174-203 | refines the queue as a value in every state, across block growth and the implied Init: the node goes behind m_pListEnd, wherever that points |
| QueueData.Queue.Front | CXContainer/src/CXQueueData.cpp:228-238 | the first item of the chain in use, or NULL |
| QueueData.Queue.PopFront | CXContainer/src/CXQueueData.cpp:205-225 | refines the queue as a value in every state: the first node goes behind m_pEmptyListEnd, to the free chain, to the chain in use, or to the lost nodes |
| QueueData.Queue.FreeNode | CXContainer/src/CXQueueData.cpp:284-310 | a node goes behind m_pEmptyListEnd, and what was behind that is cut off |
| QueueData.Queue.Clear | CXContainer/src/CXQueueData.cpp:312-327 | refines the queue as a value in every state; a null pointer is followed if and only if a node is free and none is in use |
| QueueData.Queue.NodesShared | CXContainer/src/CXQueueData.cpp:157-158 | no node is in both chains or twice in one, whatever was done to the queue; and if none is lost, each node of each block is in exactly one of them |
| QueueRun.NodesConserved | CXContainer/src/CXQueueData.cpp:108-327 | over every run using + empty = blocks x m_dwInitSize, and the chains never hold more nodes than that |
| QueueRun.StepInStepIff | CXContainer/src/CXQueueData.cpp:205-225 | of a queue in step with a first-in first-out queue that takes the same pushes, an operation gets it out of step if and only if it is a pop whose node goes back to the chain in use with m_pListEnd on it, or cut off by it |
| QueueRun.RightUntilSpoilt | CXContainer/src/CXQueueData.cpp:205-238 | so over every run, Clear included, until there is such a pop, each pop returns what it should and Size() is right |
| QueueRun.AlwaysRightIff | CXContainer/src/CXQueueData.cpp:174-225 | over every run without Clear and NULL: after each operation the next pop would return what it should, if and only if the last item was never popped while no node was free |
| QueueRun.FullUntilPush | CXContainer/src/CXQueueData.cpp:246-268 | that is from the push that takes the last free node until a push gets a new block |
| QueueRun.PopsDrain | CXContainer/src/CXQueueData.cpp:205-225 | pop after pop, a queue that gives nodes back to the free chain returns its items in order, and then NULL for ever |
| QueueRun.PopsCycle | CXContainer/src/CXQueueData.cpp:297-301 | pop after pop, one that gives them back to the chain in use returns the first items again and again: the n-th pop returns item n modulo their number |
| QueueRun.PopsRightIff | CXContainer/src/CXQueueData.cpp:297-301 | so a queue in step returns what it should, however often it is popped from then on, if and only if it does not give nodes back to the chain in use |
| QueueRun.SpoiltShows | CXContainer/src/CXQueueData.cpp:297-301 | a pop that gets the queue out of step is found out: when as many pops have followed as should empty it, the next one still returns something |
| QueueRun.PushMends | CXContainer/src/CXQueueData.cpp:187-194 | a push into a new block keeps a full queue in step that has been popped, and it then drains as it should; the nodes behind m_pListEnd are lost |
| QueueRun.LosesIff | CXContainer/src/CXQueueData.cpp:187-194 | no other operation of a run without Clear loses a node |
| QueueRun.SoundKeptIff | CXContainer/src/CXQueueData.cpp:174-327 | with both end pointers in place and no node lost, that stays so under every operation, if and only if it is not a pop with no node free |
| QueueRun.FullIff | CXContainer/src/CXQueueData.cpp:312-327 | such a queue has no free node if and only if its blocks are full, and Clear faults on it if and only if it is initialised and empty |
| QueueRun.FillAndPop | CXContainer/src/CXQueueData.cpp:297-301 | for every block size and all pointers there is such a run: fill the first block, pop them all, and the next pop returns the first pointer once more |
| QueueRun.ClearEmpty | CXContainer/src/CXQueueData.cpp:312-322 | for every block size, a run of Init and Clear follows a null pointer |
| QueueRun.SmallBlock | CXContainer/src/CXQueueData.cpp:143-156 | Init writes outside its block if and only if that has less than two nodes |
| Bits.TzDivides | third_libs_source/snappy-1.1.7/include/linux/snappy-stubs-internal.h:434-445 | the lowest set bit is where the number stops being divisible by powers of two |
| Bits.ShiftLeftTz | third_libs_source/snappy-1.1.7/include/linux/snappy-stubs-internal.h:434-445 | a left shift in 32 bits is zero exactly if it pushes the lowest set bit out, and otherwise moves it |
| Bits.FindLSBSetNonZero | third_libs_source/snappy-1.1.7/include/linux/snappy-stubs-internal.h:434-445 | the portable scan returns the position of the lowest set bit of every nonzero word |
| Bits.FindLSBSetNonZero64 | third_libs_source/snappy-1.1.7/include/linux/snappy-stubs-internal.h:449-457 | and so does the 64-bit one |
| Bits.Log2Floor | third_libs_source/snappy-1.1.7/include/linux/snappy-stubs-internal.h:417-432 | 2^r <= n < 2^(r+1) for every nonzero word, -1 for zero; the loop ends with value 1, as asserted there |
| LittleEndian.LoadStore | third_libs_source/snappy-1.1.7/include/linux/snappy-stubs-internal.h:116-118 | a number written as w little-endian bytes is read back modulo 256^w |
| LittleEndian.StoreLoad | third_libs_source/snappy-1.1.7/include/linux/snappy-stubs-internal.h:116-118 | and bytes read as a number are written back as they were |
| LittleEndian.LoadPrefix | third_libs_source/snappy-1.1.7/include/linux/snappy-stubs-internal.h:116-118 | the low-order part of a word is the word of its first bytes |
| SnappyMatch.XorLow | third_libs_source/snappy-1.1.7/include/linux/snappy-internal.h:151-153 | low bits of the exclusive or are clear if and only if the low bits agree |
| SnappyMatch.FirstDifference | third_libs_source/snappy-1.1.7/include/linux/snappy-internal.h:101-103 | the lowest set bit of the exclusive or, divided by eight, is the index of the first byte in which two words differ |
| SnappyMatch.LongestUnique | third_libs_source/snappy-1.1.7/include/linux/snappy-internal.h:75-83 | there is one longest match, so both versions below return the same |
| SnappyMatch.FindMatchLength64 | third_libs_source/snappy-1.1.7/include/linux/snappy-internal.h:88-136 | the 8-byte version returns the length of the longest match within the limit, and whether it is less than 8 |
| SnappyMatch.FindMatchLength32 | third_libs_source/snappy-1.1.7/include/linux/snappy-internal.h:138-161 | and so does the 4-byte version, on machines of either byte order |
| Varint.RoundTrip | third_libs_source/snappy-1.1.7/include/linux/snappy-stubs-internal.h:485-533 | every 32-bit number is read back from its encoding, of at most five bytes, whatever follows |
| Varint.EncodingLength | third_libs_source/snappy-1.1.7/include/linux/snappy-stubs-internal.h:507-533 | how many bytes each number takes, by its size |
| Varint.EncodingBytes | third_libs_source/snappy-1.1.7/include/linux/snappy-stubs-internal.h:507-533 | the low seven bits of byte i are digit i of the number to the base 128, lowest first, and the high bit is set on all bytes but the last |
| Varint.DecodingBytes | third_libs_source/snappy-1.1.7/include/linux/snappy-stubs-internal.h:485-505 | of any bytes the decoder takes those up to the first without its high bit, and yields the number of which the low seven bits are the digits; a fifth byte may have four bits |
| Varint.DecodingFails | third_libs_source/snappy-1.1.7/include/linux/snappy-stubs-internal.h:485-505 | and it fails on all others |
| Varint.PrefixFails | third_libs_source/snappy-1.1.7/include/linux/snappy-stubs-internal.h:485-505 | no proper beginning of an encoding parses |
| Varint.CanonicalIff | third_libs_source/snappy-1.1.7/include/linux/snappy-stubs-internal.h:485-505 | what parses is the encoding of its value if and only if it does not end in a needless zero byte |
| Varint.StreamRoundTrip | third_libs_source/snappy-1.1.7/include/linux/snappy-stubs-internal.h:485-533 | the concatenated encodings of any list of 32-bit values decode to that list and to the last byte |
| Varint.Encode32 | third_libs_source/snappy-1.1.7/include/linux/snappy-stubs-internal.h:507-533 | the five branches write the encoding, and no other byte of the buffer changes |
| Varint.Parse32WithLimit | third_libs_source/snappy-1.1.7/include/linux/snappy-stubs-internal.h:485-505 | the unrolled parser is the decoder on the bytes before the limit, and yields 32-bit values only |

## Left out

- Sender.SendSide.SendDataList: after the first hard error of the socket nothing but the shape of the list is promised, because the code then drops packets while it closes the connection.
- Sender.SendSide.NumberPacket: the overload that is given a buffer by its caller is taken to get one of the length GetSendCXBufferObj asks for (lines 2022 to 2050 of CXCommunicationServer/src/CXConnectionObject.cpp), which is the same.
- Sender.SendSide.OnWritable: the poller is taken to report writability by itself. CXCommunicationServer/src/CXSocketServerKernel.cpp reaches this branch only in an `else if` behind the one for EPOLLIN (lines 464 to 475), so an edge that carries both flags never does.
- Sender.SendSide.SendAssembledPacket: the states closing and closed are not modelled; the flags for encryption and compression are zero.
- Receiver.ReceiveSide.RecvPacket: models the mode in which the caller holds the lock; with bLockBySelf the code gives the lock up in the middle of the loop. The loop appears as two, one that looks for a packet and one that starts over after each.
- Receiver.ReceiveSide.HandOn: a packet that asks for decryption or decompression gets the answer of a connection without a parser (-6); m_encryptType and m_compressType are not kept.
- ReceiveRun.Run: a connection whose RecvPacket has failed takes no further events, because the server closes it; nor does one whose RecvPacket has not returned.
- The memory cache (GetBuffer, lines 322 to 375 of CXMemoryCache/src/CXMemoryCacheManager.cpp): a buffer is as large as asked for, and refused over the maximum size that both constructors set. Size classes and their pools are not modelled, nor is SetMaxObjectSize.
- Dispatch.DispatchSide.ProcessUnpackedMessage: one thread without interference, and handlers that succeed; the interleavings are in DispatchRun. Its return code is not modelled.
- DispatchRun.Step: a handler is one outcome, synchronous or asynchronous, with one completion for each asynchronous message; object lookup, sessions and failing handlers, which close the connection, are not part of it.
- QueueData.Queue.Init: sizes whose byte count does not fit an `int` are taken to get no block.
- QueueRun.AlwaysRightIff: runs with Clear are covered by QueueRun.RightUntilSpoilt, QueueRun.StepInStepIff and QueueRun.SpoiltShows; there a pop that gets the queue out of step need not show at the very next one.
- Encryption, compression and their task pools: preparation is an abstract step that may happen in any order, and the codec is the identity.
- Close, Destroy, FreeSendingList, time-outs, statistics, logging and the Windows branches.
- Wrap-around of the 64-bit sequence numbers; the node counters are integers, of which the code has the value modulo 2^32, and nothing depends on them; the 16-bit ticket counters, the 32-bit check sum and the 32-bit words of snappy do wrap.
- The DWORD dwPacketNum written into the body: Sender.SendSide.NumberPacket says what it is, but nothing is proved about the run of these numbers.
- trylock_mcs, which stores the address of its own parameter, the plain test-and-set locks, and weak memory effects.
- The CXQueue wrapper that swaps two queues, the list class, the session, object and proxy managers.
- The rest of snappy: compression, decompression and the compiler builtins that replace the portable scans.
