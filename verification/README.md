# A verified model of librws

librws is a WebSocket client (RFC 6455). A worker thread connects, upgrades,
sends and receives; the application calls a small API and is called back. The
model covers the frame codec, the receive pipeline, the send queue and the
two-actor connection state machine, in layers:

| file | what it holds |
|---|---|
| `Bytes`, `FrameSpec`, `FrameProofs` | octets; the wire format of section 5.2 of RFC 6455 written from the standard (`Render`); encoder, header parser, size checker and builder as functions; the proofs that they agree |
| `Stream` | the greedy split of a stream into frames and why it is unique |
| `Reassembly` | messages of a frame sequence (split at FIN), the slot list that computes them, section 5.4 of RFC 6455 |
| `SocketSpec`, `SocketProofs` | the socket as a value with its history, every operation as a function, and what one operation keeps |
| `System`, `SystemInvariant`, `SystemSteps` | worker and application interleaved: steps, invariant, its preservation |
| `SystemTheorems`, `ReceiveTheorems` | theorems over all runs: callbacks, ownership, sending, shutdown; what is received and delivered |
| `OutgoingTheorems`, `OutcomeTheorems` | theorems over all runs: which octets go out; what each answer of the environment and each release leads to |
| `ExampleRuns` | runs for every handshake answer: a connection, a fragmented message, the two losses |
| `Loopback`, `EndToEnd` | sender to receiver: with ticks until all has arrived; over any two runs |
| `MessageIds` | ids over any number of calls |
| `FrameCode`, `ListCode`, `SocketCode` | the C objects with their arrays, nodes and fields: imperative methods, each proved to do what the function of the same name in the specification layer says |
| `AsWritten` | two routines whose text departs from their documentation |

The steps of `System` are built from the functions that the methods of `SocketCode`
are proved against: first and second switch, the two halves of
`rws_socket_send_disconnect`, the stores of `rws_socket_connect` and of the end of the
worker, the calls of callbacks, the public calls. The inform loop is one method there
and one step for each node in `System`; `SystemTheorems.InformStepsAreInform` joins
the two. So a theorem over runs is a theorem about what those methods do.

## Modelling decisions

- **Octets** are numbers below 256; bit fields are written with `/`, `%` and `+`
  (`Bytes.BitFields` ties them to C's operators), XOR works on bit patterns.
- **Mask:** the random mask of `rws_frame_create` is a parameter.
- **Environment:** `recv` yields any list of chunks of at most 8192 octets and then
  either would block or fails. Host lookup, connect, the verdict on the handshake
  answer, the outcome of every send and whether a ping is due are parameters of a
  step. Allocation succeeds. All four callbacks are taken as set.
- **Arithmetic:** frame lengths are 32-bit, and the sum of header and payload wraps.
  The wrap is modelled; theorems that need its absence say so, and
  `FrameProofs.ParsersAgree` and `FrameProofs.EncodeRoundTrip` give the exact
  condition. The length handed to a callback is cut down to 32 bits, as in the code.
- **Atomicity:** a critical section of `work_mutex` is one step, and so is the
  read-then-write of `command` in the second switch
  (`src/rws_socketpriv.c:537-545`), which the code makes outside the lock. Appends to
  the send queue are single steps. Everything else outside the lock is a step of its
  own: each node of the inform loop, each store around the close frame, each of the
  three stores of `rws_socket_connect`.
- **Client contract** (`librws.h:282-289`): a connection is started at most once, the
  socket is released at most once and not in the middle of `rws_socket_connect`, and
  the handle is not used after its release or after `on_disconnected` has returned.
  The contract is stated in what a client can see (`System.HandleGood`); that the
  socket then still exists is proved (`SystemTheorems.NoUseAfterDelete`).
  `SystemTheorems.ReleaseDuringConnect` shows what goes wrong when a release overlaps
  `rws_socket_connect`.
- **Handshake answer:** where it ends is not computed; an accepting verdict says how
  many octets it takes up. `Log.received` holds every octet of the connection.
- **History:** `Log` records what went out, was accepted, came in, was cut and was
  called back. The program never reads it.

## Where the code differs from its documentation or from RFC 6455

- `rws_frame_combine_datas` stores an already advanced pointer. The model of the
  receive path uses the documented meaning ("combine datas of 2 frames",
  `src/rws_frame.h:56`). As the text stands, the merge is right exactly when the first
  frame is empty (`AsWritten.CombineExact`), and no merge of any run is such
  (`AsWritten.EveryMergeMisreads`), and the whole receive path does what is documented
  exactly for frame sequences in which nothing is merged (`AsWritten.AsWrittenExact`).
  Merges do happen: `AsWritten.AMergeHappens` is a run, `AsWritten.FragmentsMisread` the
  smallest input.
- `rws_socket_delete_all_frames_in_list` never advances. The model frees the list;
  `AsWritten.DeleteLoopExact` shows that the loop as written ends exactly on a NULL
  list, so shutdown as proved needs empty lists at these calls.
  `AsWritten.ReleaseMeetsQueue` is a run in which a release meets a queue.
- A message whose first fragment is empty, and so every empty message, is not
  delivered, although RFC 6455 allows it; a message of 2^32 octets or more is cut.
  `Reassembly.ReassemblyIsRfc` shows these are the only exceptions.
- Announcing 2^32 - 1 payload octets makes the size checker return nine
  (`FrameProofs.WrappedSizeExample`).
- When the handshake answer is accepted, the whole buffer is dropped. Nothing the peer
  has sent behind its answer is lost if and only if the answer came in alone
  (`ReceiveTheorems.NothingLostWhileOpen`); with more in the same read frames are lost
  (`ExampleRuns.AnswerNotAloneLoses`), with less the rest of the answer is taken
  for frames.
- A failing read drops the buffer: all whole frames received have been cut if and only
  if none was waiting (`ReceiveTheorems.FailingReadLoses`, with the run
  `ExampleRuns.FailingReadExample`).

## Model

| member | source | states |
|---|---|---|
| FrameProofs.RenderRoundTrip | src/rws_frame.c:220-264 | for every FIN bit, opcode, length form, mask choice and payload whose frame is shorter than 2^32 octets, the size checker returns the frame's exact length whatever follows, and the builder returns opcode, FIN and payload |
| FrameProofs.ReadIsRfcFrame | src/rws_frame.c:32-117 | conversely, an accepted buffer whose ignored bits are clear starts with exactly the RFC 6455 frame it is read as |
| FrameProofs.NoEarlyFrame | src/rws_frame.c:220-264 | the size checker returns 0 on every proper prefix of a frame |
| FrameProofs.CheckSizeStable | src/rws_frame.c:220-264 | a non-zero verdict is never changed by later octets |
| FrameProofs.ParsersAgree | src/rws_socketpriv.c:278-283 | on what the size checker cuts the builder never reads out of bounds, and succeeds if and only if the 32-bit sum did not wrap; then header plus payload is the cut |
| FrameProofs.WrappedSizeExample | src/rws_frame.c:260-261 | a ten-octet header announcing 2^32 - 1 octets is cut at nine and refused by the builder |
| FrameProofs.EncodeIsRfcFrame | src/rws_frame.c:119-175 | what the client sends is the RFC 6455 rendering of one unfragmented frame in the shortest length form |
| FrameProofs.EncodeRoundTrip | src/rws_frame.c:119-175 | the size checker agrees with the encoder if and only if the whole frame is shorter than 2^32 octets, and the builder then gives the payload back |
| FrameProofs.UnmaskInverts | src/rws_frame.c:104-109 | masking twice with the same mask is the identity |
| Stream.ParseConcat | src/rws_socketpriv.c:278-292 | concatenated whole frames split back into exactly these frames, whatever follows |
| Stream.UniquelyDecodable | src/rws_frame.c:220-264 | two lists of whole frames with the same octets are the same list |
| Stream.RenderIsWhole | src/rws_frame.c:220-264 | every RFC 6455 frame shorter than 2^32 octets is a whole frame, so the two rows above speak of every stream of such frames |
| Stream.TruncatedStream | src/rws_socketpriv.c:278-292 | a stream cut off inside a frame yields the frames before it and nothing else |
| Stream.ParseMonotone | src/rws_socketpriv.c:278-292 | more octets only add frames at the end of the split |
| Stream.GreedyIsParse | src/rws_socketpriv.c:278-292 | frames cut one at a time are the beginning of the one greedy split, and the rest splits on |
| Reassembly.GroupsPartition | src/rws_socketpriv.c:222-233 | splitting a frame sequence at its FIN bits loses nothing and keeps the order |
| Reassembly.GroupsCutAtFin | src/rws_socketpriv.c:222-233 | every completed group ends in its only FIN frame and the open one has none |
| Reassembly.AddDataRefines | src/rws_socketpriv.c:222-233 | for frames of any kind in any order, one more data frame keeps the slot list equal to the specification: messages completed and fragment still open |
| Reassembly.ScanIsTail | src/rws_socketpriv.c:205-220 | under the list invariant the scan for an unfinished frame is a look at the last node |
| Reassembly.AfterInformSettled | src/rws_socketpriv.c:58-90 | after informing nothing is pending, and the list is freed or holds one unfinished frame, last, as its only live entry |
| Reassembly.InformOne | src/rws_socketpriv.c:62-86 | informing one node takes exactly its message from the pending ones |
| Reassembly.ReassemblyIsRfc | src/rws_socketpriv.c:205-265 | for every conforming sequence with control frames anywhere, the delivered messages are those of section 5.4 of RFC 6455 if and only if no message has an empty first fragment or 2^32 octets or more |
| Reassembly.EmptyMessageExample | src/rws_socketpriv.c:228-231 | an empty text message is conforming and not delivered |
| SocketProofs.SendLoopHandsOver | src/rws_socketpriv.c:303-311 | the send loop hands over a beginning of the queue in order, up to and including the first failing send |
| SocketProofs.IdleSendKeeps | src/rws_socketpriv.c:295-318 | afterwards the queue is empty and either everything went out or the connection is closed and being given up |
| SocketProofs.RecvKeeps | src/rws_socketpriv.c:168-203 | reading keeps cut frames plus buffer equal to the stream; a failing read keeps the prefix claim |
| SocketProofs.CutOneKeeps | src/rws_socketpriv.c:278-292 | cutting and processing one frame keeps stream, list, delivery, pong and queue invariants together |
| SocketProofs.PongPayload | src/rws_socketpriv.c:235-242 | the wire octets of a pong unmask to the ping's payload, empty or not |
| SocketProofs.InformKeeps | src/rws_socketpriv.c:58-90 | after a whole inform call the delivered messages are exactly those of the frames processed |
| SystemSteps.SectionKeeps | src/rws_socketpriv.c:509-535 | the first switch keeps the invariant for every command and every answer of the environment |
| SystemSteps.StepKeeps | src/rws_socketpriv.c:504-565 | every enabled step of worker or application keeps the system invariant |
| SystemSteps.ReachableInv | src/rws_socketpriv.c:504-576 | every state of every run satisfies the invariant |
| SystemTheorems.CallbackOrder | src/rws_socketpriv.c:537-558 | in every run the callbacks come as (Connected Received*)? Disconnected?, releases inside callbacks included |
| SystemTheorems.PhaseMeaning | src/rws_socketpriv.c:537-558 | the phase automaton used in the invariant accepts exactly the traces so ordered |
| SystemTheorems.TransportOrder | src/rws_socketpriv.c:343-395 | in every run there is at most one handshake, it is sent first, queued frames come behind it and nothing queued follows a close frame |
| SystemTheorems.SingleOwner | src/rws_socketpriv.c:562-565 | in every run the socket is deleted at most once, has been exactly when the worker is gone or a socket without worker was released, and if it is gone without a release on_disconnected was its last callback |
| SystemTheorems.NoUseAfterDelete | librws.h:282-289 | no action of the worker or of a client who keeps the contract ever meets a deleted socket |
| SystemTheorems.WhoDeletes | src/rws_socketpub.c:66-87 | a release deletes the socket if and only if no worker was ever started |
| SystemTheorems.ReleaseUnlocks | src/rws_socketpub.c:76-86 | in every run a release takes one of the three branches that unlock the work mutex |
| SystemTheorems.StartUpWindow | src/rws_socketpriv.c:567-576 | until connect has stored thread and command the worker idles at NONE, calls nobody back and deletes nothing |
| SystemTheorems.ReleaseDuringConnect | src/rws_socketpub.c:76-85 | why the contract forbids a release in that window: it would delete under the running worker, or its END would be overwritten |
| SystemTheorems.FieldsMean | src/rws_socket.h:62-96 | connected implies an open socket and an accepted handshake; handshake commands imply open and not connected; IDLE follows Connected; after Disconnected the command stays DISCONNECT or END |
| OutcomeTheorems.StartOutcome | src/rws_socketpub.c:35-64 | a connect that lacks a parameter sets an error and starts nothing, one that gets no thread starts nothing |
| OutcomeTheorems.ConnectOutcome | src/rws_socketpriv.c:450-502 | in every run, the host reached opens the socket; not reached, nothing is opened or sent, an error is set and the connection is given up |
| OutcomeTheorems.HandshakeOutcome | src/rws_socketpriv.c:384-394 | in every run, the handshake goes out and is waited for, or the socket is closed and given up with an error |
| OutcomeTheorems.AnswerOutcome | src/rws_socketpriv.c:320-341 | in every run, without octets the worker waits on, a failing read or a refused answer closes and gives up, and only an accepted answer connects |
| OutcomeTheorems.UpgradedExactly | src/rws_socketpriv.c:333-336 | in every run a socket counts as upgraded if and only if an answer has been accepted |
| OutcomeTheorems.NeverAccepted | src/rws_socketpriv.c:320-341 | a run in which no answer is accepted is never connected, never calls on_connected and hands over no queued frame |
| OutcomeTheorems.NeverReached | src/rws_socketpriv.c:493-501 | a run in which the host is never reached never opens the socket, sends no handshake and is never connected |
| OutcomeTheorems.IdleOutcome | src/rws_socketpriv.c:515-531 | in every run, one section of a live connection hands over all that was accepted, a due ping included, then reads; it is given up if and only if a send fails, the read fails or a close frame is cut, and closed in the first two cases |
| SystemTheorems.ReceiveListShape | src/rws_socketpriv.c:205-233 | at every point of every run at most one received frame is unfinished, in the last node, and delivered plus pending messages are those of the frames processed |
| SystemTheorems.SettledBetweenTicks | src/rws_socketpriv.c:552-556 | between ticks of a live connection, in every run, everything processed has been delivered, no accepted frame is dropped, and the receive list is NULL or has the open fragment, last, as its only live entry |
| SystemTheorems.NoMessageLost | src/rws_socketpriv.c:544-558 | in every run, when on_disconnected has been called and the client has not released the socket, the messages of all frames processed have been delivered |
| ReceiveTheorems.DeliveredFromStream | src/rws_socketpriv.c:267-293 | in every run the frames cut are a beginning of the greedy parse of the octets received behind those dropped at the handshake, and the messages delivered a beginning of that stream's messages |
| ReceiveTheorems.NothingLostWhileOpen | src/rws_socketpriv.c:168-203 | while the socket is open, cut frames followed by the buffer are all octets received behind the drop, and all that the peer sent behind its answer if and only if the answer came in alone |
| ReceiveTheorems.AcceptanceDropsBuffer | src/rws_socketpriv.c:320-341 | in every run, what acceptance drops is the buffer and that is all received so far, so the answer came alone if and only if the buffer is as long as the answer |
| ExampleRuns.AnswerNotAloneLoses | src/rws_socketpriv.c:320-341 | for every handshake answer, two runs on the same octets, answer and one text frame: read together nothing is delivered, read apart the text is |
| ReceiveTheorems.FailingReadLoses | src/rws_socketpriv.c:196-202 | after a failing read all whole frames received have been cut if and only if none was in the buffer |
| ExampleRuns.FailingReadExample | src/rws_socketpriv.c:196-202 | for every handshake answer, a run in which a whole text frame is received and never delivered |
| ReceiveTheorems.ReachableHeard | src/rws_socketpriv.c:168-203 | in every run frames are looked for in what comes in behind the octets dropped at the handshake, and only there |
| ReceiveTheorems.DeliveriesAgree | src/rws_socketpriv.c:168-335 | two runs on the same octets that drop equally many at the handshake deliver messages that agree, whatever the chunks and the schedule |
| ReceiveTheorems.ChunkingIndependence | src/rws_socketpriv.c:168-335 | in particular two runs that accept the same answer, alone at its acceptance |
| ReceiveTheorems.CaughtUp | src/rws_socketpriv.c:267-293 | between ticks with no whole frame waiting exactly the messages of the stream have been delivered, all the peer sent if the answer came alone |
| ReceiveTheorems.SameOctetsSameMessages | src/rws_socketpriv.c:168-335 | two runs that have caught up on the same octets, answer alone, have delivered the same messages |
| SystemTheorems.SendFifo | src/rws_socketpriv.c:295-318 | in every run the queued frames handed to the transport are a beginning of the accepted ones, each once and in order |
| SystemTheorems.DroppedStaysDropped | src/rws_socketpub.c:73-74 | once the connection is being given up no step hands over another queued frame, and it stays given up |
| SystemTheorems.PongsAnswerPings | src/rws_socketpriv.c:235-242 | in every run exactly one pong is queued per ping processed, in order, with its payload |
| OutgoingTheorems.AcceptedAsAsked | src/rws_socketpriv.c:235-357 | in every run the frames accepted into the queue are the RFC 6455 renderings of exactly the pings due, the pongs owed and the texts given, in that order, each with the mask drawn for it and pings with the next id; the close frames sent are those of exactly the connections to be closed |
| OutgoingTheorems.EveryFrameMasked | src/rws_socketpriv.c:631-646 | in every run every queued frame and every close frame has FIN and mask bit set |
| OutgoingTheorems.IdsInOrder | src/rws_socketpriv.c:37-56 | in every run the pings accepted and the close frames sent are numbered through: frame k carries on the wire the text of id k, and the counter stands where so many calls leave it |
| OutgoingTheorems.CloseFramesAreReal | src/rws_socketpriv.c:343-354 | every close frame of every run is a whole frame with FIN, opcode 8 and mask bit that carries the text of an id between 1 and 10000000 |
| SystemTheorems.ShutdownDescends | src/rws_socketpriv.c:507-560 | every worker step of a socket that is released or given up lowers a rank and never leads back to work |
| SystemTheorems.ShutdownTerminates | src/rws_socketpriv.c:507-565 | once the socket is released or the connection given up, whatever application and transport do, the worker takes at most seventeen steps plus the length of the receive list, then has left its loop and deleted the socket once, and until then it can go on |
| ExampleRuns.AConnectionSucceeds | src/rws_socketpriv.c:504-576 | for every answer that is accepted there is a run from a fresh socket to a live connection in IDLE that has called on_connected, so the statements over all runs are not empty |
| SystemTheorems.ReleasedIsShuttingDown | src/rws_socketpub.c:71-82 | after a release the command is DISCONNECT or END and only the worker acts |
| OutcomeTheorems.ReleaseOutcome | src/rws_socketpub.c:66-87 | in every run a release clears the queue and stores DISCONNECT if connected, END if a worker runs, and deletes the socket otherwise |
| OutcomeTheorems.CloseFrameSent | src/rws_socketpriv.c:513-560 | in every run, when the worker has gone a close frame has been sent if and only if the socket was not released in a state that was not connected, with none sent and none about to be |
| OutcomeTheorems.LiveReleaseCloses | src/rws_socketpub.c:76-78 | so one has been sent whenever the socket was released connected or not released at all |
| OutcomeTheorems.NothingLeftBehind | src/rws_socketpub.c:138-170 | in every run a deleted socket has no buffer, no lists, no descriptor and no error left |
| OutcomeTheorems.ReleasedQueueEmpty | src/rws_socketpub.c:73-74 | in every run a released socket never has anything in its send queue again |
| SystemTheorems.InformStepsAreInform | src/rws_socketpriv.c:58-90 | the node-by-node inform steps of the system add up to the whole call |
| Loopback.LoopbackDelivers | src/rws_socketpriv.c:295-318 | a sender that has queued or sent texts says more, with pings and drains anywhere; its octets are re-cut into any chunks over any full ticks of the peer, pings and sends of the peer included, then come enough ticks without octets: the peer's text callback has fired with exactly the non-empty texts in order, and one pong is queued per ping |
| Loopback.QueuedBeforeConnecting | src/rws_socketpriv.c:631-646 | texts queued before the connection are among what such a sender has said, and that socket meets the receiver's condition as well |
| Loopback.JustConnected | src/rws_socketpriv.c:537-543 | in every run, a live socket between ticks that has received nothing since its handshake meets the receiver's condition of that theorem |
| Loopback.TickProgress | src/rws_socketpriv.c:278-292 | without new octets a tick that finds a whole frame strictly shrinks the buffer, any other leaves it |
| Loopback.QuietTicksDrain | src/rws_socketpriv.c:267-293 | quiet ticks work off the waiting frames one by one |
| Loopback.TicksKeep | src/rws_socketpriv.c:267-293 | ticks over any chunks keep a live connection's invariants and collect exactly the octets that arrived |
| EndToEnd.ReachableSays | src/rws_socketpriv.c:620-646 | in every run whose accepted frames stay below 2^32 octets they are whole frames whose messages are exactly the non-empty texts of the application, in order, whatever pings and pongs lie between |
| EndToEnd.DeliveredAreTexts | src/rws_socketpriv.c:267-318 | over any two runs, if one has received a beginning of what the other has sent from its queue, the messages it has delivered are a beginning of the texts the other application has sent |
| EndToEnd.AllTextsDelivered | src/rws_socketpriv.c:267-318 | and they are all of these texts once all of it has been sent and received and no whole frame waits |
| MessageIds.IdsCycle | src/rws_socketpriv.c:37-43 | call k returns ((k - 1) mod 10000000) + 1 |
| MessageIds.IdsDistinct | src/rws_socketpriv.c:37-43 | any 10000000 consecutive ids are different |
| MessageIds.IdTextFits | src/rws_socketpriv.c:45-56 | the text of every id has at most 8 digits, fits buffer and control frame, and reads back as the id |
| AsWritten.CombineExact | src/rws_frame.c:177-191 | as written, the merged frame reads as both payloads if and only if the first is empty |
| AsWritten.EveryMergeMisreads | src/rws_frame.c:183-190 | in every state of every run a merge as written leaves a frame that reads outside its block |
| AsWritten.AMergeHappens | src/rws_frame.c:183-190 | for every handshake answer, a run with an open fragment in the list and the next one at the transport, whose merge is misread |
| AsWritten.AsWrittenExact | src/rws_socketpriv.c:222-233 | over all sequences of frames and inform calls, receiving as written does what is documented if and only if no data frame arrives while a non-empty fragment is open |
| AsWritten.FragmentsMisread | src/rws_socketpriv.c:222-233 | the smallest text in two fragments is not received as documented |
| AsWritten.MergesWhen | src/rws_socketpriv.c:222-227 | a merge is made if and only if a non-empty unfinished fragment is waiting |
| AsWritten.DeleteLoopExact | src/rws_socketpriv.c:648-658 | as written, the loop ends if and only if the list is NULL |
| AsWritten.ReleaseMeetsQueue | src/rws_socketpub.c:71-75 | connect, send a text, release: a run that keeps the contract and meets the delete loop with a list on which it never ends |
| FrameCode.Frame.PutSize | src/rws_frame.c:119-142 | writes opcode and length octets of the header in one of three forms |
| FrameCode.Frame.CreateHeader | src/rws_frame.c:119-148 | the header buffer holds exactly the specified header, `header_size` is its length |
| FrameCode.Frame.FillWithSendData | src/rws_frame.c:150-175 | the new block holds exactly the encoded frame, payload masked in place |
| FrameCode.Frame.CombineDatas | src/rws_frame.c:177-191 | as documented: the frame gets both payloads |
| FrameCode.CheckRecvFrameSize | src/rws_frame.c:220-264 | computes the specified size verdict |
| FrameCode.CreateWithRecvData | src/rws_frame.c:32-117 | builds the specified frame or NULL, with its header size and mask, reading in bounds |
| FrameCode.MaskInPlace | src/rws_frame.c:166-172 | the masking loop changes exactly the payload part, octet i with mask octet i mod 4 |
| FrameCode.FillPayload | src/rws_frame.c:100-113 | the new payload block holds the unmasked or copied octets |
| ListCode.ListAppend | src/rws_list.c:47-56 | walks to the tail of the chain, links one node, chain stays acyclic with the value appended |
| ListCode.ListDelete | src/rws_list.c:31-38 | frees every node of the chain once, in order |
| ListCode.FrameList.Append | src/rws_socketpriv.c:609-629 | the list's contents become the old ones followed by the frame |
| ListCode.FrameList.LastUnfinishedFrame | src/rws_socketpriv.c:205-220 | finds the last unfinished frame of the list |
| ListCode.FrameList.ProcessData | src/rws_socketpriv.c:222-233 | merges, appends or drops as specified |
| ListCode.FrameList.MergeInto | src/rws_socketpriv.c:225-226 | only the waiting frame changes: payloads joined, FIN taken over |
| ListCode.FrameList.Inform | src/rws_socketpriv.c:58-90 | makes exactly the specified callbacks in order and leaves the specified list |
| SocketCode.Socket.constructor | src/rws_socketpub.c:115-136 | a new socket is the initial state of the specification |
| SocketCode.Socket.GetNextMessageId | src/rws_socketpriv.c:37-43 | returns the specified id and moves the counter as specified |
| SocketCode.Socket.Close | src/rws_socketpriv.c:597-607 | empties the buffer, closes, disconnects, changes nothing else |
| SocketCode.Socket.Send | src/rws_socketpriv.c:142-166 | passes the buffer on; a write error sets the error and closes |
| SocketCode.Socket.ResizeReceived | src/rws_socketpriv.c:578-595 | the block has the new size and keeps the common front |
| SocketCode.Socket.AppendChunk | src/rws_socketpriv.c:181-191 | the buffer grows by exactly the chunk, within its block |
| SocketCode.Socket.Recv | src/rws_socketpriv.c:168-203 | appends exactly the concatenated chunks, or fails and closes |
| SocketCode.Socket.AppendSendFrame | src/rws_socketpriv.c:620-629 | the queue and the accepted frames grow by this frame |
| SocketCode.Socket.SendPing | src/rws_socketpriv.c:45-56 | queues the masked ping carrying the next id |
| SocketCode.Socket.SendText | src/rws_socketpriv.c:631-646 | queues a masked text frame, refuses an empty text |
| SocketCode.Socket.ProcessReceivedFrame | src/rws_socketpriv.c:235-265 | pong for a ping, reassembly for data, disconnect for a close, nothing otherwise |
| SocketCode.Socket.ShiftBuffer | src/rws_socketpriv.c:285-291 | the octets behind a cut move to the front |
| SocketCode.Socket.CutOne | src/rws_socketpriv.c:278-292 | cuts and processes at most one frame as specified |
| SocketCode.Socket.IdleRecv | src/rws_socketpriv.c:267-293 | one receive tick as specified |
| SocketCode.Socket.SendQueued | src/rws_socketpriv.c:303-311 | the loop over the nodes is the specified send loop |
| SocketCode.Socket.IdleSend | src/rws_socketpriv.c:295-318 | one call drains the queue as specified |
| SocketCode.Socket.Inform | src/rws_socketpriv.c:58-90 | the inform call as specified |
| SocketCode.Socket.ConnectToHost | src/rws_socketpriv.c:450-502 | the two outcomes of connecting |
| SocketCode.Socket.SendHandshake | src/rws_socketpriv.c:384-394 | waits for the answer, or closes and gives up |
| SocketCode.Socket.WaitHandshake | src/rws_socketpriv.c:320-341 | stays, connects or gives up, as specified |
| SocketCode.Socket.SendDisconnect | src/rws_socketpriv.c:343-357 | passes a masked close frame with the next id and stores END |
| SocketCode.Socket.SendClose | src/rws_socketpriv.c:343-354 | a masked close frame with the next id is encoded and handed to the transport |
| SocketCode.Socket.IdleSection | src/rws_socketpriv.c:515-531 | ping, drain and receive, each only while connected |
| SocketCode.Socket.Section | src/rws_socketpriv.c:509-535 | the first switch as specified |
| SocketCode.Socket.SecondSwitch | src/rws_socketpriv.c:537-558 | command, trace and where the worker goes next are those of the step of the system |
| SocketCode.Socket.PrepareConnect | src/rws_socketpub.c:35-63 | a missing parameter sets an error and starts nothing; otherwise buffer and error are cleared and the command is NONE |
| SocketCode.Socket.StoreThread | src/rws_socketpriv.c:570 | the worker flag is set and nothing else |
| SocketCode.Socket.StoreCommand | src/rws_socketpriv.c:571-572 | the command becomes CONNECT_TO_HOST and nothing else changes |
| SocketCode.Socket.ClearThread | src/rws_socketpriv.c:563 | the worker flag is cleared and nothing else |
| SocketCode.Socket.DisconnectAndRelease | src/rws_socketpub.c:66-87 | clears the queue, stores DISCONNECT or END, and tells when the caller deletes |
| SocketCode.Socket.Delete | src/rws_socketpub.c:138-170 | frees buffer and lists |

## Left out

- Host lookup, `connect`, socket options, the errno table and Winsock: foreign calls; only their outcomes are modelled.
- The text of the handshake request and the scanning of the answer: libc parsing; the verdict is a parameter. It also assumes that the answer arrives in one read.
- Partial and blocked sends: `rws_socket_send` reports both as success; send theorems are about the buffers passed to it, and the end-to-end theorems assume the transport takes them whole.
- Which error object `on_disconnected` sees: sending the close frame clears it first.
- Interleavings inside a critical section of `work_mutex`, and between read and write in the second switch: both are single steps here.
- FrameCode.Frame.CombineDatas: follows the documentation, not the text; see `AsWritten`.
- ListCode.ListDelete: freed memory cannot be expressed; which nodes are freed, in which order and each once, is recorded in a ghost sequence.
- ListCode.FrameList.DeleteClean: frees the frames with the nodes, as `rws_socket_delete_all_frames_in_list` is meant to; see `AsWritten`.
- FrameCode.Frame.FillWithSendData: a NULL payload with a non-zero size is not modelled, because no caller passes one.
- SocketCode.Socket.DisconnectAndRelease: the work mutex, which the code leaves locked in its last branch, is not modelled; `SystemTheorems.ReleaseUnlocks` shows that no client who keeps the contract gets there.
- Thread wrappers and the thread joiner, memory, string and error helpers, URL and callback setters and getters, the Objective-C wrapper: thin or easy members.
- Sleeps and the 400-iteration ping timer: a ping may become due in any IDLE section.
