/**
  The socket as a value, and every operation of `src/rws_socketpriv.c` and
  `src/rws_socketpub.c` as a function on it.  What the environment decides is a
  parameter: masks, outcomes of the transport calls, the chunks that arrive, the
  verdict on the handshake answer.
*/
module SocketSpec {
  import opened Bytes
  import opened FrameSpec
  import opened Reassembly

  // commands, src/rws_socket.h
  const IDLE := -1
  const NONE := 0
  const CONNECT_TO_HOST := 1
  const SEND_HANDSHAKE := 2
  const WAIT_HANDSHAKE_RESPONSE := 3
  const INFORM_CONNECTED := 4
  const INFORM_DISCONNECTED := 5
  const DISCONNECT := 6
  const END := 9999

  /** Calls of the application's callbacks. */
  datatype Event = Connected | Received(message: Message) | Disconnected

  /** Buffers passed to `rws_socket_send`; the text of the handshake is not modelled. */
  datatype Sent = Handshake | Queued(frame: Bytes) | Closing(frame: Bytes)

  /** History: nothing here is read by the program. */
  datatype Log = Log(
    wire: seq<Sent>,         // every buffer passed to the transport
    accepted: seq<Bytes>,    // every frame put into the send queue
    received: Bytes,         // every octet received since the connection was made
    answer: nat,             // how many of them are the handshake answer
    dropped: nat,            // how many had come in when it was accepted
    stream: Bytes,           // those behind what was dropped then
    cut: seq<Bytes>,         // frames cut from that stream
    trace: seq<Event>,       // callbacks made
    upgraded: bool)          // a handshake answer has been accepted

  datatype Sock = Sock(
    command: int,
    open: bool,              // the descriptor is valid
    connected: bool,
    worker: bool,            // work_thread is not NULL
    nextId: nat,
    buf: Bytes,              // received[..received_len]
    sendQ: seq<Bytes>,
    recvQ: seq<Slot>,
    error: bool,             // an error object is set
    log: Log)

  const FRESH := Sock(NONE, false, false, false, 0, [], [], [], false, Log([], [], [], 0, 0, [], [], [], false))

  // ------------------------------------------------------- ids, queue, transport

  /** `rws_socket_get_next_message_id`, on the counter alone. */
  function NextId(counter: nat): (r: (nat, nat)) {
    var id := (counter + 1) % UINT_LIMIT;
    (id, if id > 9999999 then 0 else id)
  }

  /** What `%u` prints. */
  function Decimal(n: nat): Bytes {
    if n < 10 then [48 + n] else Decimal(n / 10) + [48 + n % 10]
  }

  lemma DecimalShort(n: nat)
    requires n <= 99999999
    ensures |Decimal(n)| <= 8
  {
    DecimalLength(n, 8, 100000000);
  }

  lemma {:induction false} DecimalLength(n: nat, k: nat, limit: nat)
    requires k >= 1 && n < limit && limit == Pow10(k)
    ensures |Decimal(n)| <= k
  {
    if n >= 10 {
      DecimalLength(n / 10, k - 1, limit / 10);
    }
  }

  function Pow10(k: nat): nat {
    if k == 0 then 1 else 10 * Pow10(k - 1)
  }

  function AppendSend(s: Sock, frame: Bytes): Sock {
    s.(sendQ := s.sendQ + [frame], log := s.log.(accepted := s.log.accepted + [frame]))
  }

  function SendPing(s: Sock, mask: Mask): Sock {
    var (id, counter) := NextId(s.nextId);
    AppendSend(s.(nextId := counter), Encode(PING, Some(mask), Decimal(id)))
  }

  /** `rws_socket_send_text_priv`; a NULL or empty text is refused. */
  function SendText(s: Sock, text: Bytes, mask: Mask): Sock {
    if text == [] then s else AppendSend(s, Encode(TEXT, Some(mask), text))
  }

  function Close(s: Sock): Sock {
    s.(buf := [], open := false, connected := false)
  }

  /** `rws_socket_send`: `ok` is false exactly when a write error is found. */
  function Send(s: Sock, what: Sent, ok: bool): Sock {
    var t := s.(error := !ok, log := s.log.(wire := s.log.wire + [what]));
    if ok then t else Close(t)
  }

  /** `rws_socket_recv`: chunks until the transport stops, which is a failure unless it would block. */
  function Recv(s: Sock, chunks: seq<Bytes>, wouldBlock: bool): Sock {
    var t := s.(error := !wouldBlock, buf := s.buf + Concat(chunks),
                log := s.log.(received := s.log.received + Concat(chunks), stream := s.log.stream + Concat(chunks)));
    if wouldBlock then t else Close(t)
  }

  // ------------------------------------------------------------- receiving

  /** `rws_socket_process_received_frame`. */
  function ProcessFrame(s: Sock, f: RecvFrame, mask: Mask): Sock {
    if f.opcode == PING then AppendSend(s, Encode(PONG, Some(mask), f.data))
    else if IsData(f) then s.(recvQ := AddData(s.recvQ, f))
    else if f.opcode == CLOSE then s.(command := INFORM_DISCONNECTED, error := true)
    else s
  }

  /** The frame a cut stands for: none when the builder refuses it. */
  function FrameOf(cut: Bytes): seq<RecvFrame> {
    if BuildInBounds(cut) && Build(cut).Some? then [Build(cut).value] else []
  }

  /** Cuts one frame, if a whole one has come in, and processes it. */
  function CutOne(s: Sock, mask: Mask): Sock {
    var n := CheckSize(s.buf);
    if n == 0 then s
    else
      var cut := s.buf[..n];
      var t := if FrameOf(cut) == [] then s else ProcessFrame(s, FrameOf(cut)[0], mask);
      t.(buf := s.buf[n..], log := t.log.(cut := s.log.cut + [cut]))
  }

  function IdleRecv(s: Sock, chunks: seq<Bytes>, wouldBlock: bool, mask: Mask): Sock {
    var t := Recv(s, chunks, wouldBlock);
    if wouldBlock then CutOne(t, mask) else t.(command := INFORM_DISCONNECTED)
  }

  /** `rws_socket_inform_recvd_frames`: every finished frame goes to its callback, in list order. */
  function Inform(s: Sock): Sock {
    s.(recvQ := AfterInform(s.recvQ), log := s.log.(trace := s.log.trace + AsEvents(Pending(s.recvQ))))
  }

  function AsEvents(ms: seq<Message>): seq<Event> {
    if ms == [] then [] else AsEvents(ms[..|ms| - 1]) + [Received(ms[|ms| - 1])]
  }

  // --------------------------------------------------------------- sending

  /** The loop of `rws_socket_idle_send`; send number `failAt` meets a write error. */
  function SendLoop(s: Sock, q: seq<Bytes>, failAt: nat): Sock
    decreases |q|
  {
    if q == [] || !s.connected then s
    else if failAt == 0 then Send(s, Queued(q[0]), false)
    else SendLoop(Send(s, Queued(q[0]), true), q[1..], failAt - 1)
  }

  function IdleSend(s: Sock, failAt: nat): Sock {
    if s.sendQ == [] then s
    else
      var t := SendLoop(s, s.sendQ, failAt).(sendQ := []);
      if t.error then t.(command := INFORM_DISCONNECTED) else t
  }

  // ---------------------------------------------------- opening and closing

  /** The verdict on the handshake answer; an accepted one takes up `answer` octets. */
  datatype Verdict = Accept(answer: nat) | RefuseWithError | RefuseSilently

  function ConnectToHost(s: Sock, reached: bool): Sock {
    if reached then
      s.(command := SEND_HANDSHAKE, error := false, open := true, buf := [])
    else
      s.(command := INFORM_DISCONNECTED, error := true)
  }

  function SendHandshake(s: Sock, ok: bool): Sock {
    var t := Send(s, Handshake, ok);
    if ok then t.(command := WAIT_HANDSHAKE_RESPONSE) else Close(t).(command := INFORM_DISCONNECTED)
  }

  /** On acceptance everything that has come in is dropped, wherever the answer ends. */
  function WaitHandshake(s: Sock, chunks: seq<Bytes>, wouldBlock: bool, verdict: Verdict): Sock {
    var t := Recv(s, chunks, wouldBlock);
    if !wouldBlock then t.(command := INFORM_DISCONNECTED)
    else if t.buf == [] then t
    else if verdict.Accept? then
      t.(error := false, buf := [], connected := true, command := INFORM_CONNECTED,
         log := t.log.(answer := verdict.answer, dropped := |t.log.received|, stream := [], upgraded := true))
    else Close(t).(error := verdict == RefuseWithError, command := INFORM_DISCONNECTED)
  }

  function SendDisconnect(s: Sock, ok: bool, mask: Mask): Sock {
    SendClose(s, ok, mask).(command := END)
  }

  /** `rws_socket_send_disconnect` up to and including the send. */
  function SendClose(s: Sock, ok: bool, mask: Mask): Sock {
    var (id, counter) := NextId(s.nextId);
    Send(s.(nextId := counter), Closing(Encode(CLOSE, Some(mask), Decimal(id))), ok)
  }

  // --------------------------------------------------------- the worker's loop

  /** What the environment decides during one critical section. */
  datatype Env = Env(
    ok: bool,                // the host is reached, the single send succeeds
    chunks: seq<Bytes>, wouldBlock: bool, verdict: Verdict,
    pingDue: bool, failAt: nat, mask: Mask, pongMask: Mask)

  function IdleSection(s: Sock, e: Env): Sock {
    var s1 := if e.pingDue && s.connected then SendPing(s, e.mask) else s;
    var s2 := if s1.connected then IdleSend(s1, e.failAt) else s1;
    if s2.connected then IdleRecv(s2, e.chunks, e.wouldBlock, e.pongMask) else s2
  }

  /** The first switch of `rws_socket_work_th_func`, under the work mutex. */
  function Section(s: Sock, e: Env): Sock {
    if s.command == CONNECT_TO_HOST then ConnectToHost(s, e.ok)
    else if s.command == SEND_HANDSHAKE then SendHandshake(s, e.ok)
    else if s.command == WAIT_HANDSHAKE_RESPONSE then WaitHandshake(s, e.chunks, e.wouldBlock, e.verdict)
    else if s.command == DISCONNECT then SendDisconnect(s, e.ok, e.mask)
    else if s.command == IDLE then IdleSection(s, e)
    else s
  }

  function Announce(s: Sock, event: Event): Sock {
    s.(log := s.log.(trace := s.log.trace + [event]))
  }

  // ------------------------------------------------------------ public calls

  /** `rws_socket_disconnect_and_release`, except for the deletion itself. */
  function Release(s: Sock): Sock {
    var t := s.(sendQ := []);
    if s.connected then t.(command := DISCONNECT)
    else if s.worker then t.(command := END)
    else t
  }

  predicate ReleaseDeletes(s: Sock) {
    !s.connected && !s.worker && s.command != END
  }

  /** `rws_socket_delete`. */
  function Delete(s: Sock): Sock {
    Close(s).(sendQ := [], recvQ := [], error := false)
  }
}
