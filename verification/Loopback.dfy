/**
  End to end: texts queued at one socket, drained by its send loop, re-cut into any
  chunks and fed to the ticks of another socket arrive as the same texts, once each
  and in order.
*/
module Loopback {
  import opened Bytes
  import opened FrameSpec
  import opened FrameProofs
  import opened Stream
  import opened Reassembly
  import opened SocketSpec
  import opened SocketProofs
  import opened System
  import opened SystemInvariant
  import opened SystemSteps
  import opened SystemTheorems
  import opened ReceiveTheorems

  // ------------------------------------------------------------- the sender

  /** What fills and drains a send queue, before the connection and after; no send fails. */
  datatype SendOp = Say(text: Bytes, mask: Mask) | Ping(mask: Mask) | Flush

  function Send1(s: Sock, op: SendOp): Sock {
    match op
    case Say(text, mask) => SendText(s, text, mask)
    case Ping(mask) => SendPing(s, mask)
    case Flush => if s.connected then IdleSend(s, |s.sendQ|) else s
  }

  function SendAll(s: Sock, ops: seq<SendOp>): Sock {
    if ops == [] then s else Send1(SendAll(s, ops[..|ops| - 1]), ops[|ops| - 1])
  }

  /** Texts short enough for the 32-bit frame size. */
  predicate Fits(op: SendOp) {
    op.Say? ==> |op.text| + 14 < UINT_LIMIT
  }

  /** The messages a peer should see: every non-empty text. */
  function Said(ops: seq<SendOp>): seq<Message> {
    if ops == [] then []
    else
      var op := ops[|ops| - 1];
      Said(ops[..|ops| - 1]) + (if op.Say? && op.text != [] then [TextMessage(op.text)] else [])
  }

  /** The accepted frames, sent or still queued, are whole text and ping frames, and say what was said. */
  ghost predicate Speaks(s: Sock, ops: seq<SendOp>) {
    && DataInv(s) && NothingDropped(s) && s.nextId <= 9999999
    && (forall i :: 0 <= i < |s.log.accepted| ==> Whole(s.log.accepted[i]))
    && Messages(Frames(s.log.accepted)) == Said(ops) && OpenFragment(Frames(s.log.accepted)) == []
    && (forall i :: 0 <= i < |Frames(s.log.accepted)| ==>
          Frames(s.log.accepted)[i].opcode == TEXT || Frames(s.log.accepted)[i].opcode == PING)
  }

  /** One more encoded frame: whole, and one more frame in the reading of the history. */
  lemma OneMoreFrame(accepted: seq<Bytes>, opcode: Opcode, mask: Mask, payload: Bytes)
    requires !SkipsPayload(opcode) && |payload| + 14 < UINT_LIMIT
    ensures var e := Encode(opcode, Some(mask), payload);
      Whole(e) && Frames(accepted + [e]) == Frames(accepted) + [RecvFrame(opcode, true, payload)]
  {
    var e := Encode(opcode, Some(mask), payload);
    EncodeRoundTrip(opcode, Some(mask), payload, []);
    FirstOctet(opcode, Some(mask), payload);
    assert e + [] == e;
    FramesSnoc(accepted, e);
  }

  lemma SaidSnoc(ops: seq<SendOp>, op: SendOp)
    ensures Said(ops + [op]) == Said(ops) + (if op.Say? && op.text != [] then [TextMessage(op.text)] else [])
  {
    Front(ops, op);
  }

  lemma SayKeeps(s: Sock, ops: seq<SendOp>, text: Bytes, mask: Mask)
    requires Speaks(s, ops) && |text| + 14 < UINT_LIMIT && text != []
    ensures Speaks(SendText(s, text, mask), ops + [Say(text, mask)])
  {
    hide DataInv, QueuedIn, Frames, Encode, Said, Messages, OpenFragment, Whole;
    SendTextKeeps(s, text, mask);
    OneMoreFrame(s.log.accepted, TEXT, mask, text);
    MessagesSnoc(Frames(s.log.accepted), RecvFrame(TEXT, true, text));
    VisibleExact(text);
    SaidSnoc(ops, Say(text, mask));
  }

  lemma PingKeeps(s: Sock, ops: seq<SendOp>, mask: Mask)
    requires Speaks(s, ops)
    ensures Speaks(SendPing(s, mask), ops + [Ping(mask)])
  {
    hide DataInv, QueuedIn, Frames, Encode, Said, Messages, OpenFragment, Whole, Decimal;
    var (id, counter) := NextId(s.nextId);
    DecimalShort(id);
    SendPingKeeps(s, mask);
    OneMoreFrame(s.log.accepted, PING, mask, Decimal(id));
    NonDataFrame(Frames(s.log.accepted), RecvFrame(PING, true, Decimal(id)));
    SaidSnoc(ops, Ping(mask));
    assert Said(ops) + [] == Said(ops);
  }

  lemma SkipKeeps(s: Sock, t: Sock, ops: seq<SendOp>, op: SendOp)
    requires Speaks(s, ops) && (op.Flush? || (op.Say? && op.text == []))
    requires DataInv(t) && NothingDropped(t) && t.log.accepted == s.log.accepted && t.nextId == s.nextId
    ensures Speaks(t, ops + [op])
  {
    hide DataInv, QueuedIn, Frames, Said, Messages, OpenFragment, Whole;
    SaidSnoc(ops, op);
    assert Said(ops) + [] == Said(ops);
  }

  lemma FlushKeeps(s: Sock, ops: seq<SendOp>)
    requires Speaks(s, ops) && s.connected
    ensures var t := IdleSend(s, |s.sendQ|);
      Speaks(t, ops + [Flush]) && t.sendQ == [] && QueuedIn(t.log.wire) == t.log.accepted && t.connected
  {
    hide DataInv, QueuedIn, Frames, Said, Messages, OpenFragment, Whole, SendLoop;
    IdleSendKeeps(s, |s.sendQ|);
    var t := IdleSend(s, |s.sendQ|);
    if s.sendQ != [] {
      SendLoopOutcome(s, s.sendQ, |s.sendQ|);
    }
    SkipKeeps(s, t, ops, Flush);
    assert QueuedIn(t.log.wire) + [] == QueuedIn(t.log.wire);
  }

  lemma Send1Is(s: Sock, op: SendOp)
    ensures Send1(s, op) ==
      match op
      case Say(text, mask) => if text == [] then s else SendText(s, text, mask)
      case Ping(mask) => SendPing(s, mask)
      case Flush => if s.connected then IdleSend(s, |s.sendQ|) else s
    ensures op.Say? ==> SendText(s, op.text, op.mask).connected == s.connected
    ensures op.Ping? ==> SendPing(s, op.mask).connected == s.connected
  {
    hide IdleSend, Encode, Decimal, NextId;
  }

  lemma Send1Keeps(s: Sock, ops: seq<SendOp>, op: SendOp)
    requires Speaks(s, ops) && Fits(op)
    ensures Speaks(Send1(s, op), ops + [op]) && Send1(s, op).connected == s.connected
  {
    Send1Is(s, op);
    hide Speaks, IdleSend, SendPing, SendText, Send1;
    match op {
      case Say(text, mask) =>
        if text == [] {
          SpeaksParts(s, ops);
          SkipKeeps(s, s, ops, op);
        } else {
          SayKeeps(s, ops, text, mask);
        }
      case Ping(mask) => PingKeeps(s, ops, mask);
      case Flush =>
        if s.connected {
          FlushKeeps(s, ops);
        } else {
          SpeaksParts(s, ops);
          SkipKeeps(s, s, ops, op);
        }
    }
  }

  /** What was said before, and what is said now. */
  lemma {:induction false} SendAllSpeaks(s: Sock, said: seq<SendOp>, ops: seq<SendOp>)
    requires Speaks(s, said) && forall op :: op in ops ==> Fits(op)
    ensures Speaks(SendAll(s, ops), said + ops) && SendAll(s, ops).connected == s.connected
    decreases |ops|
  {
    hide *;
    if ops == [] {
      SendAllNone(s);
      assert said + ops == said;
    } else {
      var front, op := ops[..|ops| - 1], ops[|ops| - 1];
      SendAllSpeaks(s, said, front);
      SendAllLast(s, ops);
      Send1Keeps(SendAll(s, front), said + front, op);
      assert said + ops == (said + front) + [op];
    }
  }

  lemma SendAllNone(s: Sock)
    ensures SendAll(s, []) == s
  {
  }

  lemma SpeaksParts(s: Sock, ops: seq<SendOp>)
    requires Speaks(s, ops)
    ensures DataInv(s) && NothingDropped(s)
  {
  }

  lemma SendAllLast(s: Sock, ops: seq<SendOp>)
    requires ops != []
    ensures SendAll(s, ops) == Send1(SendAll(s, ops[..|ops| - 1]), ops[|ops| - 1])
  {
  }

  lemma NothingSaid()
    ensures Said([]) == [] && Frames([]) == [] && Messages([]) == [] && OpenFragment([]) == []
  {
    NothingYet();
  }

  /** The opening of a connection, from the first command to IDLE. */
  function Connect(s: Sock, answer: Bytes, n: nat): Sock {
    var s1 := ConnectToHost(s.(command := CONNECT_TO_HOST, worker := true), true);
    var s2 := SendHandshake(s1, true);
    var s3 := WaitHandshake(s2, [answer], true, Accept(n));
    Announce(s3.(command := IDLE), Connected)
  }

  /** Filling the queue of a fresh socket touches nothing else. */
  lemma {:induction false} FreshSendAll(ops: seq<SendOp>)
    ensures var t := SendAll(FRESH, ops);
      t == FRESH.(sendQ := t.sendQ, nextId := t.nextId, log := FRESH.log.(accepted := t.log.accepted))
  {
    if ops != [] {
      FreshSendAll(ops[..|ops| - 1]);
      hide Encode, Decimal, NextId;
    }
  }

  lemma FreshSpeaks()
    ensures Speaks(FRESH, [])
  {
    NothingSaid();
  }

  lemma ConnectSpeaks(s: Sock, said: seq<SendOp>, answer: Bytes, n: nat)
    requires Speaks(s, said) && answer != []
    requires s == FRESH.(sendQ := s.sendQ, nextId := s.nextId, log := FRESH.log.(accepted := s.log.accepted))
    ensures var t := Connect(s, answer, n);
      Speaks(t, said) && t.connected && Live(t) && t.log.stream == [] && t.log.trace == [Connected]
  {
    var s0 := s.(command := CONNECT_TO_HOST, worker := true);
    var s1 := ConnectToHost(s0, true);
    var s2 := SendHandshake(s1, true);
    var s3 := WaitHandshake(s2, [answer], true, Accept(n));
    PristinePhases();
    hide StreamInv, ReceiveInv, PongInv, SendInv, QueuedIn, Frames, Said, Messages, OpenFragment, Whole, Phase, Wire;
    ConnectKeeps(s0, true);
    HandshakeKeeps(s1, true);
    WaitKeeps(s2, [answer], true, Accept(n));
    AnnounceKeeps(s3.(command := IDLE), Connected);
    assert Pending([]) == [];
    assert Concat([answer]) == answer + Concat([]) == answer;
  }

  lemma ListeningIs(k: Sock)
    requires Live(k) && k.log.stream == [] && k.log.trace == [Connected]
    ensures Listening(k)
  {
    NothingYet();
    DeliveredSnoc([], Connected);
    assert [] + [Connected] == [Connected];
    hide Live, DeliveredIn;
  }

  /**
    Texts may be queued before the connection: a fresh sender of the main theorem has
    them in its queue, and can be the receiver just as well.
  */
  lemma QueuedBeforeConnecting(before: seq<SendOp>, answer: Bytes, n: nat)
    requires (forall op :: op in before ==> Fits(op)) && answer != []
    ensures var t := Connect(SendAll(FRESH, before), answer, n);
      Speaks(t, before) && t.connected && Listening(t)
  {
    hide *;
    FreshSpeaks();
    SendAllSpeaks(FRESH, [], before);
    FreshSendAll(before);
    assert [] + before == before;
    ConnectSpeaks(SendAll(FRESH, before), before, answer, n);
    ListeningIs(Connect(SendAll(FRESH, before), answer, n));
  }

  // ------------------------------------------------------------ the receiver

  /**
    What one tick meets: the octets at the transport before it would block, and whether
    a ping of its own is due.  No send fails; `spare` is how far off a failure is.
  */
  datatype Arrival = Arrival(chunks: seq<Bytes>, pingDue: bool, spare: nat, mask: Mask, pongMask: Mask)

  function TickEnv(k: Sock, a: Arrival): Env {
    Env(true, a.chunks, true, RefuseSilently, a.pingDue, |k.sendQ| + 1 + a.spare, a.mask, a.pongMask)
  }

  /** One iteration of the worker in IDLE, with all it may do there. */
  function Tick(k: Sock, a: Arrival): Sock {
    var t := IdleSection(k, TickEnv(k, a));
    if t.command == IDLE then Inform(t) else t
  }

  /** Its first half: ping and queue. */
  function Sends(k: Sock, a: Arrival): Sock {
    IdleSend(if a.pingDue then SendPing(k, a.mask) else k, |k.sendQ| + 1 + a.spare)
  }

  lemma TickIs(k: Sock, a: Arrival)
    requires k.connected
    ensures var t := CutOne(Recv(Sends(k, a), a.chunks, true), a.pongMask);
      Sends(k, a).connected && Tick(k, a) == if t.command == IDLE then Inform(t) else t
  {
    IdleSectionIs(k, TickEnv(k, a));
    SendsFrame(k, a);
    hide CutOne, Recv, Inform, IdleSend, SendPing, IdleSection;
  }

  /** No send failing, that half leaves everything of the receiving side alone. */
  lemma SendsFrame(k: Sock, a: Arrival)
    requires k.connected
    ensures var t := Sends(k, a);
      && t.connected && t.open == k.open && t.command == k.command && t.buf == k.buf && t.recvQ == k.recvQ
      && t.log.stream == k.log.stream && t.log.cut == k.log.cut && t.log.trace == k.log.trace
  {
    var s := if a.pingDue then SendPing(k, a.mask) else k;
    PingQueue(k, a.mask);
    hide SendPing, SendLoop;
    if s.sendQ != [] {
      SendLoopOutcome(s, s.sendQ, |k.sendQ| + 1 + a.spare);
    }
  }

  lemma PingQueue(k: Sock, mask: Mask)
    ensures var t := SendPing(k, mask);
      |t.sendQ| == |k.sendQ| + 1 && t == k.(nextId := t.nextId, sendQ := t.sendQ, log := k.log.(accepted := t.log.accepted))
  {
    hide Encode, Decimal, NextId;
  }

  lemma SendsKeep(k: Sock, a: Arrival)
    requires DataInv(k) && NothingDropped(k) && k.connected
    ensures DataInv(Sends(k, a)) && NothingDropped(Sends(k, a))
  {
    hide *;
    var s := if a.pingDue then SendPing(k, a.mask) else k;
    SendPingKeeps(k, a.mask);
    PingQueue(k, a.mask);
    IdleSendKeeps(s, |k.sendQ| + 1 + a.spare);
    SendsIs(k, a);
  }

  lemma SendsIs(k: Sock, a: Arrival)
    ensures Sends(k, a) == IdleSend(if a.pingDue then SendPing(k, a.mask) else k, |k.sendQ| + 1 + a.spare)
  {
    hide IdleSend, SendPing;
  }

  function Ticks(k: Sock, arrivals: seq<Arrival>): Sock {
    if arrivals == [] then k else Tick(Ticks(k, arrivals[..|arrivals| - 1]), arrivals[|arrivals| - 1])
  }

  function Arrived(arrivals: seq<Arrival>): Bytes {
    if arrivals == [] then []
    else Arrived(arrivals[..|arrivals| - 1]) + Concat(arrivals[|arrivals| - 1].chunks)
  }

  ghost predicate Live(k: Sock) {
    k.connected && k.open && k.command == IDLE && DataInv(k) && NothingDropped(k) && Pending(k.recvQ) == []
  }

  /** The stream holds no close frame. */
  ghost predicate Peaceful(stream: Bytes) {
    forall f :: f in Frames(Parse(stream)) ==> f.opcode != CLOSE
  }

  /** Whole frames waiting in the buffer. */
  function Waiting(k: Sock): nat {
    |Parse(k.buf)|
  }

  /** A tick that finds a whole frame strictly shrinks the buffer; one that finds none leaves it. */
  lemma TickProgress(k: Sock, a: Arrival)
    requires k.open && k.connected && a.chunks == []
    ensures var t := Tick(k, a);
      && (CheckSize(k.buf) > 0 ==> |t.buf| < |k.buf|)
      && (CheckSize(k.buf) == 0 ==> t.buf == k.buf && t.log.cut == k.log.cut)
  {
    TickIs(k, a);
    SendsFrame(k, a);
    assert k.buf + Concat([]) == k.buf;
    hide FrameOf, ProcessFrame, Pending, AfterInform, AsEvents, Tick, Sends;
  }

  lemma CutOneCuts(k: Sock, mask: Mask)
    ensures var t := CutOne(k, mask);
      && t.log.stream == k.log.stream
      && (CheckSize(k.buf) == 0 ==> t == k)
      && (CheckSize(k.buf) > 0 ==>
            t.log.cut == k.log.cut + [k.buf[..CheckSize(k.buf)]] && t.buf == k.buf[CheckSize(k.buf)..])
      && (CheckSize(k.buf) > 0 && (forall f :: f in FrameOf(k.buf[..CheckSize(k.buf)]) ==> f.opcode != CLOSE) ==>
            t.command == k.command)
  {
    hide CheckSize, FrameOf, AddData, Encode;
  }

  lemma FrameOfLast(cuts: seq<Bytes>, cut: Bytes)
    ensures forall f :: f in FrameOf(cut) ==> f in Frames(cuts + [cut])
  {
    FramesSnoc(cuts, cut);
  }

  /** One tick on a live socket, as long as no close frame comes. */
  lemma TickKeeps(k: Sock, a: Arrival)
    requires Live(k) && Peaceful(k.log.stream + Concat(a.chunks))
    ensures var t := Tick(k, a);
      && Live(t) && t.log.stream == k.log.stream + Concat(a.chunks)
      && (a.chunks == [] ==> Waiting(t) <= if Waiting(k) == 0 then 0 else Waiting(k) - 1)
  {
    hide *;
    LiveParts(k);
    SendsFrame(k, a);
    SendsKeep(k, a);
    var s := Sends(k, a);
    var r := Recv(s, a.chunks, true);
    RecvKeeps(s, a.chunks, true);
    RecvParts(s, a.chunks);
    var t := CutOne(r, a.pongMask);
    ReceivedKeeps(r, a.pongMask);
    InformKeeps(t);
    TickIs(k, a);
    InformFrame(t);
    LiveIs(Inform(t));
    WaitingIs(k);
    WaitingIs(Inform(t));
    if a.chunks == [] {
      ConcatNothing();
      assert k.buf + [] == k.buf;
    }
  }

  /** Cutting and processing one frame that is no close frame. */
  lemma ReceivedKeeps(r: Sock, mask: Mask)
    requires DataInv(r) && NothingDropped(r) && r.open && Peaceful(r.log.stream)
    ensures var t := CutOne(r, mask);
      && DataInv(t) && NothingDropped(t) && t.open && t.connected == r.connected && t.command == r.command
      && t.log.stream == r.log.stream
      && |Parse(t.buf)| == if |Parse(r.buf)| == 0 then 0 else |Parse(r.buf)| - 1
  {
    hide *;
    CutOneKeeps(r, mask);
    CutOneCuts(r, mask);
    var t := CutOne(r, mask);
    if CheckSize(r.buf) > 0 {
      var n := CheckSize(r.buf);
      ParseStep(r.buf);
      CutIsInStream(t);
      FrameOfLast(r.log.cut, r.buf[..n]);
      PeacefulCut(t.log.cut, t.log.stream);
      assert t.command == r.command;
    } else {
      ParseStop(r.buf);
    }
  }

  lemma LiveParts(k: Sock)
    requires Live(k)
    ensures k.connected && k.open && k.command == IDLE && DataInv(k) && NothingDropped(k)
  {
    hide DataInv, NothingDropped;
  }

  lemma LiveIs(k: Sock)
    requires k.connected && k.open && k.command == IDLE && DataInv(k) && NothingDropped(k) && Pending(k.recvQ) == []
    ensures Live(k)
  {
    hide DataInv, NothingDropped;
  }

  lemma RecvParts(k: Sock, chunks: seq<Bytes>)
    ensures var r := Recv(k, chunks, true);
      && r.buf == k.buf + Concat(chunks) && r.log.stream == k.log.stream + Concat(chunks)
      && r.log.cut == k.log.cut && r.command == k.command && r.connected == k.connected && r.open == k.open
      && (NothingDropped(k) ==> NothingDropped(r))
  {
    hide Concat, QueuedIn;
  }

  lemma CutIsInStream(t: Sock)
    requires DataInv(t)
    ensures t.log.cut <= Parse(t.log.stream)
  {
    hide Greedy, Concat, Parse, ReceiveInv, PongInv, SendInv, Frames;
    var rest := GreedyIsParse(t.log.cut, t.log.stream);
  }

  lemma PeacefulCut(cut: seq<Bytes>, stream: Bytes)
    requires cut <= Parse(stream) && Peaceful(stream)
    ensures forall f :: f in Frames(cut) ==> f.opcode != CLOSE
  {
    hide Parse, Frames;
    var all := Parse(stream);
    PrefixSplit(cut, all);
    FramesMonotone(cut, all[|cut|..]);
  }

  lemma ParseStop(buf: Bytes)
    requires CheckSize(buf) == 0
    ensures Parse(buf) == []
  {
  }

  lemma InformFrame(t: Sock)
    ensures var u := Inform(t);
      && u.connected == t.connected && u.open == t.open && u.command == t.command && u.buf == t.buf
      && u.log.stream == t.log.stream && u.log.cut == t.log.cut && u.log.accepted == t.log.accepted
  {
    hide Pending, AfterInform, AsEvents;
  }

  lemma WaitingIs(k: Sock)
    ensures Waiting(k) == |Parse(k.buf)|
  {
    hide Parse;
  }

  lemma ConcatNothing()
    ensures Concat([]) == []
  {
  }

  lemma PeacefulPrefix(stream: Bytes, more: Bytes)
    requires Peaceful(stream + more)
    ensures Peaceful(stream)
  {
    ParseMonotone(stream, more);
    PeacefulCut(Parse(stream), stream + more);
    hide Parse, Frames;
  }

  lemma TicksLast(k: Sock, arrivals: seq<Arrival>)
    requires arrivals != []
    ensures var front, a := arrivals[..|arrivals| - 1], arrivals[|arrivals| - 1];
      && Ticks(k, arrivals) == Tick(Ticks(k, front), a)
      && Arrived(arrivals) == Arrived(front) + Concat(a.chunks)
  {
    hide Tick, Concat;
  }

  lemma NoTicks(k: Sock)
    ensures Ticks(k, []) == k && Arrived([]) == []
  {
  }

  /** Any number of ticks, the stream cut into chunks in any way. */
  lemma {:induction false} TicksKeep(k: Sock, arrivals: seq<Arrival>, rest: Bytes)
    requires Live(k) && Peaceful(k.log.stream + Arrived(arrivals) + rest)
    ensures var t := Ticks(k, arrivals);
      Live(t) && t.log.stream == k.log.stream + Arrived(arrivals)
    decreases |arrivals|
  {
    hide *;
    if arrivals == [] {
      NoTicks(k);
      assert k.log.stream + [] == k.log.stream;
    } else {
      var front, a := arrivals[..|arrivals| - 1], arrivals[|arrivals| - 1];
      TicksLast(k, arrivals);
      var more := Concat(a.chunks);
      var before := k.log.stream + Arrived(front);
      assert k.log.stream + Arrived(arrivals) == before + more;
      assert before + (more + rest) == (before + more) + rest;
      TicksKeep(k, front, more + rest);
      PeacefulPrefix(before + more, rest);
      TickKeeps(Ticks(k, front), a);
    }
  }

  predicate Quiet(arrivals: seq<Arrival>) {
    forall i :: 0 <= i < |arrivals| ==> arrivals[i].chunks == []
  }

  /** Ticks without new octets work off the waiting frames one by one. */
  lemma {:induction false} QuietTicksDrain(k: Sock, quiet: seq<Arrival>)
    requires Live(k) && Peaceful(k.log.stream) && Quiet(quiet)
    ensures var t := Ticks(k, quiet);
      && Live(t) && t.log.stream == k.log.stream
      && Waiting(t) <= if Waiting(k) <= |quiet| then 0 else Waiting(k) - |quiet|
    decreases |quiet|
  {
    hide *;
    if quiet == [] {
      NoTicks(k);
    } else {
      var front, a := quiet[..|quiet| - 1], quiet[|quiet| - 1];
      TicksLast(k, quiet);
      QuietParts(quiet);
      QuietTicksDrain(k, front);
      ConcatNothing();
      assert k.log.stream + [] == k.log.stream;
      TickKeeps(Ticks(k, front), a);
    }
  }

  lemma QuietParts(quiet: seq<Arrival>)
    requires Quiet(quiet) && quiet != []
    ensures Quiet(quiet[..|quiet| - 1]) && quiet[|quiet| - 1].chunks == []
  {
  }

  lemma {:induction false} TicksCompose(k: Sock, a: seq<Arrival>, b: seq<Arrival>)
    ensures Ticks(k, a + b) == Ticks(Ticks(k, a), b)
    decreases |b|
  {
    if b == [] {
      assert a + b == a;
    } else {
      var n := |b| - 1;
      assert (a + b)[..|a + b| - 1] == a + b[..n] && (a + b)[|a + b| - 1] == b[n];
      TicksCompose(k, a, b[..n]);
      hide Tick;
    }
  }

  /** With no whole frame waiting, exactly the messages of the stream have been delivered. */
  lemma DrainedDelivers(k: Sock)
    requires Live(k) && Waiting(k) == 0
    ensures DeliveredIn(k.log.trace) == Messages(Frames(Parse(k.log.stream)))
  {
    DrainedCut(k);
    hide Parse, Frames, Messages, Greedy, Concat, PongInv, SendInv, OpenFragment, DeliveredIn, Pending, ListInv, OpenSlot, Waiting;
    assert DeliveredIn(k.log.trace) + [] == DeliveredIn(k.log.trace);
  }

  lemma DrainedCut(k: Sock)
    requires Live(k) && Waiting(k) == 0
    ensures k.log.cut == Parse(k.log.stream)
  {
    AllCut(k.log.cut, k.buf, k.log.stream);
    hide Frames, Messages, Greedy, Concat, PongInv, SendInv, ReceiveInv, Pending, CheckSize;
  }

  /** A receiver just connected. */
  ghost predicate Listening(k: Sock) {
    Live(k) && k.log.stream == [] && DeliveredIn(k.log.trace) == []
  }

  lemma WireParses(s: Sock, ops: seq<SendOp>)
    requires Speaks(s, ops)
    ensures Parse(Concat(s.log.accepted)) == s.log.accepted
    ensures Peaceful(Concat(s.log.accepted))
  {
    hide DataInv, QueuedIn, Frames, Said, Messages, OpenFragment, Whole, Parse, Concat;
    var f := s.log.accepted;
    ParseConcat(f, []);
    ParseNothing();
    assert Concat(f) + [] == Concat(f) && f + [] == f;
  }

  /**
    Main end-to-end theorem.  A connected sender that has said `said`, sent or still
    queued, says more texts, with pings between them and the queue drained at any
    moments; the octets are re-cut into any chunks over any ticks, then come as many
    ticks without octets as frames were sent.  In all of them the peer may ping and
    send what it has queued.  Then its text callback has fired with exactly the
    non-empty texts, once each and in order, and its send queue has been given one
    pong for each ping.
  */
  lemma LoopbackDelivers(s: Sock, said: seq<SendOp>, ops: seq<SendOp>, k: Sock, arrivals: seq<Arrival>, quiet: seq<Arrival>)
    requires Speaks(s, said) && s.connected && (forall op :: op in ops ==> Fits(op)) && Listening(k)
    requires var t := SendAll(s, ops + [Flush]);
      Arrived(arrivals) == Concat(QueuedIn(t.log.wire)) && Quiet(quiet) && |quiet| >= |QueuedIn(t.log.wire)|
    ensures DeliveredIn(Ticks(k, arrivals + quiet).log.trace) == Said(said + ops)
    ensures PongInv(Ticks(k, arrivals + quiet).log.accepted, Frames(SendAll(s, ops + [Flush]).log.accepted))
  {
    var t := SendAll(s, ops + [Flush]);
    FlushedSpeaks(s, said, ops);
    WireParses(t, said + ops + [Flush]);
    var end := Ticks(k, arrivals + quiet);
    ReceivesAll(k, arrivals, quiet, t.log.accepted);
    DrainedDelivers(end);
    DrainedCut(end);
    LivePongs(end);
    SaidSnoc(said + ops, Flush);
    assert Said(said + ops) + [] == Said(said + ops);
    SpeaksSays(t, said + ops + [Flush]);
    hide *;
  }

  lemma LivePongs(k: Sock)
    requires Live(k)
    ensures PongInv(k.log.accepted, Frames(k.log.cut))
  {
    hide PongInv, Frames;
  }

  /** In every run, a live socket between ticks that has received nothing since its handshake is listening. */
  lemma JustConnected(actions: seq<Action>)
    requires Run(actions) && After(actions).pc == LoopTest && After(actions).sock.command == IDLE
    requires After(actions).sock.log.stream == []
    ensures Listening(After(actions).sock)
  {
    var s := After(actions);
    SettledBetweenTicks(actions);
    FieldsMean(actions);
    DeliveredFromStream(actions);
    NothingSent();
    ReachableInv(actions);
    hide Run, After, Inv, ControlInv, Live, StreamMessages, DeliveredIn, Settled;
    ControlOf(s);
    StillThere(s);
    DataOf(s);
    SettledPends(s.sock.recvQ);
    LiveIs(s.sock);
  }

  lemma SpeaksSays(s: Sock, ops: seq<SendOp>)
    requires Speaks(s, ops)
    ensures Messages(Frames(s.log.accepted)) == Said(ops)
  {
  }

  lemma FlushedSpeaks(s: Sock, said: seq<SendOp>, ops: seq<SendOp>)
    requires Speaks(s, said) && s.connected && forall op :: op in ops ==> Fits(op)
    ensures var t := SendAll(s, ops + [Flush]);
      Speaks(t, said + ops + [Flush]) && QueuedIn(t.log.wire) == t.log.accepted
  {
    hide *;
    SendAllSpeaks(s, said, ops);
    SendAllLast(s, ops + [Flush]);
    assert (ops + [Flush])[..|ops|] == ops;
    FlushKeeps(SendAll(s, ops), said + ops);
    FlushIs(SendAll(s, ops));
  }

  lemma FlushIs(s: Sock)
    ensures s.connected ==> Send1(s, Flush) == IdleSend(s, |s.sendQ|)
  {
    hide IdleSend;
  }

  /** A listening socket that is sent whole frames without a close frame cuts exactly these. */
  lemma ReceivesAll(k: Sock, arrivals: seq<Arrival>, quiet: seq<Arrival>, frames: seq<Bytes>)
    requires Listening(k) && Arrived(arrivals) == Concat(frames) && Quiet(quiet) && |quiet| >= |frames|
    requires Parse(Concat(frames)) == frames && Peaceful(Concat(frames))
    ensures var t := Ticks(k, arrivals + quiet);
      Live(t) && Waiting(t) == 0 && t.log.stream == Concat(frames)
  {
    hide *;
    var wire := Concat(frames);
    ListeningParts(k);
    assert [] + wire + [] == wire && [] + wire == wire;
    TicksKeep(k, arrivals, []);
    var mid := Ticks(k, arrivals);
    AtMostAll(mid);
    QuietTicksDrain(mid, quiet);
    TicksCompose(k, arrivals, quiet);
  }

  lemma ListeningParts(k: Sock)
    requires Listening(k)
    ensures Live(k) && k.log.stream == []
  {
  }

  lemma AtMostAll(k: Sock)
    requires Live(k)
    ensures Waiting(k) <= |Parse(k.log.stream)|
  {
    hide Parse, Frames, Messages, Greedy, Concat, PongInv, SendInv, ReceiveInv, Pending;
    var rest := GreedyIsParse(k.log.cut, k.log.stream);
    var c := Concat(k.log.cut);
    assert rest == (c + rest)[|c|..] == (c + k.buf)[|c|..] == k.buf;
  }
}
