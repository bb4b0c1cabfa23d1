/** What every single operation on the socket keeps. */
module SocketProofs {
  import opened Bytes
  import opened FrameSpec
  import opened FrameProofs
  import opened Stream
  import opened Reassembly
  import opened SocketSpec

  // ------------------------------------------------------ reading the history

  /** The frames the cuts were built into. */
  function Frames(cuts: seq<Bytes>): seq<RecvFrame> {
    if cuts == [] then [] else Frames(cuts[..|cuts| - 1]) + FrameOf(cuts[|cuts| - 1])
  }

  function DeliveredIn(trace: seq<Event>): seq<Message> {
    if trace == [] then []
    else
      var e := trace[|trace| - 1];
      DeliveredIn(trace[..|trace| - 1]) + (if e.Received? then [e.message] else [])
  }

  /** Buffers from the queue that were passed to the transport. */
  function QueuedIn(wire: seq<Sent>): seq<Bytes> {
    if wire == [] then []
    else
      var w := wire[|wire| - 1];
      QueuedIn(wire[..|wire| - 1]) + (if w.Queued? then [w.frame] else [])
  }

  predicate IsPong(frame: Bytes) {
    frame != [] && frame[0] == 0x80 + PONG
  }

  function PongsIn(frames: seq<Bytes>): seq<Bytes> {
    if frames == [] then []
    else
      var f := frames[|frames| - 1];
      PongsIn(frames[..|frames| - 1]) + (if IsPong(f) then [f] else [])
  }

  function PingsIn(frames: seq<RecvFrame>): seq<Bytes> {
    if frames == [] then []
    else
      var f := frames[|frames| - 1];
      PingsIn(frames[..|frames| - 1]) + (if f.opcode == PING then [f.data] else [])
  }

  // ------------------------------------------------------------- invariants

  /** Cut frames, then the buffer, are the octets received; after a close the rest is lost. */
  ghost predicate StreamInv(cut: seq<Bytes>, buf: Bytes, stream: Bytes, open: bool) {
    && Greedy(cut, stream)
    && Concat(cut) + buf <= stream
    && (open ==> Concat(cut) + buf == stream)
  }

  /** Delivered and pending messages are those of the frames cut; the open fragment sits in the last node. */
  ghost predicate ReceiveInv(recvQ: seq<Slot>, frames: seq<RecvFrame>, trace: seq<Event>) {
    && ListInv(recvQ)
    && OpenSlot(recvQ) == OpenFragment(frames)
    && DeliveredIn(trace) + Pending(recvQ) == Messages(frames)
  }

  /** One pong for each ping, in order, with the ping's payload (section 5.5.3 of RFC 6455). */
  ghost predicate PongInv(accepted: seq<Bytes>, frames: seq<RecvFrame>) {
    var pongs, pings := PongsIn(accepted), PingsIn(frames);
    |pongs| == |pings| && forall i :: 0 <= i < |pongs| ==> WirePayload(pongs[i]) == Some(pings[i])
  }

  /** What the queue handed to the transport is the beginning of what was accepted. */
  ghost predicate SendInv(wire: seq<Sent>, accepted: seq<Bytes>) {
    QueuedIn(wire) <= accepted
  }

  /** While nothing has been dropped, handed over and still queued together are all accepted. */
  ghost predicate NothingDropped(s: Sock) {
    QueuedIn(s.log.wire) + s.sendQ == s.log.accepted
  }

  ghost predicate DataInv(s: Sock) {
    && StreamInv(s.log.cut, s.buf, s.log.stream, s.open)
    && ReceiveInv(s.recvQ, Frames(s.log.cut), s.log.trace)
    && PongInv(s.log.accepted, Frames(s.log.cut))
    && SendInv(s.log.wire, s.log.accepted)
  }

  // ------------------------------------------------------- one step of history

  /** The beginning of every history. */
  lemma NothingYet()
    ensures Concat([]) == [] && Frames([]) == [] && Messages([]) == [] && OpenFragment([]) == [] && DeliveredIn([]) == []
  {
    var empty: seq<RecvFrame> := [];
    assert DataFrames(empty) == [] && Groups(empty) == [] && OpenGroup(empty) == [] && SkipEmpty(empty) == [];
  }

  lemma FramesSnoc(cuts: seq<Bytes>, cut: Bytes)
    ensures Frames(cuts + [cut]) == Frames(cuts) + FrameOf(cut)
  {
    Front(cuts, cut);
  }

  lemma DeliveredSnoc(trace: seq<Event>, e: Event)
    ensures DeliveredIn(trace + [e]) == DeliveredIn(trace) + (if e.Received? then [e.message] else [])
  {
    Front(trace, e);
  }

  lemma QueuedSnoc(wire: seq<Sent>, w: Sent)
    ensures QueuedIn(wire + [w]) == QueuedIn(wire) + (if w.Queued? then [w.frame] else [])
  {
    Front(wire, w);
  }

  lemma PongsSnoc(frames: seq<Bytes>, f: Bytes)
    ensures PongsIn(frames + [f]) == PongsIn(frames) + (if IsPong(f) then [f] else [])
  {
    Front(frames, f);
  }

  lemma PingsSnoc(frames: seq<RecvFrame>, f: RecvFrame)
    ensures PingsIn(frames + [f]) == PingsIn(frames) + (if f.opcode == PING then [f.data] else [])
  {
    Front(frames, f);
  }

  lemma {:induction false} DeliveredAll(trace: seq<Event>, ms: seq<Message>)
    ensures DeliveredIn(trace + AsEvents(ms)) == DeliveredIn(trace) + ms
  {
    hide *;
    if ms == [] {
      NoEvents();
      assert trace + [] == trace && DeliveredIn(trace) + [] == DeliveredIn(trace);
    } else {
      AsEventsLast(ms);
      var front, m := ms[..|ms| - 1], ms[|ms| - 1];
      DeliveredAll(trace, front);
      DeliveredSnoc(trace + AsEvents(front), Received(m));
      assert trace + AsEvents(ms) == (trace + AsEvents(front)) + [Received(m)];
      assert front + [m] == ms;
    }
  }

  lemma NoEvents()
    ensures AsEvents([]) == []
  {
  }

  lemma AsEventsLast(ms: seq<Message>)
    requires ms != []
    ensures AsEvents(ms) == AsEvents(ms[..|ms| - 1]) + [Received(ms[|ms| - 1])]
  {
  }

  lemma NonDataFrame(frames: seq<RecvFrame>, f: RecvFrame)
    requires !IsData(f)
    ensures Messages(frames + [f]) == Messages(frames) && OpenFragment(frames + [f]) == OpenFragment(frames)
  {
    DataFramesSnoc(frames, f);
    assert DataFrames(frames) + [] == DataFrames(frames);
  }

  lemma {:induction false} FramesMonotone(cuts: seq<Bytes>, more: seq<Bytes>)
    ensures Frames(cuts) <= Frames(cuts + more)
    decreases |more|
  {
    hide *;
    if more == [] {
      assert cuts + more == cuts;
    } else {
      var n := |more| - 1;
      FramesMonotone(cuts, more[..n]);
      FramesSnoc(cuts + more[..n], more[n]);
      assert cuts + more == (cuts + more[..n]) + [more[n]];
    }
  }

  lemma {:induction false} MessagesMonotone(frames: seq<RecvFrame>, more: seq<RecvFrame>)
    ensures Messages(frames) <= Messages(frames + more)
    decreases |more|
  {
    hide *;
    if more == [] {
      assert frames + more == frames;
    } else {
      var n := |more| - 1;
      var f := more[n];
      MessagesMonotone(frames, more[..n]);
      assert frames + more == (frames + more[..n]) + [f];
      if IsData(f) {
        MessagesSnoc(frames + more[..n], f);
      } else {
        NonDataFrame(frames + more[..n], f);
      }
    }
  }

  lemma PrefixSplit<T>(a: seq<T>, b: seq<T>)
    requires a <= b
    ensures b == a + b[|a|..]
  {
  }

  lemma CutsMonotone(a: seq<Bytes>, b: seq<Bytes>)
    requires a <= b
    ensures Messages(Frames(a)) <= Messages(Frames(b))
  {
    hide *;
    PrefixSplit(a, b);
    FramesMonotone(a, b[|a|..]);
    PrefixSplit(Frames(a), Frames(b));
    MessagesMonotone(Frames(a), Frames(b)[|Frames(a)|..]);
  }

  // --------------------------------------------------------------- the queue

  lemma FirstOctet(opcode: Opcode, mask: Option<Mask>, payload: Bytes)
    ensures var e := Encode(opcode, mask, payload);
      |e| >= 2 && e[0] == 0x80 + opcode
  {
  }

  /** Queueing a frame that is not a pong answers nothing and drops nothing. */
  lemma AppendSendKeeps(s: Sock, frame: Bytes)
    requires DataInv(s) && !IsPong(frame)
    ensures DataInv(AppendSend(s, frame))
    ensures NothingDropped(s) ==> NothingDropped(AppendSend(s, frame))
  {
    hide QueuedIn, StreamInv, ReceiveInv, WirePayload, IsPong, PingsIn, Frames;
    PongsSnoc(s.log.accepted, frame);
    hide PongsIn;
    assert PongsIn(s.log.accepted) + [] == PongsIn(s.log.accepted);
  }

  lemma SendPingKeeps(s: Sock, mask: Mask)
    requires DataInv(s)
    ensures DataInv(SendPing(s, mask))
    ensures NothingDropped(s) ==> NothingDropped(SendPing(s, mask))
  {
    var (id, counter) := NextId(s.nextId);
    FirstOctet(PING, Some(mask), Decimal(id));
    AppendSendKeeps(s.(nextId := counter), Encode(PING, Some(mask), Decimal(id)));
  }

  lemma SendTextKeeps(s: Sock, text: Bytes, mask: Mask)
    requires DataInv(s)
    ensures DataInv(SendText(s, text, mask))
    ensures NothingDropped(s) ==> NothingDropped(SendText(s, text, mask))
  {
    if text != [] {
      FirstOctet(TEXT, Some(mask), text);
      AppendSendKeeps(s, Encode(TEXT, Some(mask), text));
    }
  }

  /** How many frames of a queue of `n` are handed over when send number `failAt` fails. */
  function HandedOver(n: nat, failAt: nat): (k: nat)
    ensures k <= n
  {
    if failAt < n then failAt + 1 else n
  }

  /** The send loop hands over a beginning of the queue, all of it unless a send failed. */
  lemma {:induction false} SendLoopHandsOver(s: Sock, q: seq<Bytes>, failAt: nat)
    requires s.connected
    ensures QueuedIn(SendLoop(s, q, failAt).log.wire) == QueuedIn(s.log.wire) + q[..HandedOver(|q|, failAt)]
    decreases |q|
  {
    hide QueuedIn;
    var before := QueuedIn(s.log.wire);
    if q == [] {
      assert before + [] == before;
    } else {
      QueuedSnoc(s.log.wire, Queued(q[0]));
      var k := HandedOver(|q|, failAt);
      var more := q[1..][..k - 1];
      assert before + q[..k] == (before + [q[0]]) + more;
      if failAt == 0 {
        assert (before + [q[0]]) + more == before + [q[0]];
      } else {
        SendLoopHandsOver(Send(s, Queued(q[0]), true), q[1..], failAt - 1);
      }
    }
  }

  /** It ends with an error exactly when a send failed, and then closed; it touches nothing else. */
  lemma {:induction false} SendLoopOutcome(s: Sock, q: seq<Bytes>, failAt: nat)
    requires s.connected && q != []
    ensures var t := SendLoop(s, q, failAt);
      t == (if failAt < |q| then Close(s) else s).(error := failAt < |q|, log := s.log.(wire := t.log.wire))
    decreases |q|
  {
    if failAt > 0 && |q| > 1 {
      SendLoopOutcome(Send(s, Queued(q[0]), true), q[1..], failAt - 1);
    }
  }

  /**
    One call of `rws_socket_idle_send`: the queue is empty afterwards; either all of
    it went out in order, or the frames behind the failed one are dropped and the
    socket is closed and on its way to the disconnect callback.
  */
  lemma IdleSendKeeps(s: Sock, failAt: nat)
    requires DataInv(s) && NothingDropped(s) && s.connected
    ensures var t := IdleSend(s, failAt);
      && DataInv(t) && t.sendQ == []
      && QueuedIn(t.log.wire) == QueuedIn(s.log.wire) + s.sendQ[..HandedOver(|s.sendQ|, failAt)]
      && (failAt >= |s.sendQ| ==> NothingDropped(t))
      && t.log.trace == s.log.trace && t.log.cut == s.log.cut && t.worker == s.worker && t.recvQ == s.recvQ
      && t.log.upgraded == s.log.upgraded
      && (failAt >= |s.sendQ| ==> t.connected && t.open == s.open && t.command == s.command)
      && (failAt < |s.sendQ| ==> t.command == INFORM_DISCONNECTED && !t.connected && !t.open)
  {
    hide SendLoop, QueuedIn, ReceiveInv, PongInv, Greedy, Concat, Frames;
    if s.sendQ == [] {
      assert s.sendQ[..0] == [];
      assert QueuedIn(s.log.wire) + [] == QueuedIn(s.log.wire);
    } else {
      SendLoopHandsOver(s, s.sendQ, failAt);
      SendLoopOutcome(s, s.sendQ, failAt);
      StreamClosed(s.log.cut, s.buf, s.log.stream, s.open);
    }
  }

  lemma StreamClosed(cut: seq<Bytes>, buf: Bytes, stream: Bytes, open: bool)
    requires StreamInv(cut, buf, stream, open)
    ensures StreamInv(cut, [], stream, false)
  {
    assert Concat(cut) + [] == Concat(cut);
  }

  lemma CloseKeeps(s: Sock)
    requires DataInv(s)
    ensures DataInv(Close(s))
  {
    hide StreamInv, ReceiveInv, PongInv, SendInv, Frames;
    StreamClosed(s.log.cut, s.buf, s.log.stream, s.open);
  }

  // -------------------------------------------------------------- receiving

  lemma StreamGrows(cut: seq<Bytes>, buf: Bytes, stream: Bytes, more: Bytes)
    requires StreamInv(cut, buf, stream, true)
    ensures StreamInv(cut, buf + more, stream + more, true)
  {
    hide Greedy, Concat;
    GreedyStable(cut, stream, more);
    assert Concat(cut) + (buf + more) == (Concat(cut) + buf) + more;
  }

  /** `rws_socket_recv` appends exactly the chunks; a failing one loses what was not cut. */
  lemma RecvKeeps(s: Sock, chunks: seq<Bytes>, wouldBlock: bool)
    requires DataInv(s) && s.open
    ensures DataInv(Recv(s, chunks, wouldBlock))
    ensures wouldBlock ==> Recv(s, chunks, wouldBlock).open
  {
    hide StreamInv, ReceiveInv, PongInv, SendInv, Frames, Concat;
    var more := Concat(chunks);
    StreamGrows(s.log.cut, s.buf, s.log.stream, more);
    StreamClosed(s.log.cut, s.buf + more, s.log.stream + more, true);
  }

  /** The pong on the wire unmasks to the ping's payload, whatever its length. */
  lemma PongPayload(mask: Mask, payload: Bytes)
    requires |payload| < UINT_LIMIT
    ensures WirePayload(Encode(PONG, Some(mask), payload)) == Some(payload)
  {
    EncodeIsRfcFrame(PONG, Some(mask), payload);
    PayloadRoundTrip(WireFrame(true, PONG, MinimalForm(|payload|), Some(mask), payload));
  }

  lemma FrameOfCut(cut: Bytes)
    ensures FrameOf(cut) != [] ==> FrameOf(cut) == [FrameOf(cut)[0]] && |FrameOf(cut)[0].data| < UINT_LIMIT
  {
  }

  /** Processing one frame keeps list and deliveries in step with the frames processed. */
  lemma ProcessDelivers(s: Sock, frames: seq<RecvFrame>, f: RecvFrame, mask: Mask)
    requires ReceiveInv(s.recvQ, frames, s.log.trace)
    ensures var t := ProcessFrame(s, f, mask);
      ReceiveInv(t.recvQ, frames + [f], t.log.trace)
  {
    hide AddData, Pending, Messages, OpenFragment, OpenSlot, ListInv, DeliveredIn, Encode;
    if IsData(f) {
      AddDataRefines(s.recvQ, frames, f);
      var p, q := Pending(s.recvQ), Pending(AddData(s.recvQ, f));
      assert q == p + q[|p|..];
    } else {
      NonDataFrame(frames, f);
    }
  }

  lemma ProcessAnswers(s: Sock, frames: seq<RecvFrame>, f: RecvFrame, mask: Mask)
    requires |f.data| < UINT_LIMIT && PongInv(s.log.accepted, frames)
    ensures PongInv(ProcessFrame(s, f, mask).log.accepted, frames + [f])
  {
    PingsSnoc(frames, f);
    if f.opcode == PING {
      var pong := Encode(PONG, Some(mask), f.data);
      PongsSnoc(s.log.accepted, pong);
      FirstOctet(PONG, Some(mask), f.data);
      PongPayload(mask, f.data);
      hide PongsIn, PingsIn, Encode, WirePayload;
    } else {
      hide PongsIn, PingsIn, Encode, WirePayload, AddData;
      assert PingsIn(frames) + [] == PingsIn(frames);
    }
  }

  lemma ProcessQueues(s: Sock, f: RecvFrame, mask: Mask)
    requires SendInv(s.log.wire, s.log.accepted)
    ensures var t := ProcessFrame(s, f, mask);
      && SendInv(t.log.wire, t.log.accepted)
      && (NothingDropped(s) ==> NothingDropped(t))
      && t.open == s.open && t.connected == s.connected && t.worker == s.worker
      && t.log.trace == s.log.trace && t.log.stream == s.log.stream && t.log.wire == s.log.wire
      && t.log.upgraded == s.log.upgraded
      && t.command == (if f.opcode == CLOSE then INFORM_DISCONNECTED else s.command)
      && (IsData(f) || t.recvQ == s.recvQ)
  {
    hide AddData, Encode, QueuedIn;
    if f.opcode == PING {
      hide IsData;
    }
  }

  lemma StreamParts(cut: seq<Bytes>, buf: Bytes, stream: Bytes)
    ensures StreamInv(cut, buf, stream, true) <==> Greedy(cut, stream) && Concat(cut) + buf == stream
  {
    hide Greedy, Concat;
  }

  lemma StreamCut(cut: seq<Bytes>, buf: Bytes, stream: Bytes)
    requires StreamInv(cut, buf, stream, true) && CheckSize(buf) > 0
    ensures StreamInv(cut + [buf[..CheckSize(buf)]], buf[CheckSize(buf)..], stream, true)
  {
    hide *;
    StreamParts(cut, buf, stream);
    GreedyContinues(cut, buf);
    var n := CheckSize(buf);
    ConcatSnoc(cut, buf[..n]);
    assert Concat(cut) + buf[..n] + buf[n..] == Concat(cut) + buf;
    StreamParts(cut + [buf[..n]], buf[n..], stream);
  }

  /** One tick of receiving keeps every data invariant. */
  lemma CutOneKeeps(s: Sock, mask: Mask)
    requires DataInv(s) && s.open
    ensures var t := CutOne(s, mask);
      && DataInv(t) && (NothingDropped(s) ==> NothingDropped(t))
      && t.open && t.connected == s.connected && t.worker == s.worker
      && t.log.trace == s.log.trace && t.log.wire == s.log.wire && t.log.upgraded == s.log.upgraded
      && (t.command == s.command || (t.command == INFORM_DISCONNECTED && t.recvQ == s.recvQ))
  {
    hide StreamInv, ReceiveInv, PongInv, SendInv, FrameOf, CheckSize, Frames, ProcessFrame, QueuedIn;
    var n := CheckSize(s.buf);
    if n > 0 {
      var cut := s.buf[..n];
      var frames := Frames(s.log.cut);
      StreamCut(s.log.cut, s.buf, s.log.stream);
      FramesSnoc(s.log.cut, cut);
      if FrameOf(cut) == [] {
        assert frames + [] == frames;
      } else {
        var f := FrameOf(cut)[0];
        FrameOfCut(cut);
        ProcessDelivers(s, frames, f, mask);
        ProcessAnswers(s, frames, f, mask);
        ProcessQueues(s, f, mask);
      }
    }
  }

  lemma IdleRecvKeeps(s: Sock, chunks: seq<Bytes>, wouldBlock: bool, mask: Mask)
    requires DataInv(s) && s.open
    ensures var t := IdleRecv(s, chunks, wouldBlock, mask);
      && DataInv(t) && (NothingDropped(s) ==> NothingDropped(t))
      && t.worker == s.worker && t.log.trace == s.log.trace && t.log.wire == s.log.wire
      && t.log.upgraded == s.log.upgraded
      && (t.command == s.command || (t.command == INFORM_DISCONNECTED && t.recvQ == s.recvQ))
      && (wouldBlock ==> t.open && t.connected == s.connected)
      && (!wouldBlock ==> !t.open && !t.connected && t.command == INFORM_DISCONNECTED)
  {
    hide StreamInv, ReceiveInv, PongInv, SendInv, Frames, QueuedIn, CutOne, Concat;
    RecvKeeps(s, chunks, wouldBlock);
    if wouldBlock {
      CutOneKeeps(Recv(s, chunks, wouldBlock), mask);
    }
  }

  /** Informing delivers all that is pending and keeps the rest. */
  lemma InformKeeps(s: Sock)
    requires DataInv(s)
    ensures DataInv(Inform(s)) && Pending(Inform(s).recvQ) == []
    ensures DeliveredIn(Inform(s).log.trace) == Messages(Frames(s.log.cut))
    ensures NothingDropped(s) ==> NothingDropped(Inform(s))
  {
    hide Messages, OpenFragment, OpenSlot, ListInv, AfterInform, PendingIn, Pending, PongInv, StreamInv, SendInv, Frames, DeliveredIn;
    AfterInformSettled(s.recvQ);
    DeliveredAll(s.log.trace, Pending(s.recvQ));
    var all := Messages(Frames(s.log.cut));
    assert all + [] == all;
  }
}
