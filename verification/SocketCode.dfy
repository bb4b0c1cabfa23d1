/**
  The socket object, with its buffer and lists in memory.  Every method is proved
  to do what the function of the same name in SocketSpec says.
*/
module SocketCode {
  import opened Bytes
  import opened FrameSpec
  import opened FrameProofs
  import opened FrameCode
  import opened ListCode
  import opened Reassembly
  import opened SocketSpec
  import System

  /** The octets held by the frames of a list. */
  ghost function Datas(q: seq<Slot>): (d: seq<Bytes>)
    ensures |d| == |q| && forall i :: 0 <= i < |q| ==> d[i] == if q[i].Some? then q[i].value.data else []
  {
    seq(|q|, i requires 0 <= i < |q| => if q[i].Some? then q[i].value.data else [])
  }

  lemma NoChunks(before: Bytes)
    ensures before + Concat([]) == before
  {
  }

  class Socket {
    var command: int
    var open: bool
    var connected: bool
    var worker: bool
    var nextMessageId: nat
    var received: array?<Byte>
    var receivedSize: nat
    var receivedLen: nat
    var error: bool
    const sendFrames: FrameList
    const recvdFrames: FrameList
    ghost var log: Log

    /** `received_size` is the size of the block, `received_len` the part in use. */
    ghost predicate BufferValid()
      reads this
    {
      receivedLen <= receivedSize && receivedSize == if received == null then 0 else received.Length
    }

    ghost predicate Valid()
      reads this, sendFrames, sendFrames.Repr, recvdFrames, recvdFrames.Repr
    {
      && BufferValid()
      && sendFrames.Valid() && recvdFrames.Valid() && sendFrames.Repr !! recvdFrames.Repr
      && this !in sendFrames.Repr && this !in recvdFrames.Repr
      && (received != null ==> received !in sendFrames.Repr && received !in recvdFrames.Repr)
      && (forall i :: 0 <= i < |sendFrames.Slots| ==> sendFrames.Slots[i].Some?)
    }

    /** What the socket owns besides itself. */
    ghost function Lists(): set<object>
      reads this, sendFrames, recvdFrames
    {
      sendFrames.Repr + recvdFrames.Repr
    }

    ghost function Buffer(): Bytes
      requires BufferValid()
      reads this, received
    {
      if received == null then [] else received[..receivedLen]
    }

    /** The socket without its lists. */
    ghost function Core(): Sock
      requires BufferValid()
      reads this, received
    {
      Sock(command, open, connected, worker, nextMessageId, Buffer(), [], [], error, log)
    }

    /** The socket as the specification sees it. */
    ghost function View(): Sock
      requires BufferValid()
      reads this, received, sendFrames, recvdFrames
    {
      Core().(sendQ := Datas(sendFrames.Slots), recvQ := recvdFrames.Slots)
    }

    /** `rws_socket_create`. */
    constructor ()
      ensures Valid() && View() == FRESH && fresh(Lists())
    {
      command, open, connected, worker, nextMessageId, error := NONE, false, false, false, 0, false;
      received, receivedSize, receivedLen := null, 0, 0;
      sendFrames := new FrameList();
      recvdFrames := new FrameList();
      log := Log([], [], [], 0, 0, [], [], [], false);
    }

    // ------------------------------------------------------ without the lists

    /** `rws_socket_get_next_message_id`. */
    method GetNextMessageId() returns (id: nat)
      modifies this`nextMessageId
      ensures (id, nextMessageId) == NextId(old(nextMessageId))
    {
      nextMessageId := (nextMessageId + 1) % UINT_LIMIT;
      id := nextMessageId;
      if id > 9999999 {
        nextMessageId := 0;
      }
    }

    /** `rws_socket_close`. */
    method Close()
      requires BufferValid()
      modifies this`receivedLen, this`open, this`connected
      ensures BufferValid() && Core() == SocketSpec.Close(old(Core()))
    {
      receivedLen := 0;
      if open {
        open := false;
      }
      connected := false;
    }

    /** `rws_socket_send`; `ok` tells whether a write error was found. */
    method Send(ghost what: Sent, ok: bool) returns (sent: bool)
      requires BufferValid()
      modifies this`error, this`log, this`receivedLen, this`open, this`connected
      ensures BufferValid() && Core() == SocketSpec.Send(old(Core()), what, ok) && sent == ok
    {
      error := false;
      log := log.(wire := log.wire + [what]);
      if ok {
        return true;
      }
      error := true;
      Close();
      sent := false;
    }

    /** `rws_socket_resize_received`: a new block with the old octets at its front. */
    method ResizeReceived(size: nat)
      requires BufferValid() && size > 0
      modifies this`received, this`receivedSize
      ensures received != null && received.Length == receivedSize == size
      ensures received == old(received) || fresh(received)
      ensures forall i :: 0 <= i < size && i < old(receivedSize) ==> received[i] == old(if received == null then [] else received[..])[i]
    {
      if size == receivedSize {
        return;
      }
      var res := new Byte[size];
      var min := if receivedSize < size then receivedSize else size;
      if min > 0 && received != null {
        MemCopy(res, 0, received[..min]);
        assert res[..min] == res[0..min];
      }
      received := res;
      receivedSize := size;
    }

    /** One chunk behind what is already in the buffer. */
    method AppendChunk(chunk: Bytes)
      requires BufferValid() && |chunk| > 0
      modifies this`received, this`receivedSize, this`receivedLen, received
      ensures BufferValid() && Buffer() == old(Buffer()) + chunk
      ensures received == old(received) || fresh(received)
    {
      ghost var before := Buffer();
      if receivedSize - receivedLen < |chunk| {
        ResizeReceived(receivedSize + |chunk|);
      }
      assert Buffer() == before;
      MemCopy(received, receivedLen, chunk);
      receivedLen := receivedLen + |chunk|;
    }

    /** The reading loop of `rws_socket_recv`; `chunks` is what the transport yields before it stops. */
    method ReadChunks(chunks: seq<Bytes>)
      requires BufferValid() && forall i :: 0 <= i < |chunks| ==> 0 < |chunks[i]| <= 8192
      modifies this`received, this`receivedSize, this`receivedLen, received
      ensures BufferValid() && Buffer() == old(Buffer()) + Concat(chunks)
      ensures received == old(received) || fresh(received)
    {
      ghost var before := Buffer();
      var i := 0;
      NoChunks(before);
      hide Concat;
      while i < |chunks|
        invariant i <= |chunks| && BufferValid()
        invariant received == old(received) || fresh(received)
        invariant Buffer() == before + Concat(chunks[..i])
      {
        AppendChunk(chunks[i]);
        ConcatSnoc(chunks[..i], chunks[i]);
        assert chunks[..i + 1] == chunks[..i] + [chunks[i]];
        i := i + 1;
      }
      assert chunks[..i] == chunks;
    }

    /** `rws_socket_recv`. */
    method Recv(chunks: seq<Bytes>, wouldBlock: bool) returns (ok: bool)
      requires BufferValid() && forall i :: 0 <= i < |chunks| ==> 0 < |chunks[i]| <= 8192
      modifies this`received, this`receivedSize, this`receivedLen, this`open, this`connected, this`error, this`log, received
      ensures BufferValid() && Core() == SocketSpec.Recv(old(Core()), chunks, wouldBlock) && ok == wouldBlock
      ensures received == old(received) || fresh(received)
    {
      hide Concat;
      error := false;
      ReadChunks(chunks);
      log := log.(received := log.received + Concat(chunks), stream := log.stream + Concat(chunks));
      ok := wouldBlock;
      if !wouldBlock {
        error := true;
        Close();
      }
    }

    // --------------------------------------------------------------- receiving

    /** `rws_socket_append_send_frames`. */
    method AppendSendFrame(frame: Frame)
      requires Valid() && frame.Valid() && frame !in Lists()
      requires frame.data != null ==> frame.data !in Lists() && frame.data != received
      modifies this`log, sendFrames.Repr
      ensures Valid() && fresh(Lists() - old(Lists()) - {frame, frame.data})
      ensures recvdFrames.Repr == old(recvdFrames.Repr)
      ensures View() == SocketSpec.AppendSend(old(View()), old(frame.Contents()))
    {
      hide Datas;
      ghost var q := sendFrames.Slots;
      sendFrames.Append(frame);
      log := log.(accepted := log.accepted + [frame.Contents()]);
      assert Datas(sendFrames.Slots) == Datas(q) + [frame.Contents()];
    }

    /** A frame of the client: masked, encoded and queued. */
    method QueueFrame(opcode: Opcode, payload: Bytes, mask: Mask)
      requires Valid()
      modifies this`log, sendFrames.Repr
      ensures Valid() && fresh(Lists() - old(Lists())) && recvdFrames.Repr == old(recvdFrames.Repr)
      ensures View() == SocketSpec.AppendSend(old(View()), Encode(opcode, Some(mask), payload))
    {
      hide Datas, Encode, FrameList.Valid;
      var frame := new Frame.Create(mask);
      frame.isMasked := true;
      frame.opcode := opcode;
      frame.FillWithSendData(payload);
      AppendSendFrame(frame);
    }

    /** `rws_socket_send_ping`. */
    method SendPing(mask: Mask)
      requires Valid()
      modifies this`log, this`nextMessageId, sendFrames.Repr
      ensures Valid() && fresh(Lists() - old(Lists())) && recvdFrames.Repr == old(recvdFrames.Repr)
      ensures View() == SocketSpec.SendPing(old(View()), mask)
    {
      hide Datas;
      hide Encode, Decimal, NextId;
      var id := GetNextMessageId();
      QueueFrame(PING, Decimal(id), mask);
    }

    /** `rws_socket_send_text_priv`; `text` are the octets before the terminator, none for NULL. */
    method SendText(text: Bytes, mask: Mask) returns (accepted: bool)
      requires Valid()
      modifies this`log, sendFrames.Repr
      ensures Valid() && fresh(Lists() - old(Lists())) && recvdFrames.Repr == old(recvdFrames.Repr)
      ensures View() == SocketSpec.SendText(old(View()), text, mask) && accepted == (text != [])
    {
      hide Datas;
      hide Encode;
      if |text| <= 0 {
        return false;
      }
      QueueFrame(TEXT, text, mask);
      accepted := true;
    }

    /** `rws_socket_process_received_frame`. */
    method ProcessReceivedFrame(frame: Frame, mask: Mask)
      requires Valid() && frame.Valid() && frame !in Lists()
      requires frame.data != null ==> frame.data !in Lists() && frame.data != received
      modifies this`log, this`command, this`error, sendFrames.Repr, recvdFrames.Repr
      ensures Valid() && fresh(Lists() - old(Lists()) - {frame, frame.data})
      ensures View() == SocketSpec.ProcessFrame(old(View()), old(frame.Model()), mask)
    {
      hide Datas;
      hide Encode, AddData;
      if frame.opcode == PING {
        QueueFrame(PONG, frame.Contents(), mask);
      } else if frame.opcode == TEXT || frame.opcode == BINARY || frame.opcode == CONTINUATION {
        recvdFrames.ProcessData(frame);
      } else if frame.opcode == CLOSE {
        command := INFORM_DISCONNECTED;
        error := true;
      }
    }

    /** The octets behind a cut move to the front of the buffer. */
    method ShiftBuffer(n: nat)
      requires BufferValid() && n <= receivedLen && received != null
      modifies this`receivedLen, received
      ensures BufferValid() && Buffer() == old(Buffer())[n..]
    {
      if n == receivedLen {
        receivedLen := 0;
      } else {
        var left := receivedLen - n;
        forall i | 0 <= i < left {
          received[i] := received[n + i];
        }
        receivedLen := left;
      }
    }

    /** Builds the frame of a cut and processes it. */
    method ProcessCut(cut: Bytes, mask: Mask)
      requires Valid() && BuildInBounds(cut)
      modifies this`log, this`command, this`error, sendFrames.Repr, recvdFrames.Repr
      ensures Valid() && fresh(Lists() - old(Lists()))
      ensures View() ==
        if FrameOf(cut) == [] then old(View()) else SocketSpec.ProcessFrame(old(View()), FrameOf(cut)[0], mask)
    {
      hide Datas;
      FrameOfBuild(cut);
      hide CheckSize, Build, BuildInBounds, ProcessFrame, FrameOf;
      var frame := CreateWithRecvData(cut, mask);
      if frame != null {
        ProcessReceivedFrame(frame, mask);
      }
    }

    /** Takes a processed frame off the buffer. */
    method FinishCut(n: nat)
      requires Valid() && n <= receivedLen && received != null
      modifies this`log, this`receivedLen, received
      ensures Valid() && Lists() == old(Lists())
      ensures View() == var s := old(View()); s.(buf := s.buf[n..], log := s.log.(cut := s.log.cut + [s.buf[..n]]))
    {
      hide Datas;
      log := log.(cut := log.cut + [Buffer()[..n]]);
      ShiftBuffer(n);
    }

    /** Processes a whole frame at the front of the buffer and takes it off. */
    method TakeCut(size: nat, mask: Mask)
      requires Valid() && received != null && size <= receivedLen && BuildInBounds(Buffer()[..size])
      modifies this`log, this`command, this`error, this`receivedLen, received, sendFrames.Repr, recvdFrames.Repr
      ensures Valid() && fresh(Lists() - old(Lists()))
      ensures View() ==
        var s := old(View());
        var cut := s.buf[..size];
        var t := if FrameOf(cut) == [] then s else SocketSpec.ProcessFrame(s, FrameOf(cut)[0], mask);
        t.(buf := s.buf[size..], log := t.log.(cut := t.log.cut + [cut]))
    {
      hide Datas, CheckSize, BuildInBounds, ProcessFrame, FrameOf;
      var cut := received[..receivedLen][..size];
      ProcessBuffer(View(), cut, mask);
      ProcessCut(cut, mask);
      FinishCut(size);
    }

    /** The part of `rws_socket_idle_recv` behind a successful read: at most one frame is cut and processed. */
    method CutOne(mask: Mask)
      requires Valid()
      modifies this`log, this`command, this`error, this`receivedLen, received, sendFrames.Repr, recvdFrames.Repr
      ensures Valid() && fresh(Lists() - old(Lists()))
      ensures View() == SocketSpec.CutOne(old(View()), mask)
    {
      hide Datas, CheckSize, BuildInBounds, ProcessFrame, FrameOf, SocketSpec.CutOne, FrameList.Valid;
      var live := if received == null then [] else received[..receivedLen];
      var size := CheckRecvFrameSize(live);
      CutIs(View(), mask);
      if size > 0 {
        CutInBounds(live);
        TakeCut(size, mask);
      }
    }

    /** `rws_socket_idle_recv`. */
    method IdleRecv(chunks: seq<Bytes>, wouldBlock: bool, mask: Mask)
      requires Valid() && forall i :: 0 <= i < |chunks| ==> 0 < |chunks[i]| <= 8192
      modifies this, received, sendFrames.Repr, recvdFrames.Repr
      ensures Valid() && fresh(Lists() - old(Lists())) && (received == old(received) || fresh(received))
      ensures View() == SocketSpec.IdleRecv(old(View()), chunks, wouldBlock, mask)
    {
      hide Datas, SocketSpec.CutOne, Concat, FrameList.Valid;
      var ok := Recv(chunks, wouldBlock);
      if !ok {
        if error {
          command := INFORM_DISCONNECTED;
        }
        return;
      }
      CutOne(mask);
    }

    // ----------------------------------------------------------------- sending

    /** The loop of `rws_socket_idle_send`; send number `failAt` meets a write error. */
    method SendQueued(failAt: nat)
      requires Valid()
      modifies this`error, this`log, this`receivedLen, this`open, this`connected, sendFrames.Repr
      ensures BufferValid() && sendFrames.Valid() && sendFrames.Repr == old(sendFrames.Repr)
      ensures Core() == SendLoop(old(Core()), old(Datas(sendFrames.Slots)), failAt)
    {
      hide *;
      ValidParts();
      var cur := sendFrames.head;
      var sending := true;
      ghost var q, nodes, slots := Datas(sendFrames.Slots), sendFrames.spine, sendFrames.Slots;
      ghost var target := SendLoop(Core(), q, failAt);
      var i := 0;
      ghost var core := Core();
      NodesOwned(sendFrames);
      GoingStart(core, q, failAt);
      while cur != null && connected && sending
        invariant BufferValid() && sendFrames.Valid()
        invariant i <= |slots| && cur == NodeAt(nodes, i) && sendFrames.spine == nodes
        invariant |sendFrames.Slots| == |slots| && forall j :: i <= j < |slots| ==> sendFrames.Slots[j] == slots[j]
        invariant !sending ==> !connected
        invariant core == Core() && Going(core, q, i, failAt, target)
        decreases |slots| - i
        modifies this`error, this`log, this`receivedLen, this`open, this`connected, nodes, sendFrames`values, sendFrames`Slots
      {
        NodeExists(nodes, i);
        GoingStep(core, q, i, failAt, target);
        CoreConnected();
        assert sendFrames.Slots[i] == slots[i] && q[i] == slots[i].value.data;
        sending := TakeAndSend(cur, i, i != failAt);
        core := SocketSpec.Send(core, Queued(q[i]), i != failAt);
        cur := cur.next;
        i := i + 1;
      }
      NodeExists(nodes, i);
      CoreConnected();
      GoingEnd(core, q, i, failAt, target);
    }

    lemma ValidParts()
      requires Valid()
      ensures BufferValid() && sendFrames.Valid() && this !in sendFrames.Repr
      ensures received != null ==> received !in sendFrames.Repr
      ensures forall i :: 0 <= i < |sendFrames.Slots| ==> sendFrames.Slots[i].Some?
    {
      hide FrameList.Valid;
    }

    lemma CoreConnected()
      requires BufferValid()
      ensures Core().connected == connected
    {
    }

    /** The body of that loop: the node gives up its frame, which is sent and freed. */
    method TakeAndSend(cur: Node, ghost i: nat, ok: bool) returns (sending: bool)
      requires BufferValid() && sendFrames.Valid() && this !in sendFrames.Repr
      requires received != null ==> received !in sendFrames.Repr
      requires i < |sendFrames.spine| && cur == sendFrames.spine[i] && i < |sendFrames.Slots| && sendFrames.Slots[i].Some?
      modifies this`error, this`log, this`receivedLen, this`open, this`connected, cur, sendFrames`values, sendFrames`Slots
      ensures BufferValid() && sendFrames.Valid()
      ensures sendFrames.Slots == old(sendFrames.Slots)[i := None] && cur.next == NodeAt(sendFrames.spine, i + 1)
      ensures Core() == SocketSpec.Send(old(Core()), Queued(old(sendFrames.Slots)[i].value.data), ok)
      ensures sending == ok && (!ok ==> !connected)
    {
      hide NodeAt;
      var frame := sendFrames.Take(cur, i);
      sending := Send(Queued(frame.Contents()), ok);
    }

    /** The loop, then the list of emptied nodes is freed. */
    method SendAndClear(failAt: nat)
      requires Valid()
      modifies this`error, this`log, this`receivedLen, this`open, this`connected, sendFrames.Repr
      ensures Valid() && Lists() == old(Lists()) && sendFrames.Slots == []
      ensures Core() == SendLoop(old(Core()), old(Datas(sendFrames.Slots)), failAt)
    {
      hide SendLoop, FrameList.Valid, Datas;
      SendQueued(failAt);
      sendFrames.DeleteClean();
    }

    /** `rws_socket_idle_send`, on the fields. */
    method DrainQueue(failAt: nat)
      requires Valid()
      modifies this`error, this`log, this`receivedLen, this`open, this`connected, this`command, sendFrames.Repr
      ensures Valid() && Lists() == old(Lists()) && sendFrames.Slots == []
      ensures Core() ==
        if old(sendFrames.Slots) == [] then old(Core())
        else
          var t := SendLoop(old(Core()), old(Datas(sendFrames.Slots)), failAt);
          if t.error then t.(command := INFORM_DISCONNECTED) else t
    {
      HeadIsNull(sendFrames);
      hide SendLoop, FrameList.Valid, Datas;
      if sendFrames.head != null {
        SendAndClear(failAt);
        if error {
          command := INFORM_DISCONNECTED;
        }
      }
    }

    /** `rws_socket_idle_send`. */
    method IdleSend(failAt: nat)
      requires Valid()
      modifies this`error, this`log, this`receivedLen, this`open, this`connected, this`command, sendFrames.Repr
      ensures Valid() && Lists() == old(Lists())
      ensures View() == SocketSpec.IdleSend(old(View()), failAt)
    {
      IdleSendIs(Core(), Datas(sendFrames.Slots), recvdFrames.Slots, failAt);
      hide SendLoop, FrameList.Valid, SocketSpec.IdleSend, Core, Datas;
      DrainQueue(failAt);
    }

    /** `rws_socket_inform_recvd_frames`. */
    method Inform()
      requires Valid()
      modifies this`log, recvdFrames.Repr
      ensures Valid() && fresh(Lists() - old(Lists()))
      ensures View() == SocketSpec.Inform(old(View()))
    {
      hide Datas;
      hide AfterInform, Pending, AsEvents;
      var delivered := recvdFrames.Inform();
      log := log.(trace := log.trace + AsEvents(delivered));
    }

    // ---------------------------------------------------- opening and closing

    /** `rws_socket_connect_to_host`; `reached` tells whether lookup and connect succeeded. */
    method ConnectToHost(reached: bool)
      requires BufferValid()
      modifies this`command, this`error, this`open, this`receivedLen
      ensures BufferValid() && Core() == SocketSpec.ConnectToHost(old(Core()), reached)
    {
      error := false;
      if reached {
        receivedLen := 0;
        open := true;
        command := SEND_HANDSHAKE;
      } else {
        error := true;
        command := INFORM_DISCONNECTED;
      }
    }

    /** `rws_socket_send_handshake`. */
    method SendHandshake(ok: bool)
      requires BufferValid()
      modifies this`command, this`error, this`log, this`receivedLen, this`open, this`connected
      ensures BufferValid() && Core() == SocketSpec.SendHandshake(old(Core()), ok)
    {
      var sent := Send(Handshake, ok);
      if sent {
        command := WAIT_HANDSHAKE_RESPONSE;
      } else {
        error := true;
        Close();
        command := INFORM_DISCONNECTED;
      }
    }

    /** `rws_socket_wait_handshake_responce`; `verdict` is the outcome of reading the answer. */
    method WaitHandshake(chunks: seq<Bytes>, wouldBlock: bool, verdict: Verdict)
      requires BufferValid() && forall i :: 0 <= i < |chunks| ==> 0 < |chunks[i]| <= 8192
      modifies this, received
      ensures BufferValid() && (received == old(received) || fresh(received))
      ensures Core() == SocketSpec.WaitHandshake(old(Core()), chunks, wouldBlock, verdict)
    {
      hide Concat;
      var ok := Recv(chunks, wouldBlock);
      if !ok {
        if error {
          command := INFORM_DISCONNECTED;
        }
        return;
      }
      if receivedLen == 0 {
        return;
      }
      error := false;
      if verdict.Accept? {
        receivedLen := 0;
        connected := true;
        log := log.(answer := verdict.answer, dropped := |log.received|, stream := [], upgraded := true);
        command := INFORM_CONNECTED;
      } else {
        error := verdict == RefuseWithError;
        Close();
        command := INFORM_DISCONNECTED;
      }
    }

    /** `rws_socket_send_disconnect` up to and including the send: a masked close frame is encoded and sent at once. */
    method SendClose(ok: bool, mask: Mask)
      requires BufferValid()
      modifies this`error, this`log, this`nextMessageId, this`receivedLen, this`open, this`connected
      ensures BufferValid() && Core() == SocketSpec.SendClose(old(Core()), ok, mask)
    {
      hide Encode, Decimal, NextId;
      var frame := new Frame.Create(mask);
      var id := GetNextMessageId();
      frame.isMasked := true;
      frame.opcode := CLOSE;
      frame.FillWithSendData(Decimal(id));
      var sent := Send(Closing(frame.Contents()), ok);
    }

    /** `rws_socket_send_disconnect`. */
    method SendDisconnect(ok: bool, mask: Mask)
      requires BufferValid()
      modifies this`command, this`error, this`log, this`nextMessageId, this`receivedLen, this`open, this`connected
      ensures BufferValid() && Core() == SocketSpec.SendDisconnect(old(Core()), ok, mask)
    {
      hide SocketSpec.SendClose;
      SendClose(ok, mask);
      command := END;
    }

    // ------------------------------------------------------------ worker's loop

    /** The IDLE case of the first switch. */
    method IdleSection(e: Env)
      requires Valid() && forall i :: 0 <= i < |e.chunks| ==> 0 < |e.chunks[i]| <= 8192
      modifies this, received, sendFrames.Repr, recvdFrames.Repr
      ensures Valid() && fresh(Lists() - old(Lists())) && (received == old(received) || fresh(received))
      ensures View() == SocketSpec.IdleSection(old(View()), e)
    {
      hide Datas, FrameList.Valid, SocketSpec.SendPing, SocketSpec.IdleSend, SocketSpec.IdleRecv;
      if e.pingDue {
        if connected {
          SendPing(e.mask);
        }
      }
      assert this !in sendFrames.Repr && received == old(received);
      if connected {
        IdleSend(e.failAt);
      }
      assert received == old(received);
      if connected {
        IdleRecv(e.chunks, e.wouldBlock, e.pongMask);
      }
    }

    /** The cases of the first switch that touch neither list. */
    method OpeningOrClosing(e: Env)
      requires BufferValid() && command != IDLE && forall i :: 0 <= i < |e.chunks| ==> 0 < |e.chunks[i]| <= 8192
      modifies this, received
      ensures BufferValid() && Core() == SocketSpec.Section(old(Core()), e)
      ensures received == old(received) || fresh(received)
    {
      hide SocketSpec.ConnectToHost, SocketSpec.SendHandshake, SocketSpec.WaitHandshake, SocketSpec.SendDisconnect;
      if command == CONNECT_TO_HOST {
        ConnectToHost(e.ok);
      } else if command == SEND_HANDSHAKE {
        SendHandshake(e.ok);
      } else if command == WAIT_HANDSHAKE_RESPONSE {
        WaitHandshake(e.chunks, e.wouldBlock, e.verdict);
      } else if command == DISCONNECT {
        SendDisconnect(e.ok, e.mask);
      }
    }

    /** The first switch of `rws_socket_work_th_func`. */
    method Section(e: Env)
      requires Valid() && forall i :: 0 <= i < |e.chunks| ==> 0 < |e.chunks[i]| <= 8192
      modifies this, received, sendFrames.Repr, recvdFrames.Repr
      ensures Valid() && fresh(Lists() - old(Lists())) && (received == old(received) || fresh(received))
      ensures View() == SocketSpec.Section(old(View()), e)
    {
      hide Datas, SocketSpec.IdleSection;
      if command == IDLE {
        SectionIdle(View(), e);
      } else {
        SectionLists(Core(), e, Datas(sendFrames.Slots), recvdFrames.Slots);
      }
      hide SocketSpec.Section, FrameList.Valid;
      if command == IDLE {
        IdleSection(e);
      } else {
        OpeningOrClosing(e);
      }
    }

    /** The call of `on_connected` or `on_disconnected`. */
    method Call(event: Event)
      modifies this`log
      ensures log == old(log).(trace := old(log).trace + [event])
    {
      log := log.(trace := log.trace + [event]);
    }

    /**
      The second switch of `rws_socket_work_th_func`: the command is read and written,
      and `next` is where the worker goes from there.
    */
    method SecondSwitch() returns (next: System.Pc)
      requires Valid()
      modifies this`command, this`log
      ensures Valid() && Lists() == old(Lists())
      ensures var t := System.Second(System.Sys(old(View()), System.SecondSwitch, System.Calm, false, 0));
        View() == t.sock && next == t.pc
    {
      hide Datas;
      HeadIsNull(recvdFrames);
      hide FrameList.Valid;
      next := System.LoopTest;
      if command == INFORM_CONNECTED {
        command := IDLE;
        Call(Connected);
        next := System.InConnected;
      } else if command == INFORM_DISCONNECTED {
        command := END;
        next := System.Ending;
      } else if command == IDLE {
        if recvdFrames.head != null {
          next := System.Informing(0, true);
        }
      }
    }

    /** The store behind the loop, between closing and deleting. */
    method ClearThread()
      requires Valid()
      modifies this`worker
      ensures Valid() && View() == old(View()).(worker := false)
    {
      hide Datas;
      worker := false;
    }

    // ------------------------------------------------------------- public calls

    /** `rws_socket_connect` up to the start of the thread. */
    method PrepareConnect(missing: bool) returns (ok: bool)
      requires Valid()
      modifies this`error, this`receivedLen, this`command
      ensures Valid() && ok == !missing
      ensures View() == System.Step(System.Sys(old(View()), System.NoWorker, System.Calm, false, 0),
        if missing then System.ConnectRefused else System.Spawn).sock
    {
      hide Datas, FrameList.Valid;
      error := false;
      receivedLen := 0;
      if missing {
        error := true;
        return false;
      }
      error := false;
      command := NONE;
      ok := true;
    }

    /** The store of `work_thread` in `rws_socket_create_start_work_thread`; the worker may be running already. */
    method StoreThread()
      requires Valid()
      modifies this`worker
      ensures Valid()
      ensures View() == System.Step(System.Sys(old(View()), System.LoopTest, System.Spawned, false, 0), System.StoreThread).sock
    {
      hide Datas;
      worker := true;
    }

    /** The last store of a successful connect. */
    method StoreCommand()
      requires Valid()
      modifies this`command
      ensures Valid()
      ensures View() == System.Step(System.Sys(old(View()), System.LoopTest, System.Stored, false, 0), System.StoreCommand).sock
    {
      hide Datas;
      command := CONNECT_TO_HOST;
    }

    /** `rws_socket_disconnect_and_release`; `deletes` tells the caller's branch that frees the socket. */
    method DisconnectAndRelease() returns (deletes: bool)
      requires Valid()
      modifies this`command, sendFrames
      ensures Valid() && View() == SocketSpec.Release(old(View()))
      ensures deletes == ReleaseDeletes(old(View()))
    {
      hide Datas;
      deletes := false;
      sendFrames.DeleteClean();
      if connected {
        command := DISCONNECT;
      } else if worker {
        command := END;
      } else if command != END {
        deletes := true;
      }
    }

    /** `rws_socket_delete`, up to freeing the object itself. */
    method Delete()
      requires Valid()
      modifies this, sendFrames, recvdFrames
      ensures BufferValid() && View() == SocketSpec.Delete(old(View())) && received == null && receivedSize == 0
    {
      hide Datas, FrameList.Valid;
      Close();
      received := null;
      receivedSize := 0;
      error := false;
      sendFrames.DeleteClean();
      recvdFrames.DeleteClean();
    }
  }

  lemma NodesOwned(l: FrameList)
    requires l.Valid()
    ensures |l.spine| == |l.Slots| && l.head == NodeAt(l.spine, 0)
    ensures forall j :: 0 <= j < |l.spine| ==> l.spine[j] in l.Repr
  {
  }

  lemma HeadIsNull(l: FrameList)
    requires l.Valid()
    ensures l.head == null <==> l.Slots == []
  {
    NodesOwned(l);
  }

  /** The send loop stands before frame `i`: going on from here, or stopped, ends in `target`. */
  ghost predicate Going(s: Sock, q: seq<Bytes>, i: nat, failAt: nat, target: Sock) {
    if s.connected then i <= |q| && i <= failAt && SendLoop(s, q[i..], failAt - i) == target else s == target
  }

  lemma GoingStart(s: Sock, q: seq<Bytes>, failAt: nat)
    ensures Going(s, q, 0, failAt, SendLoop(s, q, failAt))
  {
    assert q[0..] == q;
  }

  lemma GoingStep(s: Sock, q: seq<Bytes>, i: nat, failAt: nat, target: Sock)
    requires Going(s, q, i, failAt, target)
    ensures s.connected && i < |q| ==> Going(SocketSpec.Send(s, Queued(q[i]), i != failAt), q, i + 1, failAt, target)
  {
    if s.connected && i < |q| {
      assert q[i..][1..] == q[i + 1..];
    }
  }

  lemma GoingEnd(s: Sock, q: seq<Bytes>, i: nat, failAt: nat, target: Sock)
    requires Going(s, q, i, failAt, target)
    ensures !s.connected || i == |q| ==> s == target
  {
    if s.connected && i == |q| {
      assert q[i..] == [];
    }
  }

  /** The send loop does not look at the lists. */
  lemma {:induction false} SendLoopLists(s: Sock, q: seq<Bytes>, failAt: nat, sendQ: seq<Bytes>, recvQ: seq<Slot>)
    ensures SendLoop(s.(sendQ := sendQ, recvQ := recvQ), q, failAt) == SendLoop(s, q, failAt).(sendQ := sendQ, recvQ := recvQ)
    decreases |q|
  {
    if q != [] && s.connected && failAt > 0 {
      SendLoopLists(SocketSpec.Send(s, Queued(q[0]), true), q[1..], failAt - 1, sendQ, recvQ);
    }
  }

  /** Opening and closing do not look at the lists. */
  lemma SectionLists(s: Sock, e: Env, sendQ: seq<Bytes>, recvQ: seq<Slot>)
    requires s.command != IDLE
    ensures SocketSpec.Section(s.(sendQ := sendQ, recvQ := recvQ), e) ==
      SocketSpec.Section(s, e).(sendQ := sendQ, recvQ := recvQ)
  {
    hide SocketSpec.ConnectToHost, SocketSpec.SendHandshake, SocketSpec.WaitHandshake, SocketSpec.SendDisconnect;
    var c := s.command;
    if c == CONNECT_TO_HOST || c == SEND_HANDSHAKE {
      OpeningLists(s, e, sendQ, recvQ);
    } else if c == WAIT_HANDSHAKE_RESPONSE {
      WaitLists(s, e, sendQ, recvQ);
    } else if c == DISCONNECT {
      ClosingLists(s, e.ok, e.mask, sendQ, recvQ);
    }
  }

  lemma OpeningLists(s: Sock, e: Env, sendQ: seq<Bytes>, recvQ: seq<Slot>)
    ensures SocketSpec.ConnectToHost(s.(sendQ := sendQ, recvQ := recvQ), e.ok) ==
      SocketSpec.ConnectToHost(s, e.ok).(sendQ := sendQ, recvQ := recvQ)
    ensures SocketSpec.SendHandshake(s.(sendQ := sendQ, recvQ := recvQ), e.ok) ==
      SocketSpec.SendHandshake(s, e.ok).(sendQ := sendQ, recvQ := recvQ)
  {
  }

  lemma WaitLists(s: Sock, e: Env, sendQ: seq<Bytes>, recvQ: seq<Slot>)
    ensures SocketSpec.WaitHandshake(s.(sendQ := sendQ, recvQ := recvQ), e.chunks, e.wouldBlock, e.verdict) ==
      SocketSpec.WaitHandshake(s, e.chunks, e.wouldBlock, e.verdict).(sendQ := sendQ, recvQ := recvQ)
  {
    hide Concat;
  }

  lemma ClosingLists(s: Sock, ok: bool, mask: Mask, sendQ: seq<Bytes>, recvQ: seq<Slot>)
    ensures SocketSpec.SendDisconnect(s.(sendQ := sendQ, recvQ := recvQ), ok, mask) ==
      SocketSpec.SendDisconnect(s, ok, mask).(sendQ := sendQ, recvQ := recvQ)
  {
    hide Encode, Decimal, NextId;
  }

  lemma SectionIdle(s: Sock, e: Env)
    requires s.command == IDLE
    ensures SocketSpec.Section(s, e) == SocketSpec.IdleSection(s, e)
  {
    hide SocketSpec.IdleSection;
  }

  lemma IdleSendIs(s: Sock, q: seq<Bytes>, recvQ: seq<Slot>, failAt: nat)
    ensures SocketSpec.IdleSend(s.(sendQ := q, recvQ := recvQ), failAt) ==
      if q == [] then s.(sendQ := q, recvQ := recvQ)
      else
        var t := SendLoop(s, q, failAt).(sendQ := [], recvQ := recvQ);
        if t.error then t.(command := INFORM_DISCONNECTED) else t
  {
    SendLoopLists(s, q, failAt, q, recvQ);
    hide SendLoop;
  }

  lemma CutInBounds(b: Bytes)
    requires CheckSize(b) > 0
    ensures BuildInBounds(b[..CheckSize(b)])
  {
    hide CheckSize, BuildInBounds, Build;
    ParsersAgree(b);
  }

  lemma ProcessBuffer(s: Sock, cut: Bytes, mask: Mask)
    ensures var t := if FrameOf(cut) == [] then s else ProcessFrame(s, FrameOf(cut)[0], mask);
      t.buf == s.buf && t.log.cut == s.log.cut
  {
    hide FrameOf, AddData, Encode;
  }

  lemma CutIs(s: Sock, mask: Mask)
    ensures var n := CheckSize(s.buf);
      SocketSpec.CutOne(s, mask) ==
        if n == 0 then s
        else
          var cut := s.buf[..n];
          var t := if FrameOf(cut) == [] then s else ProcessFrame(s, FrameOf(cut)[0], mask);
          t.(buf := s.buf[n..], log := t.log.(cut := t.log.cut + [cut]))
  {
    hide CheckSize, FrameOf, AddData, Encode;
  }

  lemma FrameOfBuild(cut: Bytes)
    requires BuildInBounds(cut)
    ensures FrameOf(cut) == if Build(cut).Some? then [Build(cut).value] else []
  {
    hide BuildInBounds, Build;
  }
}
