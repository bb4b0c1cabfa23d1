/**
  What is received and delivered, over all runs: which octets of the connection are
  read as frames, when that is all the peer has sent, and why the messages do not
  depend on chunks and schedule.
*/
module ReceiveTheorems {
  import opened Bytes
  import opened FrameSpec
  import opened Stream
  import opened Reassembly
  import opened SocketSpec
  import opened SocketProofs
  import opened System
  import opened SystemInvariant
  import opened SystemSteps
  import opened SystemTheorems

  // -------------------------------------------------- which octets are frames

  /** Frames are looked for in what comes in behind the octets dropped at the handshake, and only there. */
  ghost predicate HeardInv(log: Log) {
    && log.dropped <= |log.received| && log.stream == log.received[log.dropped..]
    && (!log.upgraded ==> log.dropped == 0 && log.answer == 0)
  }

  ghost predicate HearsTheSame(a: Log, b: Log) {
    b.received == a.received && b.answer == a.answer && b.dropped == a.dropped && b.stream == a.stream && b.upgraded == a.upgraded
  }

  lemma {:induction false} SendLoopHears(s: Sock, q: seq<Bytes>, failAt: nat)
    ensures HearsTheSame(s.log, SendLoop(s, q, failAt).log)
    decreases |q|
  {
    if q != [] && s.connected && failAt > 0 {
      SendLoopHears(Send(s, Queued(q[0]), true), q[1..], failAt - 1);
    }
  }

  lemma RecvHears(k: Sock, chunks: seq<Bytes>, wouldBlock: bool)
    requires HeardInv(k.log)
    ensures HeardInv(Recv(k, chunks, wouldBlock).log)
    ensures Recv(k, chunks, wouldBlock).log.received == k.log.received + Concat(chunks)
  {
    hide Concat;
  }

  lemma CutHears(k: Sock, mask: Mask)
    ensures HearsTheSame(k.log, CutOne(k, mask).log)
  {
    hide CheckSize, FrameOf, AddData, Encode;
  }

  lemma IdleSectionHears(k: Sock, e: Env)
    requires HeardInv(k.log)
    ensures HeardInv(IdleSection(k, e).log)
  {
    var s1 := if e.pingDue && k.connected then SendPing(k, e.mask) else k;
    assert HearsTheSame(k.log, s1.log) by {
      hide Encode, Decimal;
    }
    SendLoopHears(s1, s1.sendQ, e.failAt);
    var s2 := if s1.connected then IdleSend(s1, e.failAt) else s1;
    RecvHears(s2, e.chunks, e.wouldBlock);
    CutHears(Recv(s2, e.chunks, e.wouldBlock), e.pongMask);
    hide SendPing, SendLoop, Recv, CutOne;
  }

  lemma WaitHears(k: Sock, chunks: seq<Bytes>, wouldBlock: bool, verdict: Verdict)
    requires HeardInv(k.log)
    ensures HeardInv(WaitHandshake(k, chunks, wouldBlock, verdict).log)
  {
    RecvHears(k, chunks, wouldBlock);
    hide Recv;
  }

  lemma CloseFrameHears(k: Sock, ok: bool, mask: Mask)
    ensures HearsTheSame(k.log, SendClose(k, ok, mask).log)
  {
    hide Encode, Decimal, NextId;
  }

  lemma SectionHears(k: Sock, e: Env)
    requires HeardInv(k.log)
    ensures HeardInv(Section(k, e).log)
  {
    hide IdleSection, WaitHandshake, SendClose;
    IdleSectionHears(k, e);
    WaitHears(k, e.chunks, e.wouldBlock, e.verdict);
    CloseFrameHears(k, e.ok, e.mask);
  }

  lemma InformHears(s: Sys)
    requires s.pc.Informing?
    ensures HearsTheSame(s.sock.log, InformNode(s).sock.log)
  {
    hide SlotDelivery, AsEvents, Informed, Unfinished;
  }

  lemma SecondHears(s: Sys)
    ensures HearsTheSame(s.sock.log, Second(s).sock.log)
  {
  }

  lemma EarsKept(a: Log, b: Log)
    requires HeardInv(a) && HearsTheSame(a, b)
    ensures HeardInv(b)
  {
  }

  lemma WorkerHears(s: Sys, e: Env)
    requires HeardInv(s.sock.log)
    ensures HeardInv(WorkerStep(s, e).sock.log)
  {
    hide Section, SendClose, InformNode, Second, HeardInv;
    if s.pc == InSection {
      SectionHears(s.sock, e);
    } else {
      CloseFrameHears(s.sock, e.ok, e.mask);
      SecondHears(s);
      if s.pc.Informing? {
        InformHears(s);
      }
      EarsKept(s.sock.log, WorkerStep(s, e).sock.log);
    }
  }

  lemma TextHears(k: Sock, text: Bytes, mask: Mask)
    ensures HearsTheSame(k.log, SendText(k, text, mask).log)
  {
    hide Encode;
  }

  lemma StepHears(s: Sys, a: Action)
    requires HeardInv(s.sock.log)
    ensures HeardInv(Step(s, a).sock.log)
  {
    hide WorkerStep, SendText;
    match a
    case Worker(e) => WorkerHears(s, e);
    case Text(text, mask) => TextHears(s.sock, text, mask);
    case _ =>
  }

  lemma {:induction false} ReachableHeard(actions: seq<Action>)
    ensures HeardInv(After(actions).sock.log)
  {
    if actions != [] {
      hide Step, HeardInv;
      ReachableHeard(actions[..|actions| - 1]);
      StepHears(After(actions[..|actions| - 1]), actions[|actions| - 1]);
    } else {
      assert FRESH.log.received[0..] == FRESH.log.stream;
    }
  }

  /** What the peer has sent behind its answer; None as long as the answer itself is not complete. */
  function Behind(log: Log): Option<Bytes> {
    if log.answer <= |log.received| then Some(log.received[log.answer..]) else None
  }

  /** When the answer was accepted, it and nothing else had come in. */
  predicate AnswerAlone(log: Log) {
    log.dropped == log.answer
  }

  /** What acceptance drops is the buffer, and that is all that has come in: AnswerAlone means it was just the answer. */
  lemma AcceptanceDropsBuffer(actions: seq<Action>, e: Env)
    requires Run(actions) && After(actions).pc == InSection && After(actions).sock.command == WAIT_HANDSHAKE_RESPONSE
    requires e.wouldBlock && e.verdict.Accept?
    ensures var buffer, t := After(actions).sock.buf + Concat(e.chunks), Section(After(actions).sock, e);
      && t.connected == (buffer != [])
      && (t.connected ==> t.log.received == buffer && t.buf == [] && (AnswerAlone(t.log) <==> |buffer| == e.verdict.answer))
  {
    var s := After(actions);
    ReachableInv(actions);
    ReachableHeard(actions);
    StillThere(s);
    DataOf(s);
    Waiting(s);
    hide Run, After, Inv, ControlInv, ReceiveInv, PongInv, SendInv, QueueInv, Frames, Concat;
    NothingYet();
    assert [] + s.sock.buf == s.sock.buf && s.sock.log.received[0..] == s.sock.log.received;
  }

  lemma NothingSent()
    ensures StreamMessages([]) == []
  {
    NothingYet();
    ParseNothing();
  }

  lemma Waiting(s: Sys)
    requires ControlInv(s) && s.pc == InSection && s.sock.command == WAIT_HANDSHAKE_RESPONSE
    ensures s.sock.open && !s.sock.connected && !s.sock.log.upgraded && s.sock.log.cut == []
  {
    PristinePhases();
    hide Phase, Wire, Settled;
  }

  // ------------------------------------------------------- what is delivered

  /** All messages in a stream of octets: greedy parse, then reassembly. */
  function StreamMessages(stream: Bytes): seq<Message> {
    Messages(Frames(Parse(stream)))
  }

  lemma StreamMessagesMonotone(stream: Bytes, more: Bytes)
    ensures StreamMessages(stream) <= StreamMessages(stream + more)
  {
    hide Parse, Frames, Messages;
    ParseMonotone(stream, more);
    CutsMonotone(Parse(stream), Parse(stream + more));
  }

  lemma HistoryDelivers(log: Log)
    requires HistoryInv(log)
    ensures log.cut <= Parse(log.stream)
    ensures Concat(log.cut) <= log.stream
    ensures DeliveredIn(log.trace) <= StreamMessages(log.stream)
  {
    hide Parse, Frames, Messages, Concat, Greedy, DeliveredIn, PongInv, SendInv;
    var rest := GreedyIsParse(log.cut, log.stream);
    CutsMonotone(log.cut, Parse(log.stream));
  }

  /**
    Main receive theorem.  In every run the frames cut are a beginning of the one
    greedy parse of the octets received behind those dropped at the handshake, and the
    messages delivered so far are a beginning of the messages of that stream.
  */
  lemma DeliveredFromStream(actions: seq<Action>)
    requires Run(actions)
    ensures var log := After(actions).sock.log;
      && log.dropped <= |log.received| && log.stream == log.received[log.dropped..]
      && log.cut <= Parse(log.stream)
      && Concat(log.cut) <= log.stream
      && DeliveredIn(log.trace) <= StreamMessages(log.stream)
  {
    ReachableHeard(actions);
    ReachableHistory(actions);
    HistoryDelivers(After(actions).sock.log);
  }

  /**
    While the connection is open, cut frames and buffer together are all octets that
    came in behind the drop at the handshake.  They are all that the peer has sent
    behind its answer if and only if the answer had come in alone.
  */
  lemma NothingLostWhileOpen(actions: seq<Action>)
    requires Run(actions) && After(actions).sock.open
    ensures var k := After(actions).sock;
      && Greedy(k.log.cut, k.log.stream) && Concat(k.log.cut) + k.buf == k.log.stream
      && (Behind(k.log) == Some(Concat(k.log.cut) + k.buf) <==> AnswerAlone(k.log))
  {
    ReachableInv(actions);
    ReachableHeard(actions);
    OpenExists(After(actions));
    DataOf(After(actions));
    hide ReceiveInv, PongInv, SendInv, Frames, Concat, Greedy, Run, After, ControlInv, Inv;
  }

  lemma OpenExists(s: Sys)
    requires Inv(s) && s.sock.open
    ensures s.deletes == 0
  {
    hide Phase, Wire, Settled, DataInv, HistoryInv, QueueInv, CommandInv, Seen;
  }

  lemma NothingBeforeUpgrade(actions: seq<Action>)
    requires Run(actions) && !After(actions).sock.log.upgraded
    ensures DeliveredIn(After(actions).sock.log.trace) == []
  {
    ReachableInv(actions);
    ReachableHistory(actions);
    NothingYet();
    hide Phase, Wire, PcInv, DataInv, QueueInv, StreamInv, PongInv, SendInv, Frames, Messages, DeliveredIn, Run, After;
  }

  /**
    Chunking independence.  Take two runs that receive the same octets as far as they
    go and drop equally many of them at the handshake.  Then the messages delivered
    are the same as far as they go, however the octets were cut into chunks and
    whenever worker and application ran.
  */
  lemma DeliveriesAgree(a: seq<Action>, b: seq<Action>)
    requires Run(a) && Run(b)
    requires After(a).sock.log.received <= After(b).sock.log.received
    requires After(a).sock.log.upgraded && After(b).sock.log.upgraded ==> After(a).sock.log.dropped == After(b).sock.log.dropped
    ensures var x, y := DeliveredIn(After(a).sock.log.trace), DeliveredIn(After(b).sock.log.trace);
      x <= y || y <= x
  {
    if !After(a).sock.log.upgraded {
      NothingBeforeUpgrade(a);
    } else if !After(b).sock.log.upgraded {
      NothingBeforeUpgrade(b);
    } else {
      hide *;
      var s, t := After(a).sock.log.stream, After(b).sock.log.stream;
      DeliveredFromStream(a);
      DeliveredFromStream(b);
      assert s <= t;
      PrefixSplit(s, t);
      StreamMessagesMonotone(s, t[|s|..]);
    }
  }

  /** In particular when the same answer is accepted in both, and comes in alone. */
  lemma ChunkingIndependence(a: seq<Action>, b: seq<Action>)
    requires Run(a) && Run(b)
    requires After(a).sock.log.received <= After(b).sock.log.received
    requires AnswerAlone(After(a).sock.log) && AnswerAlone(After(b).sock.log)
    requires After(a).sock.log.upgraded && After(b).sock.log.upgraded ==> After(a).sock.log.answer == After(b).sock.log.answer
    ensures var x, y := DeliveredIn(After(a).sock.log.trace), DeliveredIn(After(b).sock.log.trace);
      x <= y || y <= x
  {
    hide Run, After, DeliveredIn;
    DeliveriesAgree(a, b);
  }

  /**
    Between ticks, with no whole frame waiting, exactly the messages of the stream have
    been delivered: those of all the peer has sent behind its answer, if that came alone.
  */
  lemma CaughtUp(actions: seq<Action>)
    requires Run(actions) && After(actions).pc == LoopTest && After(actions).sock.command == IDLE
    requires CheckSize(After(actions).sock.buf) == 0
    ensures var log := After(actions).sock.log;
      && DeliveredIn(log.trace) == StreamMessages(log.stream)
      && (AnswerAlone(log) ==> Behind(log).Some? && DeliveredIn(log.trace) == StreamMessages(Behind(log).value))
  {
    var k := After(actions).sock;
    SettledBetweenTicks(actions);
    FieldsMean(actions);
    NothingLostWhileOpen(actions);
    AllCut(k.log.cut, k.buf, k.log.stream);
    hide Parse, Frames, Messages, DeliveredIn, Run, After, Settled, OpenFragment, OpenSlot, NothingDropped;
  }

  /** Two runs that have caught up on the same octets, answer alone, have delivered the same messages. */
  lemma SameOctetsSameMessages(a: seq<Action>, b: seq<Action>)
    requires Run(a) && After(a).pc == LoopTest && After(a).sock.command == IDLE && CheckSize(After(a).sock.buf) == 0
    requires Run(b) && After(b).pc == LoopTest && After(b).sock.command == IDLE && CheckSize(After(b).sock.buf) == 0
    requires AnswerAlone(After(a).sock.log) && AnswerAlone(After(b).sock.log)
    requires After(a).sock.log.received == After(b).sock.log.received && After(a).sock.log.answer == After(b).sock.log.answer
    ensures DeliveredIn(After(a).sock.log.trace) == DeliveredIn(After(b).sock.log.trace)
  {
    CaughtUp(a);
    CaughtUp(b);
    hide Run, After, CheckSize, StreamMessages, DeliveredIn;
  }

  /** A failing read loses the whole frames in the buffer: everything was cut if and only if none was waiting. */
  lemma FailingReadLoses(k: Sock, chunks: seq<Bytes>)
    requires DataInv(k) && k.open
    ensures var t := Recv(k, chunks, false);
      && t.buf == [] && t.log.cut == k.log.cut
      && (t.log.cut == Parse(t.log.stream) <==> CheckSize(k.buf + Concat(chunks)) == 0)
  {
    hide CheckSize, Parse, Greedy, Concat, ReceiveInv, PongInv, SendInv, Frames;
    StreamGrows(k.log.cut, k.buf, k.log.stream, Concat(chunks));
    AllCut(k.log.cut, k.buf + Concat(chunks), k.log.stream + Concat(chunks));
  }
}
