/**
  End to end over runs: what one run of the program hands to its transport, another
  run delivers, whatever both of them do besides.
*/
module EndToEnd {
  import opened Bytes
  import opened FrameSpec
  import opened FrameProofs
  import opened Stream
  import opened Reassembly
  import opened SocketSpec
  import opened SocketProofs
  import opened System
  import opened SystemTheorems
  import opened ReceiveTheorems

  /** The messages that an action of the application, and those of a run, stand for. */
  function TextOf(a: Action): seq<Message> {
    if a.Text? && a.text != [] then [TextMessage(a.text)] else []
  }

  function TextsIn(actions: seq<Action>): seq<Message> {
    if actions == [] then [] else TextsIn(actions[..|actions| - 1]) + TextOf(actions[|actions| - 1])
  }

  /** No frame reaches the 32-bit limit of the size checker. */
  ghost predicate Fit(frames: seq<Bytes>) {
    forall i :: 0 <= i < |frames| ==> |frames[i]| < UINT_LIMIT
  }

  /** The accepted frames are whole, and their messages are these. */
  ghost predicate Says(accepted: seq<Bytes>, texts: seq<Message>) {
    Fit(accepted) ==>
      && (forall i :: 0 <= i < |accepted| ==> Whole(accepted[i]))
      && Messages(Frames(accepted)) == texts && OpenFragment(Frames(accepted)) == []
  }

  // --------------------------------------------------- one more accepted frame

  lemma EncodedReads(opcode: Opcode, mask: Mask, payload: Bytes)
    requires |Encode(opcode, Some(mask), payload)| < UINT_LIMIT
    ensures var e := Encode(opcode, Some(mask), payload);
      Whole(e) && FrameOf(e) == [RecvFrame(opcode, true, if SkipsPayload(opcode) then [] else payload)]
    ensures |payload| < UINT_LIMIT
  {
    var e := Encode(opcode, Some(mask), payload);
    EncodeRoundTrip(opcode, Some(mask), payload, []);
    FirstOctet(opcode, Some(mask), payload);
    assert e + [] == e;
    hide CheckSize;
  }

  lemma FitSplit(frames: seq<Bytes>, f: Bytes)
    ensures Fit(frames + [f]) <==> Fit(frames) && |f| < UINT_LIMIT
  {
    if Fit(frames + [f]) {
      assert forall i :: 0 <= i < |frames| ==> (frames + [f])[i] == frames[i];
      assert (frames + [f])[|frames|] == f;
    }
  }

  lemma SaysParts(accepted: seq<Bytes>, texts: seq<Message>)
    requires Fit(accepted)
    ensures Says(accepted, texts) <==>
      && (forall i :: 0 <= i < |accepted| ==> Whole(accepted[i]))
      && Messages(Frames(accepted)) == texts && OpenFragment(Frames(accepted)) == []
  {
    hide Whole, Frames, Messages, OpenFragment;
  }

  lemma UnfitSays(accepted: seq<Bytes>, texts: seq<Message>)
    requires !Fit(accepted)
    ensures Says(accepted, texts)
  {
    hide Whole, Frames, Messages, OpenFragment;
  }

  lemma FrameSays(frames: seq<RecvFrame>, texts: seq<Message>, opcode: Opcode, payload: Bytes)
    requires Messages(frames) == texts && OpenFragment(frames) == [] && |payload| < UINT_LIMIT
    requires (opcode == TEXT && payload != []) || opcode == PING || opcode == PONG
    ensures var more := frames + [RecvFrame(opcode, true, if SkipsPayload(opcode) then [] else payload)];
      && Messages(more) == texts + (if opcode == TEXT then [TextMessage(payload)] else [])
      && OpenFragment(more) == []
  {
    hide Messages, OpenFragment;
    var f := RecvFrame(opcode, true, if SkipsPayload(opcode) then [] else payload);
    if opcode == TEXT {
      MessagesSnoc(frames, f);
      VisibleExact(payload);
    } else {
      NonDataFrame(frames, f);
      assert texts + [] == texts;
    }
  }

  lemma SaysMore(accepted: seq<Bytes>, texts: seq<Message>, opcode: Opcode, mask: Mask, payload: Bytes)
    requires Says(accepted, texts)
    requires (opcode == TEXT && payload != []) || opcode == PING || opcode == PONG
    ensures Says(accepted + [Encode(opcode, Some(mask), payload)],
      texts + (if opcode == TEXT then [TextMessage(payload)] else []))
  {
    hide *;
    var e := Encode(opcode, Some(mask), payload);
    var more := texts + (if opcode == TEXT then [TextMessage(payload)] else []);
    FitSplit(accepted, e);
    if Fit(accepted + [e]) {
      EncodedReads(opcode, mask, payload);
      FramesSnoc(accepted, e);
      SaysParts(accepted, texts);
      FrameSays(Frames(accepted), texts, opcode, payload);
      SaysParts(accepted + [e], more);
    } else {
      UnfitSays(accepted + [e], more);
    }
  }

  // ------------------------------------------------------------ every step

  lemma {:induction false} SendLoopAccepts(s: Sock, q: seq<Bytes>, failAt: nat)
    ensures SendLoop(s, q, failAt).log.accepted == s.log.accepted
    decreases |q|
  {
    if q != [] && s.connected && failAt > 0 {
      SendLoopAccepts(Send(s, Queued(q[0]), true), q[1..], failAt - 1);
    }
  }

  lemma PingSays(k: Sock, mask: Mask, texts: seq<Message>)
    requires Says(k.log.accepted, texts)
    ensures Says(SendPing(k, mask).log.accepted, texts)
  {
    var (id, counter) := NextId(k.nextId);
    SaysMore(k.log.accepted, texts, PING, mask, Decimal(id));
    assert texts + [] == texts;
    hide Says, Encode, Decimal, NextId;
  }

  lemma CutSays(k: Sock, mask: Mask, texts: seq<Message>)
    requires Says(k.log.accepted, texts)
    ensures Says(CutOne(k, mask).log.accepted, texts)
  {
    hide CheckSize, FrameOf, AddData, Encode, Says;
    var cut := k.buf[..CheckSize(k.buf)];
    if FrameOf(cut) != [] {
      SaysMore(k.log.accepted, texts, PONG, mask, FrameOf(cut)[0].data);
      assert texts + [] == texts;
    }
  }

  lemma IdleSectionSays(k: Sock, e: Env, texts: seq<Message>)
    requires Says(k.log.accepted, texts)
    ensures Says(IdleSection(k, e).log.accepted, texts)
  {
    var s1 := if e.pingDue && k.connected then SendPing(k, e.mask) else k;
    PingSays(k, e.mask, texts);
    SendLoopAccepts(s1, s1.sendQ, e.failAt);
    var s2 := if s1.connected then IdleSend(s1, e.failAt) else s1;
    var r := Recv(s2, e.chunks, e.wouldBlock);
    assert r.log.accepted == s1.log.accepted by {
      hide SendLoop, SendPing, Concat;
    }
    CutSays(r, e.pongMask, texts);
    hide SendPing, SendLoop, Recv, CutOne, Says;
    assert s2.log.accepted == s1.log.accepted;
  }

  lemma CloseAccepts(k: Sock, ok: bool, mask: Mask)
    ensures SendClose(k, ok, mask).log.accepted == k.log.accepted
  {
    hide Encode, Decimal, NextId;
  }

  lemma WaitAccepts(k: Sock, chunks: seq<Bytes>, wouldBlock: bool, verdict: Verdict)
    ensures WaitHandshake(k, chunks, wouldBlock, verdict).log.accepted == k.log.accepted
  {
    hide Concat;
  }

  lemma SectionSays(k: Sock, e: Env, texts: seq<Message>)
    requires Says(k.log.accepted, texts)
    ensures Says(Section(k, e).log.accepted, texts)
  {
    hide IdleSection, SendClose, WaitHandshake, Says;
    IdleSectionSays(k, e, texts);
    CloseAccepts(k, e.ok, e.mask);
    WaitAccepts(k, e.chunks, e.wouldBlock, e.verdict);
  }

  lemma OutsideAccepts(s: Sys)
    ensures Second(s).sock.log.accepted == s.sock.log.accepted
    ensures s.pc.Informing? ==> InformNode(s).sock.log.accepted == s.sock.log.accepted
  {
    hide SlotDelivery, AsEvents, Informed, Unfinished;
  }

  lemma WorkerSays(s: Sys, e: Env, texts: seq<Message>)
    requires Says(s.sock.log.accepted, texts)
    ensures Says(WorkerStep(s, e).sock.log.accepted, texts)
  {
    hide Section, SendClose, Second, InformNode, Says;
    SectionSays(s.sock, e, texts);
    CloseAccepts(s.sock, e.ok, e.mask);
    OutsideAccepts(s);
  }

  lemma StepSays(s: Sys, a: Action, texts: seq<Message>)
    requires Says(s.sock.log.accepted, texts)
    ensures Says(Step(s, a).sock.log.accepted, texts + TextOf(a))
  {
    hide WorkerStep, Says, Encode;
    assert texts + [] == texts;
    match a
    case Worker(e) => WorkerSays(s, e, texts);
    case Text(text, mask) =>
      if text != [] {
        SaysMore(s.sock.log.accepted, texts, TEXT, mask, text);
      }
    case _ =>
  }

  /** In every run the accepted frames say the texts, in order, with pings and pongs between them. */
  lemma {:induction false} ReachableSays(actions: seq<Action>)
    ensures Says(After(actions).sock.log.accepted, TextsIn(actions))
  {
    if actions == [] {
      NothingYet();
    } else {
      hide Step, Says, TextOf;
      ReachableSays(actions[..|actions| - 1]);
      StepSays(After(actions[..|actions| - 1]), actions[|actions| - 1], TextsIn(actions[..|actions| - 1]));
    }
  }

  // ---------------------------------------------------------------- two runs

  /** What the octets handed over say. */
  lemma HandedOverSays(q: seq<Bytes>, accepted: seq<Bytes>, texts: seq<Message>)
    requires q <= accepted && Says(accepted, texts) && Fit(accepted)
    ensures Parse(Concat(q)) == q && StreamMessages(Concat(q)) == Messages(Frames(q)) <= texts
  {
    CutsMonotone(q, accepted);
    ParseConcat(q, []);
    ParseNothing();
    hide Whole, Parse, Concat, Frames, Messages, OpenFragment;
    assert Concat(q) + [] == Concat(q) && q + [] == q;
  }

  /**
    Safety, end to end.  One run has received a beginning of the octets that another
    has sent from its queue.  Whatever the two have done besides, and however the
    octets came in, the messages delivered are a beginning of the texts the other
    application has sent, once each and in order.
  */
  lemma DeliveredAreTexts(a: seq<Action>, b: seq<Action>)
    requires Run(a) && Run(b) && Fit(After(a).sock.log.accepted)
    requires After(b).sock.log.stream <= Concat(QueuedIn(After(a).sock.log.wire))
    ensures DeliveredIn(After(b).sock.log.trace) <= TextsIn(a)
  {
    hide *;
    var q, stream := QueuedIn(After(a).sock.log.wire), After(b).sock.log.stream;
    SendFifo(a);
    ReachableSays(a);
    HandedOverSays(q, After(a).sock.log.accepted, TextsIn(a));
    DeliveredFromStream(b);
    PrefixSplit(stream, Concat(q));
    StreamMessagesMonotone(stream, Concat(q)[|stream|..]);
  }

  /**
    Completeness, end to end.  When the sender has sent all it has accepted, and the
    receiver, between ticks, has received all of that and has no whole frame waiting,
    every text has been delivered.
  */
  lemma AllTextsDelivered(a: seq<Action>, b: seq<Action>)
    requires Run(a) && Run(b) && Fit(After(a).sock.log.accepted)
    requires QueuedIn(After(a).sock.log.wire) == After(a).sock.log.accepted
    requires After(b).sock.log.stream == Concat(After(a).sock.log.accepted)
    requires After(b).pc == LoopTest && After(b).sock.command == IDLE && CheckSize(After(b).sock.buf) == 0
    ensures DeliveredIn(After(b).sock.log.trace) == TextsIn(a)
  {
    hide *;
    var accepted := After(a).sock.log.accepted;
    ReachableSays(a);
    HandedOverSays(accepted, accepted, TextsIn(a));
    SaysAll(accepted, TextsIn(a));
    CaughtUp(b);
  }

  lemma SaysAll(accepted: seq<Bytes>, texts: seq<Message>)
    requires Says(accepted, texts) && Fit(accepted)
    ensures Messages(Frames(accepted)) == texts
  {
    hide Whole, Frames, Messages, OpenFragment;
  }
}
