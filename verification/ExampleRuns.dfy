/**
  Runs, for every handshake answer: that a connection succeeds, that a fragmented
  message comes in, and the two ways in which the program loses what it has received.
*/
module ExampleRuns {
  import opened Bytes
  import opened FrameSpec
  import opened Stream
  import opened Reassembly
  import opened SocketSpec
  import opened SocketProofs
  import opened System
  import opened SystemInvariant
  import opened SystemTheorems
  import opened ReceiveTheorems

  const NO_MASK: Mask := [0, 0, 0, 0]

  /** What a quiet environment with these octets decides; an accepted answer takes up `n` of them. */
  function Quiet(chunks: seq<Bytes>, wouldBlock: bool, n: nat): Env {
    Env(true, chunks, wouldBlock, Accept(n), false, 0, NO_MASK, NO_MASK)
  }

  // ------------------------------------------------------------ a connection

  /** The socket with its handshake sent. */
  const ASKED := Sock(WAIT_HANDSHAKE_RESPONSE, true, false, true, 0, [], [], [], false,
                      Log([Handshake], [], [], 0, 0, [], [], [], false))

  /** The socket right after a connection whose answer, of `n` octets, came in with the octets `first`. */
  function JustUp(first: Bytes, n: nat): Sock {
    Sock(IDLE, true, true, true, 0, [], [], [], false, Log([Handshake], [], first, n, |first|, [], [], [Connected], true))
  }

  lemma ConnectingTo() returns (actions: seq<Action>)
    ensures Run(actions)
    ensures After(actions) == Sys(FRESH.(command := CONNECT_TO_HOST, worker := true), LoopTest, Calm, false, 0)
  {
    Extend([], Spawn);
    Extend([] + [Spawn], StoreThread);
    Extend([] + [Spawn] + [StoreThread], StoreCommand);
    actions := [] + [Spawn] + [StoreThread] + [StoreCommand];
  }

  lemma Asking(e: Env)
    requires e.ok
    ensures var k := FRESH.(command := CONNECT_TO_HOST, worker := true);
      && Section(k, e) == k.(command := SEND_HANDSHAKE, open := true)
      && Section(k.(command := SEND_HANDSHAKE, open := true), e) == ASKED
  {
  }

  lemma AcceptedAnswer(first: Bytes, n: nat)
    requires first != []
    ensures Section(ASKED, Quiet([first], true, n)) ==
      JustUp(first, n).(command := INFORM_CONNECTED, log := JustUp(first, n).log.(trace := []))
  {
    assert Concat([first]) == first + Concat([]) == first;
    assert [] + first == first;
  }

  /** When all goes well, a run leads to a live connection; the answer is at the front of what comes in first. */
  lemma ConnectionWith(first: Bytes, n: nat) returns (actions: seq<Action>)
    requires first != []
    ensures Run(actions) && After(actions) == Sys(JustUp(first, n), LoopTest, Calm, false, 0)
  {
    actions := ConnectingTo();
    var e := Quiet([first], true, n);
    Asking(e);
    AcceptedAnswer(first, n);
    hide Run, After, Section;
    actions := OneIteration(actions, e);
    actions := OneIteration(actions, e);
    assert After(actions).sock == ASKED;
    actions := OneIteration(actions, e);
    assert [] + [Connected] == [Connected];
    Extend(actions, Worker(e));
    actions := actions + [Worker(e)];
  }

  predicate LiveAtLoopTest(s: Sys) {
    s.pc == LoopTest && s.sock.command == IDLE && s.sock.connected && s.sock.log.trace == [Connected]
  }

  /** The theorems are not about nothing: every answer that is accepted leads to a live connection. */
  lemma AConnectionSucceeds(answer: Bytes) returns (actions: seq<Action>)
    requires answer != []
    ensures Run(actions) && LiveAtLoopTest(After(actions))
  {
    actions := ConnectionWith(answer, |answer|);
  }

  // ------------------------------------------------------------ small frames

  /** An unmasked frame with one octet of payload. */
  function Small(f: RecvFrame): Bytes
    requires |f.data| == 1
  {
    [(if f.fin then 0x80 else 0) + f.opcode, 1, f.data[0]]
  }

  lemma SmallReads(f: RecvFrame)
    requires |f.data| == 1 && IsData(f)
    ensures CheckSize(Small(f)) == 3 && FrameOf(Small(f)) == [f]
  {
    assert ParseHeader(Small(f)) == Some(Header(f.fin, f.opcode, None, 2, 1));
    assert Small(f)[2..3] == f.data;
  }

  /** The text "A", in one frame. */
  const TEXT_A := RecvFrame(TEXT, true, [65])

  lemma TextReads()
    ensures Parse(Small(TEXT_A)) == [Small(TEXT_A)] && StreamMessages(Small(TEXT_A)) == [TextMessage([65])]
  {
    var octets := Small(TEXT_A);
    SmallReads(TEXT_A);
    ParseStep(octets);
    ParseNothing();
    FramesSnoc([], octets);
    NothingYet();
    MessagesSnoc([], TEXT_A);
    VisibleExact([65]);
    hide CheckSize, FrameOf, Parse, Frames, Messages;
    assert octets[..3] == octets && octets[3..] == [];
    assert [] + [octets] == [octets] && [octets] + [] == [octets] && [] + [TEXT_A] == [TEXT_A];
  }

  /** An IDLE section of a socket with nothing else to do, when one small frame comes in. */
  lemma TickWith(k: Sock, f: RecvFrame, n: nat)
    requires |f.data| == 1 && IsData(f) && k.command == IDLE && k.connected && k.sendQ == [] && k.buf == []
    ensures Section(k, Quiet([Small(f)], true, n)) == Took(k, f)
  {
    var octets := Small(f);
    SmallReads(f);
    hide CheckSize, FrameOf, AddData, Small;
    assert Concat([octets]) == octets + Concat([]) == octets;
    assert [] + octets == octets && octets[..3] == octets && octets[3..] == [];
  }

  /** The socket with that frame cut and in its list. */
  function Took(k: Sock, f: RecvFrame): Sock
    requires |f.data| == 1
  {
    k.(recvQ := AddData(k.recvQ, f), error := false,
       log := k.log.(received := k.log.received + Small(f), stream := k.log.stream + Small(f), cut := k.log.cut + [Small(f)]))
  }

  // --------------------------------------------- more comes in with the answer

  lemma Trace()
    ensures DeliveredIn([Connected]) == []
    ensures SlotDelivery(Some(TEXT_A)) == [TextMessage([65])]
    ensures DeliveredIn([Connected] + AsEvents([TextMessage([65])])) == [TextMessage([65])]
  {
    VisibleExact([65]);
    DeliveredAll([Connected], [TextMessage([65])]);
  }

  /** The socket with the text in its list. */
  function TextHeld(answer: Bytes): Sock {
    Took(JustUp(answer, |answer|), TEXT_A)
  }

  predicate TextDelivered(s: Sys, answer: Bytes) {
    && s.pc == LoopTest && s.sock.command == IDLE
    && s.sock.log == TextHeld(answer).log.(trace := [Connected] + AsEvents([TextMessage([65])]))
  }

  lemma TextInformed(answer: Bytes)
    ensures var s := Sys(TextHeld(answer), Informing(0, true), Calm, false, 0);
      InformNode(s).pc.Informing? && TextDelivered(InformNode(InformNode(s)), answer)
  {
    Trace();
    assert AddData([], TEXT_A) == [Some(TEXT_A)];
    hide AsEvents, SlotDelivery, DeliveredIn, AddData, Small;
  }

  lemma HeldIs(s: Sys, answer: Bytes)
    ensures s.sock == TextHeld(answer) && s.pc == SecondSwitch ==> Second(s) == s.(pc := Informing(0, true))
  {
    assert AddData([], TEXT_A) == [Some(TEXT_A)];
    hide Small;
  }

  /** The text comes in after the answer and is delivered. */
  lemma TextArrives(answer: Bytes) returns (actions: seq<Action>)
    requires answer != []
    ensures Run(actions) && TextDelivered(After(actions), answer)
  {
    var e := Quiet([Small(TEXT_A)], true, 0);
    actions := ConnectionWith(answer, |answer|);
    TickWith(JustUp(answer, |answer|), TEXT_A, 0);
    TextInformed(answer);
    HeldIs(Sys(TextHeld(answer), SecondSwitch, Calm, false, 0), answer);
    hide Run, After, Section, AsEvents, InformNode, Second, Took, Small;
    actions := OneIteration(actions, e);
    Extend(actions, Worker(e));
    actions := actions + [Worker(e)];
    Extend(actions, Worker(e));
    actions := actions + [Worker(e)];
  }

  /** A live socket between ticks that was sent the answer and the text, and has delivered `ms`. */
  predicate GotText(s: Sys, answer: Bytes, ms: seq<Message>) {
    && s.pc == LoopTest && s.sock.command == IDLE
    && s.sock.log.received == answer + Small(TEXT_A) && Behind(s.sock.log) == Some(Small(TEXT_A))
    && DeliveredIn(s.sock.log.trace) == ms
  }

  /**
    Octets behind the answer are lost when they come in with it.  For every answer, two
    runs on the same octets, answer and text: in one read nothing is delivered, in two
    the text is.
  */
  lemma AnswerNotAloneLoses(answer: Bytes) returns (together: seq<Action>, apart: seq<Action>)
    requires answer != []
    ensures Run(together) && GotText(After(together), answer, [])
    ensures Run(apart) && GotText(After(apart), answer, [TextMessage([65])])
  {
    together := ConnectionWith(answer + Small(TEXT_A), |answer|);
    apart := TextArrives(answer);
    Trace();
    hide Run, After, AsEvents, DeliveredIn, Small;
    assert (answer + Small(TEXT_A))[|answer|..] == Small(TEXT_A);
  }

  // ------------------------------------------------------------ a failing read

  lemma FailingTick(k: Sock, octets: Bytes, n: nat)
    requires k.command == IDLE && k.connected && k.sendQ == []
    ensures Section(k, Quiet([octets], false, n)) ==
      Close(k).(command := INFORM_DISCONNECTED, error := true,
                log := k.log.(received := k.log.received + octets, stream := k.log.stream + octets))
  {
    assert Concat([octets]) == octets + Concat([]) == octets;
  }

  /** A socket on its way out that was sent the text, behind an answer that came alone, and has not cut it. */
  predicate NeverCut(k: Sock) {
    && AnswerAlone(k.log) && Behind(k.log) == Some(Small(TEXT_A))
    && k.log.cut == [] && DeliveredIn(k.log.trace) == [] && ShuttingDown(k.command)
  }

  /** For every answer, a run in which a whole frame is received and lost, because the read that brings it fails. */
  lemma FailingReadExample(answer: Bytes) returns (actions: seq<Action>)
    requires answer != []
    ensures Run(actions) && NeverCut(After(actions).sock)
    ensures StreamMessages(Small(TEXT_A)) == [TextMessage([65])]
  {
    actions := ConnectionWith(answer, |answer|);
    FailingTick(JustUp(answer, |answer|), Small(TEXT_A), 0);
    TextReads();
    Trace();
    hide Run, After, Section, StreamMessages, Small;
    actions := OneIteration(actions, Quiet([Small(TEXT_A)], false, 0));
    assert (answer + Small(TEXT_A))[|answer|..] == Small(TEXT_A);
  }

  // ------------------------------------------------------------ a fragmented message

  const FRAGMENT_A := RecvFrame(TEXT, false, [65])
  const FRAGMENT_B := RecvFrame(CONTINUATION, true, [66])

  /** The socket between ticks with the first of two fragments in its list, the second one waiting at the transport. */
  ghost predicate FragmentWaits(actions: seq<Action>, e: Env) {
    var s := After(actions);
    && s.pc == InSection && s.deletes == 0 && s.sock.recvQ == [Some(FRAGMENT_A)]
    && Run(actions + [Worker(e)]) && After(actions + [Worker(e)]).sock == Took(s.sock, FRAGMENT_B)
  }

  lemma FirstFragmentStays(k: Sock)
    requires k.recvQ == [Some(FRAGMENT_A)] && k.command == IDLE
    ensures var s := Sys(k, SecondSwitch, Calm, false, 0);
      && Second(s).pc.Informing? && InformNode(Second(s)).pc.Informing?
      && InformNode(InformNode(Second(s))) == s.(pc := LoopTest)
  {
    assert k.log.trace + AsEvents([]) == k.log.trace;
    assert [Some(FRAGMENT_A)][0 := Some(FRAGMENT_A)] == [Some(FRAGMENT_A)];
  }

  lemma FirstFragmentHeld(answer: Bytes)
    ensures Took(JustUp(answer, |answer|), FRAGMENT_A).recvQ == [Some(FRAGMENT_A)]
  {
    assert AddData([], FRAGMENT_A) == [Some(FRAGMENT_A)];
  }

  lemma FirstFragment(answer: Bytes) returns (actions: seq<Action>)
    requires answer != []
    ensures Run(actions) && After(actions) == Sys(Took(JustUp(answer, |answer|), FRAGMENT_A), LoopTest, Calm, false, 0)
  {
    var k := JustUp(answer, |answer|);
    var held := Took(k, FRAGMENT_A);
    var e := Quiet([Small(FRAGMENT_A)], true, 0);
    actions := ConnectionWith(answer, |answer|);
    FirstFragmentHeld(answer);
    TickWith(k, FRAGMENT_A, 0);
    assert held.command == IDLE;
    FirstFragmentStays(held);
    hide Run, After, Section, InformNode, Second, Took, Small;
    actions := OneIteration(actions, e);
    Extend(actions, Worker(e));
    actions := actions + [Worker(e)];
    Extend(actions, Worker(e));
    actions := actions + [Worker(e)];
  }

  /** For every answer, a run in which a data frame meets an open fragment. */
  lemma FragmentsArrive(answer: Bytes) returns (actions: seq<Action>, e: Env)
    requires answer != []
    ensures Run(actions) && FragmentWaits(actions, e)
  {
    e := Quiet([Small(FRAGMENT_B)], true, 0);
    actions := FirstFragment(answer);
    var held := Took(JustUp(answer, |answer|), FRAGMENT_A);
    FirstFragmentHeld(answer);
    TickWith(held, FRAGMENT_B, 0);
    assert held.command == IDLE;
    hide Run, After, Section, AddData, Small;
    Extend(actions, Worker(e));
    actions := actions + [Worker(e)];
    Extend(actions, Worker(e));
  }
}
