/**
  What goes out, octet by octet, over all runs: which frames the actions of a run ask
  for, and that the frames accepted and the close frames sent are the renderings of
  exactly these (sections 5.1 to 5.5 of RFC 6455).
*/
module OutgoingTheorems {
  import opened Bytes
  import opened FrameSpec
  import opened FrameProofs
  import opened Stream
  import opened Reassembly
  import opened SocketSpec
  import opened SocketProofs
  import opened System
  import opened SystemInvariant
  import opened SystemSteps
  import opened SystemTheorems
  import opened MessageIds

  // ---------------------------------------------------- what a run asks for

  /** What a client sends: one fragment, masked, in the shortest length form. */
  ghost function ClientFrame(opcode: Opcode, mask: Mask, payload: Bytes): WireFrame {
    WireFrame(true, opcode, MinimalForm(|payload|), Some(mask), payload)
  }

  /** The worker is about to serve a live connection. */
  predicate Serving(s: Sys, a: Action) {
    a.Worker? && s.pc == InSection && s.sock.command == IDLE && s.sock.connected
  }

  predicate PingDue(s: Sys, a: Action) {
    Serving(s, a) && a.env.pingDue
  }

  /** A close frame is sent for a release of a live connection, and for a connection that is lost. */
  predicate CloseDue(s: Sys, a: Action) {
    a.Worker? && ((s.pc == InSection && s.sock.command == DISCONNECT) || s.pc == Ending)
  }

  /** Frames in the queue when it is drained. */
  function QueueLength(k: Sock, e: Env): nat {
    |k.sendQ| + if e.pingDue then 1 else 0
  }

  /** The octets to be looked at for a frame, once a read has not failed. */
  function Arrived(k: Sock, e: Env): Bytes {
    k.buf + Concat(e.chunks)
  }

  /** The frame at the front of these octets, if a whole one is there that can be built. */
  function FrontFrame(octets: Bytes): seq<RecvFrame> {
    if CheckSize(octets) == 0 then [] else FrameOf(octets[..CheckSize(octets)])
  }

  /** The ping to be answered. */
  function PingTaken(s: Sys, a: Action): seq<RecvFrame> {
    if Serving(s, a) && a.env.failAt >= QueueLength(s.sock, a.env) && a.env.wouldBlock then
      var f := FrontFrame(Arrived(s.sock, a.env));
      if f != [] && f[0].opcode == PING then f else []
    else []
  }

  /** Ids taken by a run: one for each ping and each close frame. */
  function IdsTaken(actions: seq<Action>): nat {
    if actions == [] then 0
    else
      var (front, a) := (actions[..|actions| - 1], actions[|actions| - 1]);
      IdsTaken(front) + IdsBy(After(front), a)
  }

  function IdsBy(s: Sys, a: Action): nat {
    if PingDue(s, a) || CloseDue(s, a) then 1 else 0
  }

  /** What one action puts into the queue, when `ids` ids have been taken. */
  ghost function AskedBy(s: Sys, a: Action, ids: nat): seq<WireFrame> {
    (if PingDue(s, a) then [ClientFrame(PING, a.env.mask, Decimal(Id(ids + 1)))] else [])
    + (if PingTaken(s, a) != [] then [ClientFrame(PONG, a.env.pongMask, PingTaken(s, a)[0].data)] else [])
    + (if a.Text? && a.text != [] then [ClientFrame(TEXT, a.mask, a.text)] else [])
  }

  ghost function ClosesBy(s: Sys, a: Action, ids: nat): seq<WireFrame> {
    if CloseDue(s, a) then [ClientFrame(CLOSE, a.env.mask, Decimal(Id(ids + 1)))] else []
  }

  /** The frames a run puts into the queue, and the close frames it sends. */
  ghost function Asked(actions: seq<Action>): seq<WireFrame> {
    if actions == [] then []
    else
      var (front, a) := (actions[..|actions| - 1], actions[|actions| - 1]);
      Asked(front) + AskedBy(After(front), a, IdsTaken(front))
  }

  ghost function ClosesAsked(actions: seq<Action>): seq<WireFrame> {
    if actions == [] then []
    else
      var (front, a) := (actions[..|actions| - 1], actions[|actions| - 1]);
      ClosesAsked(front) + ClosesBy(After(front), a, IdsTaken(front))
  }

  // ----------------------------------------------------------- and what it gets

  /** The close frames among the buffers passed to the transport. */
  function ClosingIn(wire: seq<Sent>): seq<Bytes> {
    if wire == [] then []
    else
      var w := wire[|wire| - 1];
      ClosingIn(wire[..|wire| - 1]) + (if w.Closing? then [w.frame] else [])
  }

  /** FIN and mask bit set, whatever the length. */
  predicate FinalAndMasked(f: Bytes, opcode: Opcode) {
    |f| >= 2 && f[0] == 0x80 + opcode && f[1] >= 0x80
  }

  /** One frame as asked for; above 2^32 octets of payload only its first two octets are. */
  ghost predicate IsRendered(f: Bytes, w: WireFrame) {
    && FinalAndMasked(f, w.opcode)
    && (|w.payload| < UINT_LIMIT ==> WellFormed(w) && f == Render(w))
  }

  ghost predicate Rendered(frames: seq<Bytes>, asked: seq<WireFrame>) {
    |frames| == |asked| && forall i :: 0 <= i < |frames| ==> IsRendered(frames[i], asked[i])
  }

  ghost predicate OutInv(k: Sock, asked: seq<WireFrame>, closes: seq<WireFrame>, ids: nat) {
    Rendered(k.log.accepted, asked) && Rendered(ClosingIn(k.log.wire), closes) && k.nextId == Counter(ids)
  }

  lemma EncodedIsRendered(opcode: Opcode, mask: Mask, payload: Bytes)
    ensures IsRendered(Encode(opcode, Some(mask), payload), ClientFrame(opcode, mask, payload))
  {
    FirstOctets(opcode, mask, payload);
    if |payload| < UINT_LIMIT {
      EncodeIsRfcFrame(opcode, Some(mask), payload);
    }
    hide Encode, Render;
  }

  lemma FirstOctets(opcode: Opcode, mask: Mask, payload: Bytes)
    ensures FinalAndMasked(Encode(opcode, Some(mask), payload), opcode)
  {
  }

  lemma RenderedMore(frames: seq<Bytes>, asked: seq<WireFrame>, opcode: Opcode, mask: Mask, payload: Bytes)
    requires Rendered(frames, asked)
    ensures Rendered(frames + [Encode(opcode, Some(mask), payload)], asked + [ClientFrame(opcode, mask, payload)])
  {
    EncodedIsRendered(opcode, mask, payload);
    hide Encode, ClientFrame, IsRendered;
  }

  lemma ClosingSnoc(wire: seq<Sent>, w: Sent)
    ensures ClosingIn(wire + [w]) == ClosingIn(wire) + (if w.Closing? then [w.frame] else [])
  {
    Front(wire, w);
  }

  lemma NextIds(ids: nat)
    ensures NextId(Counter(ids)) == (Id(ids + 1), Counter(ids + 1))
  {
    hide NextId;
  }

  // ------------------------------------------------------------- one section

  lemma {:induction false} SendLoopOut(s: Sock, q: seq<Bytes>, failAt: nat)
    ensures var t := SendLoop(s, q, failAt);
      t.log.accepted == s.log.accepted && t.nextId == s.nextId && ClosingIn(t.log.wire) == ClosingIn(s.log.wire)
    decreases |q|
  {
    if q != [] && s.connected {
      ClosingSnoc(s.log.wire, Queued(q[0]));
      assert ClosingIn(s.log.wire) + [] == ClosingIn(s.log.wire);
      if failAt > 0 {
        hide ClosingIn;
        SendLoopOut(Send(s, Queued(q[0]), true), q[1..], failAt - 1);
      }
    }
  }

  /** Draining the queue: what is left of it, and whether the connection survives. */
  lemma IdleSendOut(s: Sock, failAt: nat)
    requires s.connected
    ensures var t := IdleSend(s, failAt);
      && t.log.accepted == s.log.accepted && t.nextId == s.nextId && ClosingIn(t.log.wire) == ClosingIn(s.log.wire)
      && t.connected == (failAt >= |s.sendQ|) && (t.connected ==> t.buf == s.buf)
  {
    hide SendLoop, ClosingIn;
    SendLoopOut(s, s.sendQ, failAt);
    if s.sendQ != [] {
      SendLoopOutcome(s, s.sendQ, failAt);
    }
  }

  ghost function PongFor(f: seq<RecvFrame>, mask: Mask): seq<Bytes> {
    if f != [] && f[0].opcode == PING then [Encode(PONG, Some(mask), f[0].data)] else []
  }

  lemma CutOut(k: Sock, mask: Mask)
    ensures var t := CutOne(k, mask);
      && t.log.accepted == k.log.accepted + PongFor(FrontFrame(k.buf), mask)
      && t.nextId == k.nextId && t.log.wire == k.log.wire
  {
    hide CheckSize, FrameOf, AddData, Encode;
  }

  lemma IdleRecvOut(k: Sock, e: Env)
    ensures var t := IdleRecv(k, e.chunks, e.wouldBlock, e.pongMask);
      && t.log.accepted == k.log.accepted + (if e.wouldBlock then PongFor(FrontFrame(Arrived(k, e)), e.pongMask) else [])
      && t.nextId == k.nextId && t.log.wire == k.log.wire
  {
    CutOut(Recv(k, e.chunks, e.wouldBlock), e.pongMask);
    hide CutOne, PongFor, FrontFrame, Concat;
  }

  lemma PingOut(k: Sock, mask: Mask, ids: nat)
    requires k.nextId == Counter(ids)
    ensures var t := SendPing(k, mask);
      && t.log.accepted == k.log.accepted + [Encode(PING, Some(mask), Decimal(Id(ids + 1)))]
      && t.nextId == Counter(ids + 1) && t.log.wire == k.log.wire && t.buf == k.buf && t.connected == k.connected
      && |t.sendQ| == |k.sendQ| + 1
  {
    NextIds(ids);
    hide Encode, Decimal, NextId, Counter, Id;
  }

  /** What one IDLE section puts into the queue. */
  lemma IdleSectionOut(k: Sock, e: Env, ids: nat)
    requires k.connected && k.nextId == Counter(ids)
    ensures var t := IdleSection(k, e);
      && t.log.accepted == k.log.accepted
           + (if e.pingDue then [Encode(PING, Some(e.mask), Decimal(Id(ids + 1)))] else [])
           + (if e.failAt >= QueueLength(k, e) && e.wouldBlock then PongFor(FrontFrame(Arrived(k, e)), e.pongMask) else [])
      && t.nextId == Counter(ids + if e.pingDue then 1 else 0)
      && ClosingIn(t.log.wire) == ClosingIn(k.log.wire)
  {
    hide *;
    var s1 := if e.pingDue && k.connected then SendPing(k, e.mask) else k;
    PingOut(k, e.mask, ids);
    IdleSendOut(s1, e.failAt);
    var s2 := IdleSend(s1, e.failAt);
    IdleRecvOut(s2, e);
    IdleSectionIs(k, e);
    QueueAndArrived(k, s1, s2, e);
  }

  lemma QueueAndArrived(k: Sock, s1: Sock, s2: Sock, e: Env)
    requires |s1.sendQ| == |k.sendQ| + (if e.pingDue then 1 else 0)
    ensures QueueLength(k, e) == |s1.sendQ| && (s2.buf == k.buf ==> Arrived(s2, e) == Arrived(k, e))
  {
    hide Concat;
  }

  lemma CloseOut(k: Sock, ok: bool, mask: Mask, ids: nat)
    requires k.nextId == Counter(ids)
    ensures var t := SendClose(k, ok, mask);
      && t.log.accepted == k.log.accepted && t.nextId == Counter(ids + 1)
      && ClosingIn(t.log.wire) == ClosingIn(k.log.wire) + [Encode(CLOSE, Some(mask), Decimal(Id(ids + 1)))]
  {
    NextIds(ids);
    ClosingSnoc(k.log.wire, Closing(Encode(CLOSE, Some(mask), Decimal(Id(ids + 1)))));
    hide Encode, Decimal, NextId, Counter, Id, ClosingIn;
  }

  /** The other steps queue nothing, send no close frame and take no id. */
  ghost predicate QueuesNothing(k: Sock, t: Sock) {
    t.log.accepted == k.log.accepted && t.nextId == k.nextId && ClosingIn(t.log.wire) == ClosingIn(k.log.wire)
  }

  lemma ConnectOut(k: Sock, ok: bool)
    ensures QueuesNothing(k, ConnectToHost(k, ok))
  {
    hide ClosingIn;
  }

  lemma HandshakeOut(k: Sock, ok: bool)
    ensures QueuesNothing(k, SendHandshake(k, ok))
  {
    ClosingSnoc(k.log.wire, Handshake);
    assert ClosingIn(k.log.wire) + [] == ClosingIn(k.log.wire);
    hide ClosingIn;
  }

  lemma WaitOut(k: Sock, chunks: seq<Bytes>, wouldBlock: bool, verdict: Verdict)
    ensures QueuesNothing(k, WaitHandshake(k, chunks, wouldBlock, verdict))
  {
    hide ClosingIn, Concat;
  }

  lemma OutsideOut(s: Sys)
    ensures QueuesNothing(s.sock, Second(s).sock)
    ensures s.pc.Informing? ==> QueuesNothing(s.sock, InformNode(s).sock)
  {
    hide ClosingIn, SlotDelivery, AsEvents, Informed, Unfinished;
  }

  lemma OutIgnored(k: Sock, t: Sock, asked: seq<WireFrame>, closes: seq<WireFrame>, ids: nat)
    requires OutInv(k, asked, closes, ids) && QueuesNothing(k, t)
    ensures OutInv(t, asked + [], closes + [], ids)
  {
    assert asked + [] == asked && closes + [] == closes;
    hide Rendered, ClosingIn, Counter;
  }

  lemma RenderedMaybe(frames: seq<Bytes>, asked: seq<WireFrame>, b: bool, opcode: Opcode, mask: Mask, payload: Bytes)
    requires Rendered(frames, asked)
    ensures Rendered(frames + (if b then [Encode(opcode, Some(mask), payload)] else []),
                     asked + (if b then [ClientFrame(opcode, mask, payload)] else []))
  {
    hide *;
    if b {
      RenderedMore(frames, asked, opcode, mask, payload);
    } else {
      assert frames + [] == frames && asked + [] == asked;
    }
  }

  /** What a section of a live connection asks for, ping and pong apart. */
  lemma ServingAsks(s: Sys, e: Env, ids: nat)
    requires Serving(s, Worker(e))
    ensures var f := PingTaken(s, Worker(e));
      && AskedBy(s, Worker(e), ids) ==
           (if e.pingDue then [ClientFrame(PING, e.mask, Decimal(Id(ids + 1)))] else [])
           + (if f != [] then [ClientFrame(PONG, e.pongMask, f[0].data)] else [])
      && (if e.failAt >= QueueLength(s.sock, e) && e.wouldBlock then PongFor(FrontFrame(Arrived(s.sock, e)), e.pongMask) else [])
           == (if f != [] then [Encode(PONG, Some(e.pongMask), f[0].data)] else [])
      && ClosesBy(s, Worker(e), ids) == [] && IdsBy(s, Worker(e)) == (if e.pingDue then 1 else 0)
  {
    hide Encode, Decimal, Id, ClientFrame, FrontFrame, Arrived, QueueLength;
  }

  lemma OutParts(k: Sock, asked: seq<WireFrame>, closes: seq<WireFrame>, ids: nat)
    ensures OutInv(k, asked, closes, ids) <==>
      Rendered(k.log.accepted, asked) && Rendered(ClosingIn(k.log.wire), closes) && k.nextId == Counter(ids)
  {
    hide Rendered, ClosingIn, Counter;
  }

  lemma ServingOut(s: Sys, e: Env, asked: seq<WireFrame>, closes: seq<WireFrame>, ids: nat)
    requires OutInv(s.sock, asked, closes, ids) && Serving(s, Worker(e)) && s.sock.connected
    ensures OutInv(IdleSection(s.sock, e), asked + AskedBy(s, Worker(e), ids),
      closes + ClosesBy(s, Worker(e), ids), ids + IdsBy(s, Worker(e)))
  {
    hide *;
    var k, text := s.sock, Decimal(Id(ids + 1));
    var f := PingTaken(s, Worker(e));
    var data := if f != [] then f[0].data else [];
    var pinged := k.log.accepted + if e.pingDue then [Encode(PING, Some(e.mask), text)] else [];
    var asked1 := asked + if e.pingDue then [ClientFrame(PING, e.mask, text)] else [];
    OutParts(k, asked, closes, ids);
    IdleSectionOut(k, e, ids);
    ServingAsks(s, e, ids);
    RenderedMaybe(k.log.accepted, asked, e.pingDue, PING, e.mask, text);
    RenderedMaybe(pinged, asked1, f != [], PONG, e.pongMask, data);
    var pong := if f != [] then [ClientFrame(PONG, e.pongMask, data)] else [];
    assert asked + ((if e.pingDue then [ClientFrame(PING, e.mask, text)] else []) + pong) == asked1 + pong;
    assert closes + [] == closes;
    OutParts(IdleSection(k, e), asked1 + pong, closes, ids + if e.pingDue then 1 else 0);
  }

  lemma ClosingOut(k: Sock, ok: bool, mask: Mask, asked: seq<WireFrame>, closes: seq<WireFrame>, ids: nat)
    requires OutInv(k, asked, closes, ids)
    ensures OutInv(SendClose(k, ok, mask), asked, closes + [ClientFrame(CLOSE, mask, Decimal(Id(ids + 1)))], ids + 1)
  {
    hide *;
    OutParts(k, asked, closes, ids);
    CloseOut(k, ok, mask, ids);
    RenderedMore(ClosingIn(k.log.wire), closes, CLOSE, mask, Decimal(Id(ids + 1)));
    OutParts(SendClose(k, ok, mask), asked, closes + [ClientFrame(CLOSE, mask, Decimal(Id(ids + 1)))], ids + 1);
  }

  // ------------------------------------------------------------- every step

  /** An action that asks for nothing. */
  lemma AsksNothing(s: Sys, a: Action, ids: nat)
    requires !Serving(s, a) && !CloseDue(s, a) && (a.Text? ==> a.text == [])
    ensures AskedBy(s, a, ids) == [] && ClosesBy(s, a, ids) == [] && IdsBy(s, a) == 0
  {
  }

  lemma QuietSection(k: Sock, e: Env)
    requires k.command != DISCONNECT && !(k.command == IDLE && k.connected)
    ensures QueuesNothing(k, Section(k, e))
  {
    ConnectOut(k, e.ok);
    HandshakeOut(k, e.ok);
    WaitOut(k, e.chunks, e.wouldBlock, e.verdict);
    hide ClosingIn, ConnectToHost, SendHandshake, WaitHandshake, SendPing, IdleSend, IdleRecv;
  }

  lemma QuietWorker(s: Sys, e: Env)
    requires !Serving(s, Worker(e)) && !CloseDue(s, Worker(e))
    ensures QueuesNothing(s.sock, WorkerStep(s, e).sock)
  {
    hide ClosingIn, Section, Second, InformNode, SendClose;
    if s.pc == InSection {
      QuietSection(s.sock, e);
    } else {
      OutsideOut(s);
    }
  }

  lemma QuietStep(s: Sys, a: Action)
    requires !Serving(s, a) && !CloseDue(s, a) && (a.Text? ==> a.text == [])
    ensures QueuesNothing(s.sock, Step(s, a).sock)
  {
    hide ClosingIn, WorkerStep, Encode;
    if a.Worker? {
      hide Serving, CloseDue;
      QuietWorker(s, a.env);
    }
  }

  lemma CloseStep(s: Sys, a: Action)
    requires CloseDue(s, a)
    ensures a.Worker?
    ensures var t := SendClose(s.sock, a.env.ok, a.env.mask); Step(s, a).sock == t || Step(s, a).sock == t.(command := END)
    ensures !Serving(s, a)
  {
    hide SendClose, IdleSection;
  }

  lemma CloseAsks(s: Sys, a: Action, ids: nat)
    requires CloseDue(s, a)
    ensures AskedBy(s, a, ids) == [] && IdsBy(s, a) == 1
    ensures ClosesBy(s, a, ids) == [ClientFrame(CLOSE, a.env.mask, Decimal(Id(ids + 1)))]
  {
    hide Decimal, Id, ClientFrame;
  }

  lemma CommandIgnored(k: Sock, asked: seq<WireFrame>, closes: seq<WireFrame>, ids: nat)
    requires OutInv(k, asked, closes, ids)
    ensures OutInv(k.(command := END), asked, closes, ids)
  {
    hide Rendered, ClosingIn, Counter;
  }

  lemma TextStep(s: Sys, a: Action, ids: nat)
    requires a.Text? && a.text != []
    ensures var k, t := s.sock, Step(s, a).sock;
      t.log.accepted == k.log.accepted + [Encode(TEXT, Some(a.mask), a.text)] && t.log.wire == k.log.wire && t.nextId == k.nextId
    ensures AskedBy(s, a, ids) == [ClientFrame(TEXT, a.mask, a.text)] && ClosesBy(s, a, ids) == [] && IdsBy(s, a) == 0
  {
    hide Encode, ClientFrame;
  }

  lemma TextOut(s: Sys, a: Action, asked: seq<WireFrame>, closes: seq<WireFrame>, ids: nat)
    requires OutInv(s.sock, asked, closes, ids) && a.Text? && a.text != []
    ensures OutInv(Step(s, a).sock, asked + AskedBy(s, a, ids), closes + ClosesBy(s, a, ids), ids + IdsBy(s, a))
  {
    hide *;
    TextStep(s, a, ids);
    OutParts(s.sock, asked, closes, ids);
    RenderedMore(s.sock.log.accepted, asked, TEXT, a.mask, a.text);
    assert closes + [] == closes;
    OutParts(Step(s, a).sock, asked + AskedBy(s, a, ids), closes, ids);
  }

  lemma StepOut(s: Sys, a: Action, asked: seq<WireFrame>, closes: seq<WireFrame>, ids: nat)
    requires OutInv(s.sock, asked, closes, ids)
    ensures OutInv(Step(s, a).sock, asked + AskedBy(s, a, ids), closes + ClosesBy(s, a, ids), ids + IdsBy(s, a))
  {
    hide *;
    if Serving(s, a) {
      ServingStep(s, a);
      ServingOut(s, a.env, asked, closes, ids);
    } else if CloseDue(s, a) {
      CloseStep(s, a);
      CloseAsks(s, a, ids);
      ClosingOut(s.sock, a.env.ok, a.env.mask, asked, closes, ids);
      CommandIgnored(SendClose(s.sock, a.env.ok, a.env.mask), asked, closes + ClosesBy(s, a, ids), ids + 1);
      assert asked + [] == asked;
    } else if a.Text? && a.text != [] {
      TextOut(s, a, asked, closes, ids);
    } else {
      AsksNothing(s, a, ids);
      QuietStep(s, a);
      OutIgnored(s.sock, Step(s, a).sock, asked, closes, ids);
    }
  }

  lemma ServingStep(s: Sys, a: Action)
    requires Serving(s, a)
    ensures a.Worker? && a == Worker(a.env) && s.sock.connected && Step(s, a).sock == IdleSection(s.sock, a.env)
  {
    hide IdleSection;
  }

  lemma NothingAsked()
    ensures Asked([]) == [] && ClosesAsked([]) == [] && IdsTaken([]) == 0
    ensures Rendered(After([]).sock.log.accepted, []) && Rendered(ClosingIn(After([]).sock.log.wire), [])
    ensures After([]).sock.nextId == Counter(0)
  {
  }

  lemma OneActionMore(actions: seq<Action>)
    requires actions != []
    ensures var (front, a) := (actions[..|actions| - 1], actions[|actions| - 1]);
      && After(actions) == Step(After(front), a)
      && Asked(actions) == Asked(front) + AskedBy(After(front), a, IdsTaken(front))
      && ClosesAsked(actions) == ClosesAsked(front) + ClosesBy(After(front), a, IdsTaken(front))
      && IdsTaken(actions) == IdsTaken(front) + IdsBy(After(front), a)
  {
    hide Step, AskedBy, ClosesBy, IdsBy;
  }

  /**
    Main theorem on what goes out.  In every run the frames accepted into the send
    queue are the renderings, by the standard, of exactly the pings, pongs and texts
    that the actions of the run ask for, in their order, each with the mask drawn for
    it and each ping with the next id; and the close frames sent are those of exactly
    the connections to be closed.
  */
  lemma {:induction false} AcceptedAsAsked(actions: seq<Action>)
    ensures var k := After(actions).sock;
      && Rendered(k.log.accepted, Asked(actions))
      && Rendered(ClosingIn(k.log.wire), ClosesAsked(actions))
      && k.nextId == Counter(IdsTaken(actions))
  {
    hide *;
    if actions == [] {
      NothingAsked();
    } else {
      var front, a := actions[..|actions| - 1], actions[|actions| - 1];
      AcceptedAsAsked(front);
      OneActionMore(actions);
      OutParts(After(front).sock, Asked(front), ClosesAsked(front), IdsTaken(front));
      StepOut(After(front), a, Asked(front), ClosesAsked(front), IdsTaken(front));
      OutParts(After(actions).sock, Asked(actions), ClosesAsked(actions), IdsTaken(actions));
    }
  }

  /** Section 5.3 of RFC 6455: every frame the client sends has its mask bit set. */
  lemma EveryFrameMasked(actions: seq<Action>)
    ensures var log := After(actions).sock.log;
      && (forall i :: 0 <= i < |log.accepted| ==> |log.accepted[i]| >= 2 && log.accepted[i][0] >= 0x80 && log.accepted[i][1] >= 0x80)
      && (forall i :: 0 <= i < |ClosingIn(log.wire)| ==> FinalAndMasked(ClosingIn(log.wire)[i], CLOSE))
  {
    AcceptedAsAsked(actions);
    ClosesAreCloses(actions);
    hide After, Asked, ClosesAsked, IdsTaken, Counter, ClosingIn, Render;
  }

  lemma {:induction false} ClosesAreCloses(actions: seq<Action>)
    ensures forall i :: 0 <= i < |ClosesAsked(actions)| ==> ClosesAsked(actions)[i].opcode == CLOSE
  {
    if actions != [] {
      ClosesAreCloses(actions[..|actions| - 1]);
      hide After, Id, Decimal, CloseDue, IdsTaken;
    }
  }

  // ------------------------------------------------------------ ids in order

  /** The pings among frames, and among what was asked for. */
  function PingFrames(frames: seq<Bytes>): seq<Bytes> {
    if frames == [] then []
    else
      var f := frames[|frames| - 1];
      PingFrames(frames[..|frames| - 1]) + (if f != [] && f[0] == 0x80 + PING then [f] else [])
  }

  ghost function PingsAsked(asked: seq<WireFrame>): seq<WireFrame> {
    if asked == [] then []
    else
      var w := asked[|asked| - 1];
      PingsAsked(asked[..|asked| - 1]) + (if w.opcode == PING then [w] else [])
  }

  lemma {:induction false} PingsRendered(frames: seq<Bytes>, asked: seq<WireFrame>)
    requires Rendered(frames, asked)
    ensures Rendered(PingFrames(frames), PingsAsked(asked))
  {
    if frames != [] {
      var n := |frames| - 1;
      assert IsRendered(frames[n], asked[n]);
      assert Rendered(frames[..n], asked[..n]);
      PingsRendered(frames[..n], asked[..n]);
      hide IsRendered;
    }
  }

  lemma {:induction false} PingsJoin(a: seq<WireFrame>, b: seq<WireFrame>)
    ensures PingsAsked(a + b) == PingsAsked(a) + PingsAsked(b)
    decreases |b|
  {
    if b == [] {
      assert a + b == a;
      assert PingsAsked(a) + [] == PingsAsked(a);
    } else {
      var n := |b| - 1;
      PingsJoin(a, b[..n]);
      assert (a + b)[..|a + b| - 1] == a + b[..n] && (a + b)[|a + b| - 1] == b[n];
    }
  }

  lemma PingsBy(s: Sys, a: Action, ids: nat)
    ensures PingsAsked(AskedBy(s, a, ids)) ==
      if PingDue(s, a) then [ClientFrame(PING, a.env.mask, Decimal(Id(ids + 1)))] else []
  {
    var ping := if PingDue(s, a) then [ClientFrame(PING, a.env.mask, Decimal(Id(ids + 1)))] else [];
    var pong := if PingTaken(s, a) != [] then [ClientFrame(PONG, a.env.pongMask, PingTaken(s, a)[0].data)] else [];
    var text := if a.Text? && a.text != [] then [ClientFrame(TEXT, a.mask, a.text)] else [];
    PingsJoin(ping + pong, text);
    PingsJoin(ping, pong);
    NoPingIn(text);
    NoPingIn(pong);
    OnePing(ping);
    hide PingsAsked, PingDue, PingTaken, Id, Decimal, Serving;
    assert ping + [] == ping;
  }

  lemma NoPingIn(w: seq<WireFrame>)
    requires |w| <= 1 && (w != [] ==> w[0].opcode != PING)
    ensures PingsAsked(w) == []
  {
  }

  lemma OnePing(w: seq<WireFrame>)
    requires |w| <= 1 && (w != [] ==> w[0].opcode == PING)
    ensures PingsAsked(w) == w
  {
  }

  /** Frame k of a list carries id k + 1. */
  ghost predicate IdsCount(frames: seq<WireFrame>) {
    forall k :: 0 <= k < |frames| ==> frames[k].payload == Decimal(Id(k + 1))
  }

  /** While a live connection is served no close frame has been sent. */
  lemma NoCloseYet(actions: seq<Action>, a: Action)
    requires Run(actions) && Serving(After(actions), a)
    ensures ClosingIn(After(actions).sock.log.wire) == []
  {
    var s := After(actions);
    ReachableInv(actions);
    hide Run, After, Inv, ControlInv, ClosingIn;
    ControlOf(s);
    ServingUpgraded(s, a);
    WireMeaning(s.sock.log.wire);
    NoClosing(s.sock.log.wire);
  }

  lemma ServingUpgraded(s: Sys, a: Action)
    requires ControlInv(s) && Serving(s, a)
    ensures Wire(s.sock.log.wire) == Upgraded
  {
    hide Phase, Wire, Settled;
  }

  lemma {:induction false} NoClosing(wire: seq<Sent>)
    requires forall i :: 0 <= i < |wire| ==> !wire[i].Closing?
    ensures ClosingIn(wire) == []
  {
    if wire != [] {
      NoClosing(wire[..|wire| - 1]);
    }
  }

  /** Pings first, then close frames, numbered through. */
  lemma {:induction false} AskedInOrder(actions: seq<Action>)
    requires Run(actions)
    ensures var all := PingsAsked(Asked(actions)) + ClosesAsked(actions);
      IdsCount(all) && IdsTaken(actions) == |all|
  {
    if actions != [] {
      hide *;
      var front, a := actions[..|actions| - 1], actions[|actions| - 1];
      var s, ids := After(front), IdsTaken(front);
      RunFront(actions);
      AskedInOrder(front);
      OneActionMore(actions);
      PingsJoin(Asked(front), AskedBy(s, a, ids));
      PingsBy(s, a, ids);
      if PingDue(s, a) {
        PingAloneAsks(s, a, ids);
        NoCloseYet(front, a);
        AcceptedAsAsked(front);
        SameLength(ClosingIn(s.sock.log.wire), ClosesAsked(front));
      }
      OrderStep(PingsAsked(Asked(front)), ClosesAsked(front), s, a, ids);
    }
  }

  lemma RunFront(actions: seq<Action>)
    requires Run(actions) && actions != []
    ensures Run(actions[..|actions| - 1])
  {
  }

  lemma PingAloneAsks(s: Sys, a: Action, ids: nat)
    requires PingDue(s, a)
    ensures Serving(s, a)
  {
    hide Serving;
  }

  lemma SameLength(frames: seq<Bytes>, asked: seq<WireFrame>)
    requires Rendered(frames, asked)
    ensures |frames| == |asked|
  {
    hide IsRendered;
  }

  lemma OrderStep(pings: seq<WireFrame>, closes: seq<WireFrame>, s: Sys, a: Action, ids: nat)
    requires IdsCount(pings + closes) && ids == |pings + closes|
    requires PingDue(s, a) ==> closes == []
    ensures var more := pings + (if PingDue(s, a) then [ClientFrame(PING, a.env.mask, Decimal(Id(ids + 1)))] else []);
      var all := more + (closes + ClosesBy(s, a, ids));
      IdsCount(all) && ids + IdsBy(s, a) == |all|
  {
    hide Decimal, Id;
    var all := pings + closes;
    if PingDue(s, a) {
      var w := ClientFrame(PING, a.env.mask, Decimal(Id(ids + 1)));
      assert !CloseDue(s, a) by {
        PingNoClose(s, a);
      }
      assert (pings + [w]) + (closes + []) == all + [w];
    } else if CloseDue(s, a) {
      var w := ClientFrame(CLOSE, a.env.mask, Decimal(Id(ids + 1)));
      assert (pings + []) + (closes + [w]) == all + [w];
    } else {
      assert (pings + []) + (closes + []) == all;
    }
  }

  lemma PingNoClose(s: Sys, a: Action)
    ensures !(PingDue(s, a) && CloseDue(s, a))
  {
  }

  /**
    In every run the pings accepted and the close frames sent are numbered through, in
    the order in which they were made: on the wire frame k carries the text of id k,
    and the counter stands where so many calls leave it.
  */
  lemma IdsInOrder(actions: seq<Action>)
    requires Run(actions)
    ensures var k := After(actions).sock;
      var all := PingFrames(k.log.accepted) + ClosingIn(k.log.wire);
      && k.nextId == Counter(|all|)
      && forall i :: 0 <= i < |all| ==> WirePayload(all[i]) == Some(Decimal(Id(i + 1)))
  {
    hide *;
    var log := After(actions).sock.log;
    var pings, closes := PingsAsked(Asked(actions)), ClosesAsked(actions);
    AcceptedAsAsked(actions);
    AskedInOrder(actions);
    PingsRendered(log.accepted, Asked(actions));
    RenderedJoin(PingFrames(log.accepted), pings, ClosingIn(log.wire), closes);
    NumberedOnWire(PingFrames(log.accepted) + ClosingIn(log.wire), pings + closes);
  }

  lemma RenderedJoin(f: seq<Bytes>, v: seq<WireFrame>, g: seq<Bytes>, w: seq<WireFrame>)
    requires Rendered(f, v) && Rendered(g, w)
    ensures Rendered(f + g, v + w)
  {
    hide IsRendered;
  }

  lemma NumberedOnWire(frames: seq<Bytes>, asked: seq<WireFrame>)
    requires Rendered(frames, asked) && IdsCount(asked)
    ensures |frames| == |asked| && forall i :: 0 <= i < |frames| ==> WirePayload(frames[i]) == Some(Decimal(Id(i + 1)))
  {
    hide Decimal, Id, IsRendered, WirePayload;
    forall i | 0 <= i < |frames|
      ensures WirePayload(frames[i]) == Some(Decimal(Id(i + 1)))
    {
      IdOnWire(frames[i], asked[i], i);
    }
  }

  lemma IdOnWire(f: Bytes, w: WireFrame, i: nat)
    requires IsRendered(f, w) && w.payload == Decimal(Id(i + 1))
    ensures WirePayload(f) == Some(Decimal(Id(i + 1))) && Whole(f) && |w.payload| <= 8
  {
    IdsCycle(i + 1);
    DecimalShort(Id(i + 1));
    RenderLength(w);
    RenderRoundTrip(w, []);
    hide Decimal, Id, Render, WirePayload, CheckSize, Build;
    assert Render(w) + [] == Render(w);
  }

  lemma RenderLength(w: WireFrame)
    requires WellFormed(w) && |w.payload| <= 8
    ensures |Render(w)| < UINT_LIMIT
  {
  }

  /**
    Every close frame of every run is one: a whole frame with FIN, opcode 8 and mask
    bit, short enough for a control frame, carrying the text of an id.
  */
  lemma CloseFramesAreReal(actions: seq<Action>, f: Bytes)
    requires Run(actions) && Closing(f) in After(actions).sock.log.wire
    ensures Whole(f) && FinalAndMasked(f, CLOSE)
    ensures exists n: nat :: 1 <= n && WirePayload(f) == Some(Decimal(Id(n))) && 1 <= Id(n) <= PERIOD && |Decimal(Id(n))| <= 8
  {
    hide *;
    var log := After(actions).sock.log;
    var pings, closes := PingsAsked(Asked(actions)), ClosesAsked(actions);
    EveryFrameMasked(actions);
    AcceptedAsAsked(actions);
    AskedInOrder(actions);
    var j := ClosingAt(log.wire, f);
    RenderedAt(ClosingIn(log.wire), closes, j);
    CountedAt(pings + closes, |pings| + j);
    assert (pings + closes)[|pings| + j] == closes[j];
    IdOnWire(f, closes[j], |pings| + j);
    IdsCycle(|pings| + j + 1);
    PeriodIs(|pings| + j + 1);
  }

  lemma RenderedAt(frames: seq<Bytes>, asked: seq<WireFrame>, j: nat)
    requires Rendered(frames, asked) && j < |frames|
    ensures |frames| == |asked| && IsRendered(frames[j], asked[j])
  {
    hide IsRendered;
  }

  lemma CountedAt(asked: seq<WireFrame>, j: nat)
    requires IdsCount(asked) && j < |asked|
    ensures asked[j].payload == Decimal(Id(j + 1))
  {
    hide Decimal, Id;
  }

  lemma PeriodIs(n: nat)
    requires n >= 1
    ensures 1 <= (n - 1) % PERIOD + 1 <= PERIOD
  {
  }

  lemma {:induction false} ClosingAt(wire: seq<Sent>, f: Bytes) returns (j: nat)
    requires Closing(f) in wire
    ensures j < |ClosingIn(wire)| && ClosingIn(wire)[j] == f
  {
    var n := |wire| - 1;
    if wire[n] == Closing(f) {
      j := |ClosingIn(wire[..n])|;
    } else {
      assert Closing(f) in wire[..n];
      j := ClosingAt(wire[..n], f);
    }
  }
}
