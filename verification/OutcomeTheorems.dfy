/**
  What each answer of the environment and each release leads to, in every run: when a
  socket opens, connects, stays connected and is given up, when a close frame is sent,
  and what is left of a socket that is closed, released or deleted.
*/
module OutcomeTheorems {
  import opened Bytes
  import opened FrameSpec
  import opened Reassembly
  import opened SocketSpec
  import opened SocketProofs
  import opened System
  import opened SystemInvariant
  import opened SystemSteps
  import opened SystemTheorems
  import opened ReceiveTheorems
  import opened OutgoingTheorems

  /** Closed, with an error, and being given up. */
  ghost predicate LostWithError(s: Sys) {
    !s.sock.open && !s.sock.connected && s.sock.buf == [] && s.sock.error && s.sock.command == INFORM_DISCONNECTED
  }

  // ------------------------------------------------------------- opening

  /** The host is reached, or the connection is given up with nothing opened and nothing sent. */
  lemma ConnectOutcome(actions: seq<Action>, e: Env)
    requires Run(actions) && After(actions).pc == InSection && After(actions).sock.command == CONNECT_TO_HOST
    ensures var s, t := After(actions), Step(After(actions), Worker(e));
      && (e.ok ==> t.sock.open && !t.sock.error && t.sock.command == SEND_HANDSHAKE)
      && (!e.ok ==> !t.sock.open && !t.sock.connected && t.sock.error && OnItsWayOut(t))
      && t.sock.log.wire == s.sock.log.wire && t.sock.log.received == s.sock.log.received
  {
    ReachableInv(actions);
    ControlOf(After(actions));
    hide Run, After, Inv, ControlInv;
    AtOpening(After(actions));
  }

  /** What the commands before a connection say of the socket. */
  lemma AtOpening(s: Sys)
    requires ControlInv(s) && s.pc == InSection && CONNECT_TO_HOST <= s.sock.command <= WAIT_HANDSHAKE_RESPONSE
    ensures !s.sock.connected && !s.sock.log.upgraded && (s.sock.open <==> s.sock.command != CONNECT_TO_HOST)
  {
    hide Phase, Wire, Settled;
  }

  /** The handshake goes out; if that fails the socket is closed and given up. */
  lemma HandshakeOutcome(actions: seq<Action>, e: Env)
    requires Run(actions) && After(actions).pc == InSection && After(actions).sock.command == SEND_HANDSHAKE
    ensures var s, t := After(actions), Step(After(actions), Worker(e));
      && t.sock.log.wire == s.sock.log.wire + [Handshake]
      && (e.ok ==> t.sock.open && !t.sock.error && t.sock.command == WAIT_HANDSHAKE_RESPONSE)
      && (!e.ok ==> LostWithError(t))
  {
    ReachableInv(actions);
    ControlOf(After(actions));
    hide Run, After, Inv, ControlInv;
    AtOpening(After(actions));
  }

  /**
    The answer.  Nothing has come in: the worker goes on waiting.  A failing read or an
    answer that is refused: the socket is closed and given up, not connected.  An
    accepted answer, and nothing else, connects.
  */
  lemma AnswerOutcome(actions: seq<Action>, e: Env)
    requires Run(actions) && After(actions).pc == InSection && After(actions).sock.command == WAIT_HANDSHAKE_RESPONSE
    ensures var s, t := After(actions), Step(After(actions), Worker(e));
      var octets := Arrived(s.sock, e);
      && (!e.wouldBlock ==> LostWithError(t))
      && (e.wouldBlock && octets == [] ==>
            t.sock.command == WAIT_HANDSHAKE_RESPONSE && t.sock.open && !t.sock.connected && t.sock.buf == [] && !t.sock.error)
      && (e.wouldBlock && octets != [] && !e.verdict.Accept? ==>
            && !t.sock.open && !t.sock.connected && t.sock.buf == [] && !t.sock.log.upgraded && OnItsWayOut(t)
            && t.sock.error == e.verdict.RefuseWithError?)
      && (e.wouldBlock && octets != [] && e.verdict.Accept? ==>
            && t.sock.open && t.sock.connected && t.sock.log.answer == e.verdict.answer && t.sock.buf == [] && !t.sock.error
            && t.sock.command == INFORM_CONNECTED)
  {
    ReachableInv(actions);
    ControlOf(After(actions));
    hide Run, After, Inv, ControlInv, Concat;
    AtOpening(After(actions));
  }

  /** A connect that lacks a parameter or a thread starts no worker; only the first leaves an error. */
  lemma StartOutcome(actions: seq<Action>, a: Action)
    requires Run(actions) && Enabled(After(actions), a) && (a.ConnectRefused? || a.Spawn? || a.SpawnFails?)
    ensures var t := Step(After(actions), a);
      && t.sock.error == a.ConnectRefused? && t.sock.buf == [] && !t.sock.worker && t.sock.command == NONE
      && (t.pc == NoWorker <==> !a.Spawn?) && (t.app == Calm <==> !a.Spawn?) && t.deletes == 0
  {
    NoUseAfterDelete(actions, a);
    ReachableInv(actions);
    hide Run, After, Inv, ControlInv, Enabled;
    ControlOf(After(actions));
    StartState(After(actions), a);
  }

  lemma StartState(s: Sys, a: Action)
    requires ControlInv(s) && Enabled(s, a) && (a.ConnectRefused? || a.Spawn? || a.SpawnFails?)
    ensures s.pc == NoWorker && s.app == Calm && s.sock.command == NONE && !s.sock.worker
  {
    hide Phase, Wire, PcInv;
  }

  // ------------------------------------------------ accepted, reached: over runs

  /** This action is the acceptance of an answer. */
  predicate AcceptsAt(s: Sys, a: Action) {
    && a.Worker? && s.pc == InSection && s.sock.command == WAIT_HANDSHAKE_RESPONSE
    && a.env.wouldBlock && Arrived(s.sock, a.env) != [] && a.env.verdict.Accept?
  }

  predicate AcceptedIn(actions: seq<Action>) {
    actions != [] &&
    (AcceptedIn(actions[..|actions| - 1]) || AcceptsAt(After(actions[..|actions| - 1]), actions[|actions| - 1]))
  }

  lemma IdleUpgrades(k: Sock, e: Env)
    ensures IdleSection(k, e).log.upgraded == k.log.upgraded
  {
    var s1 := if e.pingDue && k.connected then SendPing(k, e.mask) else k;
    assert s1.log.upgraded == k.log.upgraded by {
      hide Encode, Decimal, NextId;
    }
    SendLoopHears(s1, s1.sendQ, e.failAt);
    var s2 := if s1.connected then IdleSend(s1, e.failAt) else s1;
    CutHears(Recv(s2, e.chunks, e.wouldBlock), e.pongMask);
    hide SendPing, SendLoop, CutOne, Concat;
  }

  lemma SectionUpgrades(k: Sock, e: Env)
    ensures var s := Sys(k, InSection, Calm, false, 0);
      Section(k, e).log.upgraded == (k.log.upgraded || AcceptsAt(s, Worker(e)))
  {
    IdleUpgrades(k, e);
    CloseFrameHears(k, e.ok, e.mask);
    hide IdleSection, SendClose, Concat;
  }

  lemma WorkerUpgrades(s: Sys, e: Env)
    ensures WorkerStep(s, e).sock.log.upgraded == (s.sock.log.upgraded || AcceptsAt(s, Worker(e)))
  {
    hide Section, SendClose, Second, InformNode, Concat;
    if s.pc == InSection {
      SectionUpgrades(s.sock, e);
    } else {
      CloseFrameHears(s.sock, e.ok, e.mask);
      SecondHears(s);
      if s.pc.Informing? {
        InformHears(s);
      }
    }
  }

  lemma StepUpgrades(s: Sys, a: Action)
    ensures Step(s, a).sock.log.upgraded == (s.sock.log.upgraded || AcceptsAt(s, a))
  {
    hide WorkerStep, Encode, Arrived;
    if a.Worker? {
      hide AcceptsAt;
      WorkerUpgrades(s, a.env);
    }
  }

  /** A socket counts as upgraded exactly when an answer has been accepted. */
  lemma {:induction false} UpgradedExactly(actions: seq<Action>)
    ensures After(actions).sock.log.upgraded <==> AcceptedIn(actions)
  {
    if actions != [] {
      hide Step, AcceptsAt;
      UpgradedExactly(actions[..|actions| - 1]);
      StepUpgrades(After(actions[..|actions| - 1]), actions[|actions| - 1]);
    }
  }

  /** This action reaches the host. */
  predicate ReachesAt(s: Sys, a: Action) {
    a.Worker? && s.pc == InSection && s.sock.command == CONNECT_TO_HOST && a.env.ok
  }

  predicate ReachedIn(actions: seq<Action>) {
    actions != [] &&
    (ReachedIn(actions[..|actions| - 1]) || ReachesAt(After(actions[..|actions| - 1]), actions[|actions| - 1]))
  }

  /** What has to have happened for a callback, a sent frame, an open socket. */
  ghost predicate HasReasons(k: Sock, reached: bool) {
    && (k.open || Handshake in k.log.wire ==> reached)
    && (Connected in k.log.trace || (exists f :: Queued(f) in k.log.wire) ==> k.log.upgraded)
  }

  lemma {:induction false} SendLoopReasons(s: Sock, q: seq<Bytes>, failAt: nat)
    ensures var t := SendLoop(s, q, failAt);
      && (t.open ==> s.open) && t.log.trace == s.log.trace && t.log.upgraded == s.log.upgraded
      && (Handshake in t.log.wire ==> Handshake in s.log.wire)
    decreases |q|
  {
    if q != [] && s.connected && failAt > 0 {
      SendLoopReasons(Send(s, Queued(q[0]), true), q[1..], failAt - 1);
    }
  }

  lemma CutReasons(k: Sock, mask: Mask)
    ensures var t := CutOne(k, mask);
      t.open == k.open && t.log.trace == k.log.trace && t.log.upgraded == k.log.upgraded && t.log.wire == k.log.wire
  {
    hide CheckSize, FrameOf, AddData, Encode;
  }

  lemma ServingReasons(k: Sock, e: Env, reached: bool)
    requires HasReasons(k, reached) && k.connected && k.log.upgraded
    ensures HasReasons(IdleSection(k, e), reached)
  {
    var s1 := if e.pingDue && k.connected then SendPing(k, e.mask) else k;
    PingFrame(k, e.mask);
    SendLoopReasons(s1, s1.sendQ, e.failAt);
    var s2 := IdleSend(s1, e.failAt);
    CutReasons(Recv(s2, e.chunks, e.wouldBlock), e.pongMask);
    IdleSectionIs(k, e);
    hide SendPing, SendLoop, CutOne, IdleSection, Concat;
  }

  lemma WaitReasons(k: Sock, e: Env, reached: bool)
    requires HasReasons(k, reached)
    ensures HasReasons(WaitHandshake(k, e.chunks, e.wouldBlock, e.verdict), reached)
  {
    hide Concat;
  }

  lemma HandshakeReasons(k: Sock, ok: bool, reached: bool)
    requires HasReasons(k, reached) && k.open
    ensures HasReasons(SendHandshake(k, ok), reached)
  {
  }

  lemma CloseReasons(k: Sock, ok: bool, mask: Mask, reached: bool)
    requires HasReasons(k, reached)
    ensures HasReasons(SendClose(k, ok, mask), reached)
  {
    hide Encode, Decimal, NextId;
  }

  lemma OpeningReasons(k: Sock, e: Env, reached: bool)
    requires HasReasons(k, reached) && k.command != IDLE
    requires k.command == SEND_HANDSHAKE ==> k.open
    ensures HasReasons(Section(k, e), reached || (k.command == CONNECT_TO_HOST && e.ok))
  {
    hide SendClose, SendHandshake, WaitHandshake;
    if k.command == SEND_HANDSHAKE {
      HandshakeReasons(k, e.ok, reached);
    } else if k.command == WAIT_HANDSHAKE_RESPONSE {
      WaitReasons(k, e, reached);
    } else if k.command == DISCONNECT {
      CloseReasons(k, e.ok, e.mask, reached);
    }
  }

  lemma WorkerReasons(s: Sys, e: Env, reached: bool)
    requires ControlInv(s) && HasReasons(s.sock, reached) && s.pc != NoWorker
    ensures HasReasons(WorkerStep(s, e).sock, reached || ReachesAt(s, Worker(e)))
  {
    if s.pc == InSection {
      SectionFacts(s);
      if s.sock.command == IDLE {
        ServingReasons(s.sock, e, reached);
      } else {
        OpeningReasons(s.sock, e, reached);
      }
      hide Section, HasReasons, IdleSection, ControlInv;
      assert s.sock.command == IDLE ==> Section(s.sock, e) == IdleSection(s.sock, e) by {
        hide *;
        IdleIs(s.sock, e);
      }
    } else {
      OutsideReasons(s, e, reached);
      hide WorkerStep, HasReasons, ControlInv;
    }
  }

  lemma IdleIs(k: Sock, e: Env)
    ensures k.command == IDLE ==> Section(k, e) == IdleSection(k, e)
  {
    hide IdleSection;
  }

  lemma SectionFacts(s: Sys)
    requires ControlInv(s) && s.pc == InSection
    ensures s.sock.command == IDLE ==> s.sock.connected && s.sock.open && s.sock.log.upgraded
    ensures s.sock.command == SEND_HANDSHAKE || s.sock.command == WAIT_HANDSHAKE_RESPONSE ==> s.sock.open
  {
    hide Phase, Wire, Settled;
  }

  lemma SecondReasons(s: Sys, reached: bool)
    requires HasReasons(s.sock, reached) && (s.sock.command == INFORM_CONNECTED ==> s.sock.log.upgraded)
    ensures HasReasons(Second(s).sock, reached)
  {
  }

  lemma InformReasons(s: Sys, reached: bool)
    requires HasReasons(s.sock, reached) && s.pc.Informing?
    ensures HasReasons(InformNode(s).sock, reached)
  {
    hide Informed, Unfinished, SlotDelivery;
    if s.pc.next < |s.sock.recvQ| {
      EventsReceived(SlotDelivery(s.sock.recvQ[s.pc.next]));
    }
  }

  lemma OutsideReasons(s: Sys, e: Env, reached: bool)
    requires ControlInv(s) && HasReasons(s.sock, reached) && s.pc != InSection
    ensures HasReasons(WorkerStep(s, e).sock, reached)
  {
    CloseReasons(s.sock, e.ok, e.mask, reached);
    if s.pc == SecondSwitch {
      AnnouncedFacts(s);
      SecondReasons(s, reached);
    } else if s.pc.Informing? {
      InformReasons(s, reached);
    }
    hide ControlInv, SendClose, Second, InformNode;
  }

  lemma AnnouncedFacts(s: Sys)
    requires ControlInv(s) && s.pc == SecondSwitch
    ensures s.sock.command == INFORM_CONNECTED ==> s.sock.log.upgraded
  {
    hide Phase, Wire, Settled;
  }

  lemma {:induction false} EventsReceived(ms: seq<Message>)
    ensures Connected !in AsEvents(ms)
  {
    if ms != [] {
      EventsReceived(ms[..|ms| - 1]);
    }
  }

  lemma StepReasons(s: Sys, a: Action, reached: bool)
    requires ControlInv(s) && Enabled(s, a) && HasReasons(s.sock, reached)
    ensures HasReasons(Step(s, a).sock, reached || ReachesAt(s, a))
  {
    if a.Worker? {
      WorkerReasons(s, a.env, reached);
      hide WorkerStep, ControlInv, HasReasons;
    } else {
      hide WorkerStep, ControlInv, Encode;
    }
  }

  lemma {:induction false} ReachableReasons(actions: seq<Action>)
    requires Run(actions)
    ensures HasReasons(After(actions).sock, ReachedIn(actions))
  {
    if actions != [] {
      hide Step, ReachesAt, Inv, ControlInv, HasReasons, Enabled;
      var front := actions[..|actions| - 1];
      ReachableReasons(front);
      ReachableInv(front);
      ControlOf(After(front));
      StepReasons(After(front), actions[|actions| - 1], ReachedIn(front));
    }
  }

  /** No answer accepted: never connected, no callback on_connected, nothing from the queue handed over. */
  lemma NeverAccepted(actions: seq<Action>)
    requires Run(actions) && forall i :: 0 <= i < |actions| && actions[i].Worker? ==> !actions[i].env.verdict.Accept?
    ensures var k := After(actions).sock;
      && !k.connected && !k.log.upgraded && Connected !in k.log.trace
      && forall f :: Queued(f) !in k.log.wire
  {
    NoneAccepted(actions);
    UpgradedExactly(actions);
    ReachableReasons(actions);
    ReachableInv(actions);
    ControlOf(After(actions));
    hide Run, After, Inv, AcceptedIn, ReachedIn, PcInv, Phase, Wire, Settled;
  }

  lemma {:induction false} NoneAccepted(actions: seq<Action>)
    requires forall i :: 0 <= i < |actions| && actions[i].Worker? ==> !actions[i].env.verdict.Accept?
    ensures !AcceptedIn(actions)
  {
    if actions != [] {
      NoneAccepted(actions[..|actions| - 1]);
      hide After, Arrived;
    }
  }

  /** The host never reached: never open, no handshake sent, never connected. */
  lemma NeverReached(actions: seq<Action>)
    requires Run(actions) && forall i :: 0 <= i < |actions| && actions[i].Worker? ==> !actions[i].env.ok
    ensures var k := After(actions).sock; !k.open && !k.connected && Handshake !in k.log.wire
  {
    NoneReached(actions);
    ReachableReasons(actions);
    ReachableInv(actions);
    ControlOf(After(actions));
    hide Run, After, Inv, ReachedIn, PcInv, Phase, Wire, Settled;
  }

  lemma {:induction false} NoneReached(actions: seq<Action>)
    requires forall i :: 0 <= i < |actions| && actions[i].Worker? ==> !actions[i].env.ok
    ensures !ReachedIn(actions)
  {
    if actions != [] {
      NoneReached(actions[..|actions| - 1]);
      hide After;
    }
  }

  // ------------------------------------------------------- a live connection

  predicate ClosesAt(octets: Bytes) {
    var f := FrontFrame(octets);
    f != [] && f[0].opcode == CLOSE
  }

  lemma SendsOutcome(k: Sock, e: Env)
    requires k.connected && k.open && k.command == IDLE && NothingDropped(k)
    ensures var s1 := if e.pingDue && k.connected then SendPing(k, e.mask) else k;
      var t := IdleSend(s1, e.failAt);
      && |s1.sendQ| == QueueLength(k, e) && |s1.log.accepted| == |k.log.accepted| + (if e.pingDue then 1 else 0)
      && t.log.accepted == s1.log.accepted && t.log.received == k.log.received && t.sendQ == []
      && (e.failAt >= QueueLength(k, e) ==>
            t.connected && t.open && t.command == IDLE && t.buf == k.buf && QueuedIn(t.log.wire) == t.log.accepted)
      && (e.failAt < QueueLength(k, e) ==> !t.connected && !t.open && t.buf == [] && t.error && t.command == INFORM_DISCONNECTED)
  {
    var s1 := if e.pingDue && k.connected then SendPing(k, e.mask) else k;
    PingDrops(k, e.mask);
    hide SendPing, SendLoop, QueuedIn;
    if s1.sendQ != [] {
      SendLoopHandsOver(s1, s1.sendQ, e.failAt);
      SendLoopOutcome(s1, s1.sendQ, e.failAt);
    } else {
      assert QueuedIn(s1.log.wire) + [] == QueuedIn(s1.log.wire);
    }
  }

  lemma PingDrops(k: Sock, mask: Mask)
    requires NothingDropped(k)
    ensures var t := SendPing(k, mask);
      && t == k.(nextId := t.nextId, sendQ := t.sendQ, log := k.log.(accepted := t.log.accepted))
      && |t.sendQ| == |k.sendQ| + 1 && |t.log.accepted| == |k.log.accepted| + 1 && NothingDropped(t)
  {
    hide Encode, Decimal, NextId, QueuedIn;
  }

  lemma ProcessOutcome(k: Sock, f: RecvFrame, mask: Mask)
    requires k.sendQ == []
    ensures var t := ProcessFrame(k, f, mask);
      && t.open == k.open && t.connected == k.connected && t.buf == k.buf && t.log.wire == k.log.wire
      && t.log.accepted == k.log.accepted + t.sendQ && |t.sendQ| <= 1
      && t.command == (if f.opcode == CLOSE then INFORM_DISCONNECTED else k.command)
      && t.error == (f.opcode == CLOSE || k.error)
  {
    hide AddData, Encode;
  }

  lemma CutOutcome(k: Sock, mask: Mask)
    requires k.sendQ == []
    ensures var t := CutOne(k, mask);
      && t.open == k.open && t.connected == k.connected && t.buf == k.buf[CheckSize(k.buf)..]
      && t.log.accepted == k.log.accepted + t.sendQ && |t.sendQ| <= 1 && t.log.wire == k.log.wire
      && t.command == (if ClosesAt(k.buf) then INFORM_DISCONNECTED else k.command)
      && t.error == (ClosesAt(k.buf) || k.error)
  {
    hide CheckSize, FrameOf, ProcessFrame;
    var cut := k.buf[..CheckSize(k.buf)];
    if FrameOf(cut) != [] {
      ProcessOutcome(k, FrameOf(cut)[0], mask);
    }
  }

  /**
    One section of a live connection.  The queue goes out first, a ping that is due
    with it.  A failing send or read closes the socket and gives the connection up; a
    close frame of the peer gives it up; nothing else does.
  */
  lemma IdleOutcome(actions: seq<Action>, e: Env)
    requires Run(actions) && After(actions).pc == InSection && After(actions).sock.command == IDLE
    ensures var s, t := After(actions), Step(After(actions), Worker(e));
      var sendFails := e.failAt < QueueLength(s.sock, e);
      var octets := Arrived(s.sock, e);
      && (sendFails ==> LostWithError(t) && t.sock.log.received == s.sock.log.received)
      && (!sendFails && !e.wouldBlock ==> LostWithError(t))
      && (!sendFails && e.wouldBlock ==>
            && t.sock.open && t.sock.connected && t.sock.buf == octets[CheckSize(octets)..]
            && t.sock.command == (if ClosesAt(octets) then INFORM_DISCONNECTED else IDLE) && t.sock.error == ClosesAt(octets)
            && HandedOver(s, t, e))
  {
    var s := After(actions);
    ReachableInv(actions);
    ControlOf(s);
    StillThere(s);
    DataOf(s);
    hide *;
    SectionFacts(s);
    QueueInSection(s);
    IdleParts(s, e);
    SendsOutcome(s.sock, e);
    IdleSectionIs(s.sock, e);
    var s1 := if e.pingDue && s.sock.connected then SendPing(s.sock, e.mask) else s.sock;
    ReadOutcome(s, IdleSend(s1, e.failAt), e);
  }

  /** Everything accepted before is handed over; left in the queue is at most the answer to a ping. */
  ghost predicate HandedOver(s: Sys, t: Sys, e: Env) {
    && |t.sock.sendQ| <= 1 && QueuedIn(t.sock.log.wire) + t.sock.sendQ == t.sock.log.accepted
    && |t.sock.log.accepted| == |s.sock.log.accepted| + (if e.pingDue then 1 else 0) + |t.sock.sendQ|
  }

  lemma QueueInSection(s: Sys)
    requires ControlInv(s) && QueueInv(s) && s.pc == InSection && s.sock.command == IDLE
    ensures NothingDropped(s.sock)
  {
    PristinePhases();
    hide Phase, Wire, Settled, NothingDropped, CommandInv;
  }

  lemma IdleParts(s: Sys, e: Env)
    requires s.pc == InSection && s.sock.command == IDLE
    ensures Step(s, Worker(e)) == s.(sock := IdleSection(s.sock, e), pc := SecondSwitch)
  {
    hide IdleSection;
  }

  /** The read behind the sends. */
  lemma ReadOutcome(s: Sys, u: Sock, e: Env)
    requires u.sendQ == [] && |u.log.accepted| == |s.sock.log.accepted| + (if e.pingDue then 1 else 0)
    requires u.connected ==> u.open && u.command == IDLE && u.buf == s.sock.buf && QueuedIn(u.log.wire) == u.log.accepted
    ensures u.connected ==>
      var t := s.(sock := IdleRecv(u, e.chunks, e.wouldBlock, e.pongMask), pc := SecondSwitch);
      var octets := Arrived(s.sock, e);
      && (!e.wouldBlock ==> LostWithError(t))
      && (e.wouldBlock ==>
            && t.sock.open && t.sock.connected && t.sock.buf == octets[CheckSize(octets)..]
            && t.sock.command == (if ClosesAt(octets) then INFORM_DISCONNECTED else IDLE) && t.sock.error == ClosesAt(octets)
            && HandedOver(s, t, e))
    ensures !u.connected && !u.open && u.buf == [] && u.error && u.command == INFORM_DISCONNECTED ==>
      LostWithError(s.(sock := u, pc := SecondSwitch))
  {
    CutOutcome(Recv(u, e.chunks, true), e.pongMask);
    hide CutOne, CheckSize, ClosesAt, QueuedIn, Concat;
  }

  // ---------------------------------------------------------- close frames

  /** Where a release leads: DISCONNECT for a live connection, so that a close frame follows; END otherwise. */
  lemma ReleaseOutcome(actions: seq<Action>)
    requires Run(actions) && Enabled(After(actions), DisconnectAndRelease)
    ensures var s, t := After(actions), Step(After(actions), DisconnectAndRelease);
      && t.released && t.sock.sendQ == []
      && (s.sock.connected ==> t.sock.command == DISCONNECT && t.deletes == 0)
      && (!s.sock.connected && s.pc != NoWorker ==> t.sock.command == END && t.deletes == 0)
      && (s.pc == NoWorker ==> t.deletes == 1)
      && t.pc == s.pc && t.sock.log == s.sock.log
  {
    var s := After(actions);
    NoUseAfterDelete(actions, DisconnectAndRelease);
    ReleaseUnlocks(actions);
    ReachableInv(actions);
    hide *;
    ControlOf(s);
    ReleaseState(s);
    ReleaseLeads(s);
  }

  lemma ReleaseLeads(s: Sys)
    requires s.deletes == 0 && (s.sock.connected || s.sock.worker || s.sock.command != END)
    requires s.pc == NoWorker ==> !s.sock.connected && !s.sock.worker
    requires s.pc != NoWorker ==> s.sock.worker
    ensures var t := Step(s, DisconnectAndRelease);
      && t.released && t.sock.sendQ == []
      && (s.sock.connected ==> t.sock.command == DISCONNECT && t.deletes == 0)
      && (!s.sock.connected && s.pc != NoWorker ==> t.sock.command == END && t.deletes == 0)
      && (s.pc == NoWorker ==> t.deletes == 1)
      && t.pc == s.pc && t.sock.log == s.sock.log
  {
  }

  lemma ReleaseState(s: Sys)
    requires ControlInv(s) && Enabled(s, DisconnectAndRelease) && s.deletes == 0
    ensures s.pc == NoWorker ==> !s.sock.connected && !s.sock.worker && s.sock.command != END
    ensures s.pc != NoWorker ==> s.sock.worker && s.pc != Leaving && s.pc != Closed && s.pc != Detached && s.pc != Gone
  {
    hide Phase, Wire, CommandInv, Seen, Settled;
  }

  /** A release that no close frame follows: not connected, none sent, none about to be. */
  ghost predicate QuietRelease(s: Sys, a: Action) {
    a.DisconnectAndRelease? && !s.sock.connected && s.pc != Ending && ClosingIn(s.sock.log.wire) == []
  }

  ghost predicate ReleasedQuietly(actions: seq<Action>) {
    actions != [] &&
    (ReleasedQuietly(actions[..|actions| - 1]) || QuietRelease(After(actions[..|actions| - 1]), actions[|actions| - 1]))
  }

  ghost predicate CloseInv(s: Sys, quiet: bool) {
    var c, closed := s.sock.command, ClosingIn(s.sock.log.wire) != [];
    && (quiet ==> s.released && !closed && s.pc != Ending && (s.pc != NoWorker ==> c == END))
    && (s.released && !quiet && !closed && s.pc != NoWorker ==> c == DISCONNECT || s.pc == Ending)
    && (!s.released && c == END ==> closed || s.pc == Ending)
    && (s.pc == Leaving || s.pc == Closed || s.pc == Detached || s.pc == Gone ==> c == END)
    && (s.pc == CloseSent || s.pc == Ended || s.pc == InDisconnected ==> closed)
  }

  /** Only the steps that are due add a close frame. */
  lemma ClosingGrows(s: Sys, a: Action)
    ensures var before, after := ClosingIn(s.sock.log.wire), ClosingIn(Step(s, a).sock.log.wire);
      if CloseDue(s, a) then after != [] else after == before
  {
    hide *;
    if Serving(s, a) {
      ServingStep(s, a);
      ServingCloses(s, a);
    } else if CloseDue(s, a) {
      CloseStep(s, a);
      CloseGrows(s.sock, a.env.ok, a.env.mask);
    } else if a.Text? && a.text != [] {
      TextStep(s, a, 0);
    } else {
      QuietStep(s, a);
      NothingGrows(s.sock, Step(s, a).sock);
    }
    hide *;
    ServingNoClose(s, a);
  }

  lemma ServingNoClose(s: Sys, a: Action)
    ensures !(Serving(s, a) && CloseDue(s, a)) && !(a.Text? && CloseDue(s, a))
  {
  }

  lemma NothingGrows(k: Sock, t: Sock)
    requires QueuesNothing(k, t)
    ensures ClosingIn(t.log.wire) == ClosingIn(k.log.wire)
  {
    hide ClosingIn;
  }

  lemma ServingCloses(s: Sys, a: Action)
    requires Serving(s, a)
    ensures ClosingIn(IdleSection(s.sock, a.env).log.wire) == ClosingIn(s.sock.log.wire)
  {
    hide *;
    ServingStep(s, a);
    var k, e := s.sock, a.env;
    var s1 := if e.pingDue && k.connected then SendPing(k, e.mask) else k;
    PingFrame(k, e.mask);
    IdleSendOut(s1, e.failAt);
    IdleRecvOut(IdleSend(s1, e.failAt), e);
    IdleSectionIs(k, e);
  }

  lemma CloseGrows(k: Sock, ok: bool, mask: Mask)
    ensures ClosingIn(SendClose(k, ok, mask).log.wire) != []
  {
    var (id, counter) := NextId(k.nextId);
    ClosingSnoc(k.log.wire, Closing(Encode(CLOSE, Some(mask), Decimal(id))));
    hide Encode, Decimal, NextId, ClosingIn;
  }

  lemma CloseSectionCommand(k: Sock, e: Env)
    ensures var t := Section(k, e);
      && (k.command == DISCONNECT ==> t.command == END)
      && (k.command == END ==> t == k)
      && (k.command != DISCONNECT && k.command != END ==> t.command != END && t.command != DISCONNECT)
    requires k.command == IDLE || NONE <= k.command <= DISCONNECT || k.command == END
  {
    IdleCommand(k, e);
    CloseCommand(k, e.ok, e.mask);
    hide IdleSection, SendClose, Concat;
  }

  lemma CloseCommand(k: Sock, ok: bool, mask: Mask)
    ensures SendClose(k, ok, mask).command == k.command
  {
    hide Encode, Decimal, NextId;
  }

  lemma IdleCommand(k: Sock, e: Env)
    ensures IdleSection(k, e).command == k.command || IdleSection(k, e).command == INFORM_DISCONNECTED
  {
    var s1 := if e.pingDue && k.connected then SendPing(k, e.mask) else k;
    PingFrame(k, e.mask);
    if s1.connected && s1.sendQ != [] {
      SendLoopOutcome(s1, s1.sendQ, e.failAt);
    }
    var s2 := if s1.connected then IdleSend(s1, e.failAt) else s1;
    assert s2.command == k.command || s2.command == INFORM_DISCONNECTED by {
      hide SendPing, SendLoop;
    }
    CutCommand(Recv(s2, e.chunks, e.wouldBlock), e.pongMask);
    hide SendPing, IdleSend, CutOne, Concat;
  }

  lemma CutCommand(k: Sock, mask: Mask)
    ensures CutOne(k, mask).command == k.command || CutOne(k, mask).command == INFORM_DISCONNECTED
  {
    hide CheckSize, FrameOf, AddData, Encode;
  }

  lemma CloseAtSection(s: Sys, e: Env, quiet: bool)
    requires ControlInv(s) && CloseInv(s, quiet) && s.pc == InSection
    ensures CloseInv(WorkerStep(s, e), quiet)
  {
    ClosingGrows(s, Worker(e));
    CommandRange(s);
    CloseSectionCommand(s.sock, e);
    hide Section, ClosingIn, ControlInv;
  }

  lemma CommandRange(s: Sys)
    requires ControlInv(s) && s.pc == InSection
    ensures var c := s.sock.command; c == IDLE || NONE <= c <= DISCONNECT || c == END
  {
    hide Phase, Wire, Settled;
  }

  /** How a step outside the section moves command and program point. */
  ghost predicate Moves(s: Sys, t: Sys) {
    && t.released == s.released && t.pc != NoWorker
    && (t.sock.command == s.sock.command
        || (t.sock.command == IDLE && s.sock.command == INFORM_CONNECTED)
        || (t.sock.command == END && (t.pc == Ending || s.pc == CloseSent)))
    && (t.pc == Ending ==> s.sock.command == INFORM_DISCONNECTED)
    && (t.pc == CloseSent <==> s.pc == Ending) && (t.pc == Ended <==> s.pc == CloseSent)
    && (t.pc == InDisconnected <==> s.pc == Ended)
    && (t.pc == Leaving || t.pc == Closed || t.pc == Detached || t.pc == Gone ==>
          s.pc == Leaving || s.pc == Closed || s.pc == Detached || (s.pc == LoopTest && s.sock.command >= END))
  }

  lemma WorkerMoves(s: Sys, e: Env)
    requires s.pc != InSection && s.pc != NoWorker && s.pc != Gone
    ensures Moves(s, WorkerStep(s, e))
  {
    CloseCommand(s.sock, e.ok, e.mask);
    hide SendClose, SlotDelivery, AsEvents, Informed, Unfinished;
  }

  lemma CloseElsewhere(s: Sys, e: Env, quiet: bool)
    requires ControlInv(s) && CloseInv(s, quiet) && s.pc != InSection && s.pc != NoWorker && s.pc != Gone
    ensures CloseInv(WorkerStep(s, e), quiet)
  {
    ClosingGrows(s, Worker(e));
    WorkerMoves(s, e);
    ReleasedCommand(s);
    if s.pc == LoopTest {
      CommandAtLoop(s);
    }
    hide ClosingIn, ControlInv, WorkerStep;
    assert Step(s, Worker(e)) == WorkerStep(s, e);
  }

  lemma CommandAtLoop(s: Sys)
    requires ControlInv(s) && s.pc == LoopTest
    ensures s.sock.command >= END ==> s.sock.command == END
  {
    hide Phase, Wire, Settled;
  }

  lemma ReleasedCommand(s: Sys)
    requires ControlInv(s) && s.pc != NoWorker
    ensures s.released ==> ShuttingDown(s.sock.command)
    ensures s.sock.command == DISCONNECT ==> s.released
    ensures s.pc == Ending || s.pc == CloseSent || s.pc == Ended || s.pc == InDisconnected ||
      s.pc == Leaving || s.pc == Closed || s.pc == Detached
      ==> ShuttingDown(s.sock.command)
  {
    hide Phase, Wire, CommandInv, Seen, Settled;
  }

  lemma CloseAtRelease(s: Sys, quiet: bool)
    requires ControlInv(s) && Enabled(s, DisconnectAndRelease) && s.deletes == 0 && CloseInv(s, quiet)
    requires s.sock.connected || s.sock.worker || s.sock.command != END
    ensures CloseInv(ReleaseStep(s), quiet || QuietRelease(s, DisconnectAndRelease))
  {
    ReleaseState(s);
    hide ClosingIn, ControlInv;
  }

  lemma CloseAtStart(s: Sys, a: Action, quiet: bool)
    requires ControlInv(s) && Enabled(s, a) && CloseInv(s, quiet) && !a.Worker? && !a.DisconnectAndRelease?
    ensures CloseInv(Step(s, a), quiet)
  {
    ClosingGrows(s, a);
    StartCommand(s, a);
    hide ClosingIn, ControlInv, Encode;
  }

  lemma StartCommand(s: Sys, a: Action)
    requires ControlInv(s) && Enabled(s, a) && !a.Worker? && !a.DisconnectAndRelease?
    ensures !s.released && !CloseDue(s, a)
    ensures var t := Step(s, a);
      !t.released && (t.pc == s.pc || t.pc == LoopTest) && (t.sock.command == s.sock.command || t.sock.command != END)
    ensures s.pc == Ending ==> Step(s, a).pc == Ending
  {
    hide Phase, Wire, PcInv, Encode;
  }

  lemma WorkerCloses(s: Sys, e: Env, quiet: bool)
    requires ControlInv(s) && Enabled(s, Worker(e)) && CloseInv(s, quiet)
    ensures CloseInv(Step(s, Worker(e)), quiet)
  {
    WorkerMayAct(s, e);
    hide *;
    if s.pc == InSection {
      CloseAtSection(s, e, quiet);
    } else {
      CloseElsewhere(s, e, quiet);
    }
  }

  lemma WorkerMayAct(s: Sys, e: Env)
    requires Enabled(s, Worker(e))
    ensures s.pc != NoWorker && s.pc != Gone && Step(s, Worker(e)) == WorkerStep(s, e)
  {
    hide WorkerStep;
  }

  lemma QuietIs(s: Sys, a: Action)
    ensures !a.DisconnectAndRelease? ==> !QuietRelease(s, a)
    ensures a.DisconnectAndRelease? ==> Step(s, a) == ReleaseStep(s)
  {
    hide ClosingIn, ReleaseStep, WorkerStep;
  }

  lemma StepCloses(s: Sys, a: Action, quiet: bool)
    requires Inv(s) && Enabled(s, a) && s.deletes == 0 && CloseInv(s, quiet)
    requires a.DisconnectAndRelease? ==> s.sock.connected || s.sock.worker || s.sock.command != END
    ensures CloseInv(Step(s, a), quiet || QuietRelease(s, a))
  {
    hide *;
    ControlOf(s);
    QuietIs(s, a);
    if a.Worker? {
      WorkerCloses(s, a.env, quiet);
    } else if a.DisconnectAndRelease? {
      CloseAtRelease(s, quiet);
    } else {
      CloseAtStart(s, a, quiet);
    }
  }

  lemma {:induction false} ReachableCloses(actions: seq<Action>)
    requires Run(actions)
    ensures CloseInv(After(actions), ReleasedQuietly(actions))
  {
    if actions != [] {
      hide Step, Inv, Enabled, CloseInv, QuietRelease;
      var front, a := actions[..|actions| - 1], actions[|actions| - 1];
      ReachableCloses(front);
      ReachableInv(front);
      NoUseAfterDelete(front, a);
      if a.DisconnectAndRelease? {
        ReleaseUnlocks(front);
      }
      StepCloses(After(front), a, ReleasedQuietly(front));
    } else {
      hide Step;
    }
  }

  /**
    Main theorem on close frames (section 7.1.2 of RFC 6455).  When the worker has gone,
    a close frame has been sent, unless the socket was released in a state that was not
    connected and in which none had been sent or was about to be; then none has.
  */
  lemma CloseFrameSent(actions: seq<Action>)
    requires Run(actions) && After(actions).pc == Gone
    ensures ClosingIn(After(actions).sock.log.wire) != [] <==> !ReleasedQuietly(actions)
  {
    ReachableCloses(actions);
    hide Run, After, ReleasedQuietly, ClosingIn;
  }

  /** So one has been sent whenever the client did not release the socket, or released it connected. */
  lemma LiveReleaseCloses(actions: seq<Action>, i: nat)
    requires Run(actions) && After(actions).pc == Gone
    requires !After(actions).released ||
      (i < |actions| && actions[i].DisconnectAndRelease? && After(actions[..i]).sock.connected)
    ensures exists f :: Closing(f) in After(actions).sock.log.wire
  {
    CloseFrameSent(actions);
    ReachableCloses(actions);
    if After(actions).released {
      OneRelease(actions, i);
    }
    SomeClosing(After(actions).sock.log.wire);
    hide Run, After, ReleasedQuietly, ClosingIn;
  }

  lemma {:induction false} SomeClosing(wire: seq<Sent>)
    ensures ClosingIn(wire) != [] ==> exists f :: Closing(f) in wire
  {
    if wire != [] {
      var w := wire[|wire| - 1];
      SomeClosing(wire[..|wire| - 1]);
      if w.Closing? {
        assert Closing(w.frame) in wire;
      } else if ClosingIn(wire) != [] {
        var f :| Closing(f) in wire[..|wire| - 1];
        assert Closing(f) in wire;
      }
    }
  }

  /** There is one release at most, so whether it was quiet is decided there. */
  lemma {:induction false} OneRelease(actions: seq<Action>, i: nat)
    requires Run(actions) && i < |actions| && actions[i].DisconnectAndRelease? && After(actions[..i]).sock.connected
    ensures !ReleasedQuietly(actions) && After(actions).released
  {
    hide *;
    var n := |actions| - 1;
    var front, a := actions[..n], actions[n];
    LastAction(actions);
    if i == n {
      NotYetReleased(front, a);
      ReachableCloses(front);
      QuietIsReleased(After(front), ReleasedQuietly(front));
      ConnectedIsLoud(After(front), a);
    } else {
      assert front[..i] == actions[..i];
      OneRelease(front, i);
      if a.DisconnectAndRelease? {
        NotYetReleased(front, a);
      }
      QuietIs(After(front), a);
    }
    ReleaseStays(After(front), a);
  }

  lemma LastAction(actions: seq<Action>)
    requires Run(actions) && actions != []
    ensures var (front, a) := (actions[..|actions| - 1], actions[|actions| - 1]);
      && Run(front) && Enabled(After(front), a) && After(actions) == Step(After(front), a)
      && ReleasedQuietly(actions) == (ReleasedQuietly(front) || QuietRelease(After(front), a))
  {
    hide Step, Enabled, QuietRelease;
  }

  lemma ConnectedIsLoud(s: Sys, a: Action)
    requires s.sock.connected
    ensures !QuietRelease(s, a)
  {
    hide ClosingIn;
  }

  lemma QuietIsReleased(s: Sys, quiet: bool)
    requires CloseInv(s, quiet) && !s.released
    ensures !quiet
  {
    hide ClosingIn;
  }

  lemma NotYetReleased(front: seq<Action>, a: Action)
    requires Enabled(After(front), a) && a.DisconnectAndRelease?
    ensures !After(front).released
  {
    hide After;
  }

  lemma ReleaseStays(s: Sys, a: Action)
    ensures s.released || a.DisconnectAndRelease? ==> Step(s, a).released
  {
    if a.Worker? {
      WorkerKeepsReleased(s, a.env);
    }
    hide WorkerStep, Encode;
  }

  // ---------------------------------------------- closed, released, deleted

  /** What is left of a socket that is closed, released or deleted. */
  ghost predicate RestInv(s: Sys) {
    var k := s.sock;
    && (!k.open ==> k.buf == [])
    && (s.released ==> k.sendQ == [])
    && (s.deletes > 0 ==> !k.open && !k.connected && !k.error && k.sendQ == [] && k.recvQ == [])
  }

  /** Nothing is buffered for a closed descriptor, and only an IDLE section fills the queue. */
  ghost predicate LeavesRest(k: Sock, t: Sock) {
    (!t.open ==> t.buf == []) && (k.command == IDLE || t.sendQ == k.sendQ)
  }

  lemma WaitRest(k: Sock, e: Env)
    requires k.open
    ensures LeavesRest(k, WaitHandshake(k, e.chunks, e.wouldBlock, e.verdict))
  {
    hide Concat;
  }

  lemma OpeningRest(k: Sock, e: Env)
    requires k.command != IDLE && (!k.open ==> k.buf == [])
    requires k.command == WAIT_HANDSHAKE_RESPONSE ==> k.open
    ensures LeavesRest(k, Section(k, e))
  {
    hide IdleSection, SendClose, WaitHandshake;
    if k.command == WAIT_HANDSHAKE_RESPONSE {
      WaitRest(k, e);
    } else if k.command == DISCONNECT {
      CloseRest(k, e.ok, e.mask);
    }
  }

  lemma IdleRest(k: Sock, e: Env)
    requires k.command == IDLE && k.connected && k.open
    ensures LeavesRest(k, Section(k, e))
  {
    hide *;
    var s1 := if e.pingDue && k.connected then SendPing(k, e.mask) else k;
    IdleIs(k, e);
    IdleSectionIs(k, e);
    PingFrame(k, e.mask);
    IdleSendRest(s1, e.failAt);
    if IdleSend(s1, e.failAt).connected {
      ReadRest(IdleSend(s1, e.failAt), e);
    }
    Rests(k, Section(k, e));
  }

  lemma Rests(k: Sock, t: Sock)
    requires k.command == IDLE && (!t.open ==> t.buf == [])
    ensures LeavesRest(k, t)
  {
  }

  lemma IdleSendRest(s: Sock, failAt: nat)
    requires s.connected && s.open
    ensures var t := IdleSend(s, failAt); (!t.open ==> t.buf == []) && (t.connected ==> t.open)
  {
    hide SendLoop;
    if s.sendQ != [] {
      SendLoopOutcome(s, s.sendQ, failAt);
    }
  }

  lemma ReadRest(u: Sock, e: Env)
    requires u.open
    ensures var t := IdleRecv(u, e.chunks, e.wouldBlock, e.pongMask); !t.open ==> t.buf == []
  {
    CutReasons(Recv(u, e.chunks, e.wouldBlock), e.pongMask);
    hide CutOne, Concat;
  }

  lemma WorkerRest(s: Sys, e: Env)
    requires ControlInv(s) && RestInv(s) && s.deletes == 0 && s.pc != NoWorker && s.pc != Gone
    ensures RestInv(WorkerStep(s, e))
  {
    if s.pc == InSection {
      SectionFacts(s);
      ReleasedCommand(s);
      assert !s.sock.open ==> s.sock.buf == [];
      if s.sock.command == IDLE {
        IdleRest(s.sock, e);
      } else {
        OpeningRest(s.sock, e);
      }
      hide *;
      SectionRest(s, e);
    } else {
      hide *;
      OutsideRest(s, e);
    }
  }

  lemma SectionRest(s: Sys, e: Env)
    requires RestInv(s) && s.deletes == 0 && s.pc == InSection && LeavesRest(s.sock, Section(s.sock, e))
    requires s.released ==> s.sock.command != IDLE
    ensures RestInv(WorkerStep(s, e))
  {
    hide Section;
  }

  lemma InformRest(s: Sys)
    requires RestInv(s) && s.deletes == 0
    ensures RestInv(Second(s)) && (s.pc.Informing? ==> RestInv(InformNode(s)))
  {
    hide SlotDelivery, AsEvents, Informed, Unfinished;
  }

  lemma OutsideRest(s: Sys, e: Env)
    requires RestInv(s) && s.deletes == 0 && s.pc != InSection && s.pc != NoWorker && s.pc != Gone
    ensures RestInv(WorkerStep(s, e))
  {
    hide SendClose, Second, InformNode;
    InformRest(s);
    if s.pc == Ending {
      CloseRest(s.sock, e.ok, e.mask);
    }
  }

  lemma CloseRest(k: Sock, ok: bool, mask: Mask)
    requires !k.open ==> k.buf == []
    ensures LeavesRest(k.(command := END), SendClose(k, ok, mask))
  {
    hide Encode, Decimal, NextId;
  }

  lemma StepRest(s: Sys, a: Action)
    requires ControlInv(s) && Enabled(s, a) && RestInv(s) && s.deletes == 0
    ensures RestInv(Step(s, a))
  {
    if a.Worker? {
      hide RestInv, WorkerStep, ControlInv;
      WorkerRest(s, a.env);
    } else {
      hide WorkerStep, ControlInv, Encode;
    }
  }

  lemma {:induction false} ReachableRest(actions: seq<Action>)
    requires Run(actions)
    ensures RestInv(After(actions))
  {
    if actions != [] {
      hide Step, Inv, ControlInv, Enabled, RestInv;
      var front, a := actions[..|actions| - 1], actions[|actions| - 1];
      ReachableRest(front);
      ReachableInv(front);
      ControlOf(After(front));
      NoUseAfterDelete(front, a);
      StepRest(After(front), a);
    }
  }

  /** In every run, once the socket is deleted both its lists are empty, its buffer is gone and its descriptor closed. */
  lemma NothingLeftBehind(actions: seq<Action>)
    requires Run(actions) && After(actions).deletes == 1
    ensures var k := After(actions).sock;
      k.sendQ == [] && k.recvQ == [] && k.buf == [] && !k.open && !k.connected && !k.error
  {
    ReachableRest(actions);
    hide Run, After;
  }

  /** In every run, after its release a socket never has anything in its send queue again. */
  lemma ReleasedQueueEmpty(actions: seq<Action>)
    requires Run(actions) && After(actions).released
    ensures After(actions).sock.sendQ == []
  {
    ReachableRest(actions);
    hide Run, After;
  }
}
