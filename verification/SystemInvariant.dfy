/** The invariant of the transition system, kept by every step of either actor. */
module SystemInvariant {
  import opened Bytes
  import opened Reassembly
  import opened SocketSpec
  import opened SocketProofs
  import opened System

  // ---------------------------------------------------- where a history stands

  datatype TracePhase = Before | During | Done | BadTrace

  /** Before the connection, during it, after the last callback. */
  function PhaseAfter(p: TracePhase, e: Event): TracePhase {
    match (p, e)
    case (Before, Connected) => During
    case (Before, Disconnected) => Done
    case (During, Received(_)) => During
    case (During, Disconnected) => Done
    case _ => BadTrace
  }

  function Phase(trace: seq<Event>): TracePhase {
    if trace == [] then Before else PhaseAfter(Phase(trace[..|trace| - 1]), trace[|trace| - 1])
  }

  datatype WirePhase = Unsent | Upgraded | Finished | BadWire

  function WireAfter(p: WirePhase, w: Sent): WirePhase {
    match (p, w)
    case (Unsent, Handshake) => Upgraded
    case (Upgraded, Queued(_)) => Upgraded
    case (_, Closing(_)) => if p == BadWire then BadWire else Finished
    case _ => BadWire
  }

  function Wire(wire: seq<Sent>): WirePhase {
    if wire == [] then Unsent else WireAfter(Wire(wire[..|wire| - 1]), wire[|wire| - 1])
  }

  lemma PhaseSnoc(trace: seq<Event>, e: Event)
    ensures Phase(trace + [e]) == PhaseAfter(Phase(trace), e)
  {
    Front(trace, e);
  }

  lemma WireSnoc(wire: seq<Sent>, w: Sent)
    ensures Wire(wire + [w]) == WireAfter(Wire(wire), w)
  {
    Front(wire, w);
  }

  // ------------------------------------------------------------ the invariant

  /** A command the worker can meet at the top of its loop, with what it implies. */
  ghost predicate CommandInv(k: Sock) {
    var c, p, w := k.command, Phase(k.log.trace), Wire(k.log.wire);
    && (c == CONNECT_TO_HOST ==> !k.open && p == Before && w == Unsent && !k.log.upgraded && k.log.stream == [])
    && (c == SEND_HANDSHAKE ==> k.open && !k.connected && p == Before && w == Unsent && !k.log.upgraded)
    && (c == WAIT_HANDSHAKE_RESPONSE ==> k.open && !k.connected && p == Before && w == Upgraded && !k.log.upgraded)
    && (c == INFORM_CONNECTED ==> k.connected && p == Before && w == Upgraded)
    && (c == IDLE ==> k.connected && p == During && w == Upgraded)
    && (c == INFORM_DISCONNECTED ==> (p == Before || p == During))
    && (c == IDLE || CONNECT_TO_HOST <= c <= DISCONNECT || c == END)
  }

  predicate ShuttingDown(c: int) {
    c == DISCONNECT || c == END
  }

  /** Nothing has gone in or out yet. */
  ghost predicate Pristine(k: Sock) {
    k.command == NONE && !k.open && !k.connected && k.log.trace == [] && k.log.wire == [] && !k.log.upgraded
    && k.log.stream == []
  }

  ghost predicate Seen(q: seq<Slot>, i: nat, allFinished: bool) {
    && i <= |q|
    && (forall j :: 0 <= j < i ==> q[j] == Informed(q[j]))
    && (allFinished <==> forall j :: 0 <= j < i ==> !Unfinished(q[j]))
  }

  /** A list all of whose finished frames are delivered: NULL, or one unfinished frame as the only live entry, last. */
  predicate Settled(q: seq<Slot>) {
    q == [] || (Unfinished(q[|q| - 1]) && forall i :: 0 <= i < |q| - 1 ==> q[i] == None)
  }

  lemma SettledPends(q: seq<Slot>)
    requires Settled(q)
    ensures Pending(q) == []
  {
    NothingPending(q, |q|);
  }

  /** What each program point of the worker implies, once `rws_socket_connect` has returned. */
  ghost predicate PcInv(s: Sys) {
    var k, p := s.sock, Phase(s.sock.log.trace);
    match s.pc
    case NoWorker => true
    case LoopTest =>
      CommandInv(k) && k.command != INFORM_CONNECTED && k.command != INFORM_DISCONNECTED
      && (k.command == IDLE ==> Settled(k.recvQ))
    case InSection =>
      CommandInv(k) && k.command != INFORM_CONNECTED && k.command != INFORM_DISCONNECTED
      && (k.command == IDLE ==> Settled(k.recvQ))
    case SecondSwitch => CommandInv(k)
    case InConnected =>
      CommandInv(k) && (k.command == IDLE || ShuttingDown(k.command)) && p == During && k.recvQ == []
    case Informing(i, all) =>
      CommandInv(k) && (k.command == IDLE || ShuttingDown(k.command)) && p == During && Seen(k.recvQ, i, all)
    case Ending => ShuttingDown(k.command) && (p == Before || p == During)
    case CloseSent => ShuttingDown(k.command) && (p == Before || p == During)
    case Ended => ShuttingDown(k.command) && (p == Before || p == During)
    case InDisconnected => ShuttingDown(k.command) && p == Done
    case Leaving => ShuttingDown(k.command)
    case Closed => ShuttingDown(k.command) && !k.open && !k.connected
    case Detached => ShuttingDown(k.command) && !k.open && !k.connected
    case Gone => ShuttingDown(k.command) && !k.open && !k.connected
  }

  ghost predicate ControlInv(s: Sys) {
    var k, p := s.sock, Phase(s.sock.log.trace);
    && p != BadTrace && Wire(k.log.wire) != BadWire
    && (k.connected ==> k.open && k.log.upgraded)
    && (p == During ==> k.log.upgraded)
    && (k.command == DISCONNECT ==> s.released)
    && (k.command == END && !s.released ==> p == Done || s.pc == Ending || s.pc == CloseSent || s.pc == Ended)
    && (p == Done ==> k.log.trace != [] && k.log.trace[|k.log.trace| - 1] == Disconnected)
    && (!s.released && (k.command == INFORM_DISCONNECTED || k.command == END) ==> Settled(k.recvQ))
    && (p == Before ==> k.log.cut == [] && k.recvQ == [])
    && (!k.log.upgraded ==> k.log.cut == [])
    && s.deletes == (if s.pc == Gone || (s.pc == NoWorker && s.released) then 1 else 0)
    && (s.pc == NoWorker ==> Pristine(k) && !k.worker && s.app == Calm)
    && (s.app != Calm ==>
          && Pristine(k) && !s.released && k.worker == (s.app == Stored)
          && (s.pc == LoopTest || s.pc == InSection || s.pc == SecondSwitch))
    && (s.app == Calm && s.pc != NoWorker ==>
          && k.worker == (s.pc != Detached && s.pc != Gone)
          && (s.released ==> ShuttingDown(k.command))
          && PcInv(s))
  }

  /** Until the socket is released or the connection is given up, no accepted frame has been dropped. */
  ghost predicate QueueInv(s: Sys) {
    !s.released && s.sock.command != INFORM_DISCONNECTED && !ShuttingDown(s.sock.command) ==> NothingDropped(s.sock)
  }

  /** What stays true of the history after the socket and its lists are freed. */
  ghost predicate HistoryInv(log: Log) {
    && StreamInv(log.cut, [], log.stream, false)
    && DeliveredIn(log.trace) <= Messages(Frames(log.cut))
    && PongInv(log.accepted, Frames(log.cut))
    && SendInv(log.wire, log.accepted)
  }

  /** The messages of all frames processed have been delivered. */
  ghost predicate AllDelivered(log: Log) {
    DeliveredIn(log.trace) == Messages(Frames(log.cut))
  }

  ghost predicate Inv(s: Sys) {
    ControlInv(s) &&
    if s.deletes == 0 then DataInv(s.sock) && QueueInv(s)
    else HistoryInv(s.sock.log) && (s.released || AllDelivered(s.sock.log))
  }

  lemma SettledDelivers(k: Sock)
    requires DataInv(k) && Settled(k.recvQ)
    ensures AllDelivered(k.log)
  {
    SettledPends(k.recvQ);
    hide StreamInv, PongInv, SendInv, ListInv, OpenSlot, OpenFragment, Pending, Settled, Frames, Messages, DeliveredIn;
    assert DeliveredIn(k.log.trace) + [] == DeliveredIn(k.log.trace);
  }

  lemma DataIsHistory(k: Sock)
    requires DataInv(k)
    ensures HistoryInv(k.log)
  {
    StreamClosed(k.log.cut, k.buf, k.log.stream, k.open);
    hide StreamInv, PongInv, SendInv, Frames, Messages, DeliveredIn, Pending, ListInv, OpenSlot, OpenFragment;
  }

  /** A socket on its way out may be met at any program point. */
  lemma ShuttingDownOk(k: Sock)
    requires ShuttingDown(k.command)
    ensures CommandInv(k) && k.command != INFORM_CONNECTED && k.command != INFORM_DISCONNECTED && k.command != IDLE
  {
  }

  // ----------------------------------------------------------- the beginning

  lemma InitInv()
    ensures Inv(INIT)
  {
    NothingYet();
  }

  // ------------------------------------------------- the first switch, by command

  lemma {:induction false} SendLoopWire(s: Sock, q: seq<Bytes>, failAt: nat)
    requires Wire(s.log.wire) == Upgraded
    ensures Wire(SendLoop(s, q, failAt).log.wire) == Upgraded
    decreases |q|
  {
    if q != [] {
      WireSnoc(s.log.wire, Queued(q[0]));
      hide Wire;
      if failAt > 0 {
        SendLoopWire(Send(s, Queued(q[0]), true), q[1..], failAt - 1);
      }
    }
  }

  /** An IDLE section keeps the data invariant and ends in IDLE or on the way out. */
  lemma IdleSectionKeeps(k: Sock, e: Env)
    requires DataInv(k) && NothingDropped(k) && k.open && k.connected && k.command == IDLE
    requires Wire(k.log.wire) == Upgraded
    ensures var t := IdleSection(k, e);
      && DataInv(t) && (t.command == IDLE ==> NothingDropped(t))
      && t.log.trace == k.log.trace && Wire(t.log.wire) == Upgraded && t.worker == k.worker
      && (t.connected ==> t.open) && t.log.upgraded == k.log.upgraded
      && ((t.command == IDLE && t.connected) || (t.command == INFORM_DISCONNECTED && t.recvQ == k.recvQ))
  {
    hide *;
    var s1 := if e.pingDue && k.connected then SendPing(k, e.mask) else k;
    SendPingKeeps(k, e.mask);
    PingFrame(k, e.mask);
    var s2 := IdleSend(s1, e.failAt);
    IdleSendKeeps(s1, e.failAt);
    IdleSendWire(s1, e.failAt);
    if s2.connected {
      IdleRecvKeeps(s2, e.chunks, e.wouldBlock, e.pongMask);
    }
    IdleSectionIs(k, e);
    IdleIsNotOver();
  }

  lemma IdleIsNotOver()
    ensures IDLE != INFORM_DISCONNECTED && !ShuttingDown(IDLE) && !ShuttingDown(INFORM_DISCONNECTED)
  {
  }

  lemma PingFrame(k: Sock, mask: Mask)
    ensures var t := SendPing(k, mask);
      t.log.trace == k.log.trace && t.log.wire == k.log.wire && t.worker == k.worker && t.open == k.open
      && t.connected == k.connected && t.command == k.command && t.recvQ == k.recvQ
      && t.log.upgraded == k.log.upgraded
  {
  }

  lemma IdleSendWire(k: Sock, failAt: nat)
    requires Wire(k.log.wire) == Upgraded
    ensures Wire(IdleSend(k, failAt).log.wire) == Upgraded
  {
    hide Wire, SendLoop;
    SendLoopWire(k, k.sendQ, failAt);
  }

  lemma IdleSectionIs(k: Sock, e: Env)
    requires k.connected
    ensures IdleSection(k, e) ==
      var s1 := if e.pingDue && k.connected then SendPing(k, e.mask) else k;
      var s2 := IdleSend(s1, e.failAt);
      if s2.connected then IdleRecv(s2, e.chunks, e.wouldBlock, e.pongMask) else s2
  {
    hide SendPing, IdleSend, IdleRecv;
    PingFrame(k, e.mask);
  }
}
