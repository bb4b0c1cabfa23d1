/** Every step of either actor keeps the system invariant. */
module SystemSteps {
  import opened Bytes
  import opened FrameSpec
  import opened Reassembly
  import opened SocketSpec
  import opened SocketProofs
  import opened System
  import opened SystemInvariant

  // ----------------------------------------------------------- critical section

  lemma ConnectKeeps(k: Sock, reached: bool)
    requires DataInv(k) && CommandInv(k) && k.command == CONNECT_TO_HOST && k.log.cut == []
    requires !k.connected
    ensures var t := ConnectToHost(k, reached);
      && DataInv(t) && CommandInv(t) && !t.connected && t.log.trace == k.log.trace && t.log.wire == k.log.wire
      && t.log.cut == k.log.cut && t.recvQ == k.recvQ && t.worker == k.worker && t.log.upgraded == k.log.upgraded
      && (t.command == SEND_HANDSHAKE || t.command == INFORM_DISCONNECTED)
      && (NothingDropped(k) ==> NothingDropped(t))
  {
    hide ReceiveInv, PongInv, SendInv, Phase, Wire, QueuedIn;
    assert Concat([]) + [] == [];
  }

  lemma HandshakeKeeps(k: Sock, ok: bool)
    requires DataInv(k) && CommandInv(k) && k.command == SEND_HANDSHAKE
    ensures var t := SendHandshake(k, ok);
      && DataInv(t) && CommandInv(t) && !t.connected && t.log.trace == k.log.trace && Wire(t.log.wire) == Upgraded
      && t.log.cut == k.log.cut && t.recvQ == k.recvQ && t.worker == k.worker && t.log.upgraded == k.log.upgraded
      && (t.command == WAIT_HANDSHAKE_RESPONSE || t.command == INFORM_DISCONNECTED)
      && (NothingDropped(k) ==> NothingDropped(t))
  {
    hide StreamInv, ReceiveInv, PongInv, Phase, Wire, QueuedIn, Frames;
    WireSnoc(k.log.wire, Handshake);
    QueuedSnoc(k.log.wire, Handshake);
    StreamClosed(k.log.cut, k.buf, k.log.stream, k.open);
    assert QueuedIn(k.log.wire) + [] == QueuedIn(k.log.wire);
  }

  lemma WaitKeeps(k: Sock, chunks: seq<Bytes>, wouldBlock: bool, verdict: Verdict)
    requires DataInv(k) && CommandInv(k) && k.command == WAIT_HANDSHAKE_RESPONSE && k.log.cut == []
    ensures var t := WaitHandshake(k, chunks, wouldBlock, verdict);
      && DataInv(t) && CommandInv(t) && (t.connected ==> t.open) && t.log.trace == k.log.trace && t.log.wire == k.log.wire
      && t.log.cut == k.log.cut && t.recvQ == k.recvQ && t.worker == k.worker
      && (t.command == WAIT_HANDSHAKE_RESPONSE || t.command == INFORM_CONNECTED || t.command == INFORM_DISCONNECTED)
      && (t.connected ==> t.log.upgraded)
      && (NothingDropped(k) ==> NothingDropped(t))
  {
    hide StreamInv, ReceiveInv, PongInv, SendInv, Phase, Wire, QueuedIn, Frames, Concat;
    RecvKeeps(k, chunks, wouldBlock);
    CloseKeeps(Recv(k, chunks, wouldBlock));
    StreamEmpty();
  }

  lemma StreamEmpty()
    ensures StreamInv([], [], [], true)
  {
  }

  lemma CloseFrameKeeps(k: Sock, ok: bool, mask: Mask)
    requires DataInv(k) && Wire(k.log.wire) != BadWire && (k.connected ==> k.open)
    ensures var t := SendClose(k, ok, mask);
      && DataInv(t) && Wire(t.log.wire) == Finished && (t.connected ==> t.open)
      && t.log.trace == k.log.trace && t.log.cut == k.log.cut && t.recvQ == k.recvQ && t.worker == k.worker
      && t.command == k.command && t.log.upgraded == k.log.upgraded && (t.connected ==> k.connected)
  {
    hide StreamInv, ReceiveInv, PongInv, Wire, QueuedIn, Encode, Decimal, NextId, Frames;
    var (id, counter) := NextId(k.nextId);
    var w := Closing(Encode(CLOSE, Some(mask), Decimal(id)));
    WireSnoc(k.log.wire, w);
    QueuedSnoc(k.log.wire, w);
    StreamClosed(k.log.cut, k.buf, k.log.stream, k.open);
    assert QueuedIn(k.log.wire) + [] == QueuedIn(k.log.wire);
  }

  /** What the first switch may assume and must leave. */
  ghost predicate SectionInv(k: Sock) {
    && DataInv(k) && CommandInv(k) && (k.connected ==> k.open && k.log.upgraded)
    && (Phase(k.log.trace) == During ==> k.log.upgraded)
    && Phase(k.log.trace) != BadTrace && Wire(k.log.wire) != BadWire
    && (Phase(k.log.trace) == Before ==> k.log.cut == [] && k.recvQ == [])
    && (!k.log.upgraded ==> k.log.cut == [])
  }

  lemma SectionKeeps(k: Sock, e: Env)
    requires SectionInv(k) && k.command != INFORM_CONNECTED && k.command != INFORM_DISCONNECTED
    requires !ShuttingDown(k.command) ==> NothingDropped(k)
    requires k.command == IDLE ==> Settled(k.recvQ)
    ensures var t := Section(k, e);
      && SectionInv(t) && t.worker == k.worker && t.log.trace == k.log.trace
      && (t.command != INFORM_DISCONNECTED && !ShuttingDown(t.command) ==> NothingDropped(t))
      && (ShuttingDown(k.command) <==> t.command == END)
      && (t.command == DISCONNECT ==> k.command == DISCONNECT)
      && (t.command == INFORM_DISCONNECTED ==> Settled(t.recvQ)) && (t.command == END ==> t.recvQ == k.recvQ)
  {
    hide DataInv, NothingDropped, Phase, Wire, ConnectToHost, SendHandshake, WaitHandshake, SendClose, IdleSection;
    if k.command == CONNECT_TO_HOST {
      NotConnectedYet(k);
      ConnectKeeps(k, e.ok);
    } else if k.command == SEND_HANDSHAKE {
      HandshakeKeeps(k, e.ok);
    } else if k.command == WAIT_HANDSHAKE_RESPONSE {
      WaitKeeps(k, e.chunks, e.wouldBlock, e.verdict);
    } else if k.command == DISCONNECT {
      CloseFrameKeeps(k, e.ok, e.mask);
      DataIgnoresCommand(SendClose(k, e.ok, e.mask), END);
    } else if k.command == IDLE {
      IdleSectionKeeps(k, e);
    }
  }

  lemma NotConnectedYet(k: Sock)
    requires CommandInv(k) && k.command == CONNECT_TO_HOST && (k.connected ==> k.open)
    ensures !k.connected
  {
  }

  lemma DataIgnoresCommand(k: Sock, c: int)
    requires DataInv(k)
    ensures DataInv(k.(command := c))
    ensures NothingDropped(k) ==> NothingDropped(k.(command := c))
  {
  }

  lemma AnnounceKeeps(k: Sock, e: Event)
    requires DataInv(k) && !e.Received?
    ensures DataInv(Announce(k, e))
    ensures NothingDropped(k) ==> NothingDropped(Announce(k, e))
  {
    DeliveredSnoc(k.log.trace, e);
    assert DeliveredIn(k.log.trace) + [] == DeliveredIn(k.log.trace);
    hide StreamInv, PongInv, SendInv, QueuedIn, Frames, Messages, OpenFragment, Pending, ListInv, OpenSlot, DeliveredIn;
  }

  // ------------------------------------------------------------- inform loop

  lemma {:induction false} ReceivedStay(trace: seq<Event>, ms: seq<Message>)
    requires Phase(trace) == During
    ensures Phase(trace + AsEvents(ms)) == During
  {
    if ms == [] {
      assert trace + [] == trace;
    } else {
      AsEventsLast(ms);
      hide *;
      var front, m := ms[..|ms| - 1], ms[|ms| - 1];
      ReceivedStay(trace, front);
      PhaseSnoc(trace + AsEvents(front), Received(m));
      assert trace + AsEvents(ms) == (trace + AsEvents(front)) + [Received(m)];
      StillDuring(Received(m));
    }
  }

  lemma StillDuring(e: Event)
    requires e.Received?
    ensures PhaseAfter(During, e) == During
  {
  }

  /** Delivering one node moves its message from the list to the trace. */
  lemma InformNodeData(q: seq<Slot>, i: nat, frames: seq<RecvFrame>, trace: seq<Event>)
    requires i < |q| && ReceiveInv(q, frames, trace)
    requires forall j :: 0 <= j < i ==> q[j] == Informed(q[j])
    ensures ReceiveInv(q[i := Informed(q[i])], frames, trace + AsEvents(SlotDelivery(q[i])))
  {
    hide ListInv, OpenSlot, OpenFragment, Pending, Messages, DeliveredIn, Informed, SlotDelivery, AsEvents;
    InformOne(q, i);
    DeliveredAll(trace, SlotDelivery(q[i]));
    var m, rest := SlotDelivery(q[i]), Pending(q[i := Informed(q[i])]);
    assert DeliveredIn(trace) + (m + rest) == (DeliveredIn(trace) + m) + rest;
  }

  lemma InformEnd(q: seq<Slot>, all: bool, frames: seq<RecvFrame>, trace: seq<Event>)
    requires ReceiveInv(q, frames, trace) && Seen(q, |q|, all)
    ensures var r := if all then [] else q;
      ReceiveInv(r, frames, trace) && Pending(r) == []
  {
    hide OpenFragment, Messages, DeliveredIn;
    NothingPending(q, |q|);
  }

  lemma InformNodeControl(s: Sys)
    requires ControlInv(s) && s.pc.Informing? && ListInv(s.sock.recvQ)
    ensures ControlInv(InformNode(s))
  {
    var k, i := s.sock, s.pc.next;
    hide DataInv, Phase, Wire, CommandInv, SlotDelivery, AsEvents, Pending;
    if i < |k.recvQ| {
      ReceivedStay(k.log.trace, SlotDelivery(k.recvQ[i]));
      CommandIgnoresNode(k, InformNode(s).sock);
      SeenNext(k.recvQ, i, s.pc.allFinished);
      hide Seen, Unfinished, Informed;
    } else {
      SeenSettles(k.recvQ, s.pc.allFinished);
      InformEndCommand(k, InformNode(s).sock);
      hide Seen, Settled;
    }
  }

  /** Behind the last node the list is settled: freed, or left with its one unfinished frame. */
  lemma SeenSettles(q: seq<Slot>, all: bool)
    requires Seen(q, |q|, all) && ListInv(q)
    ensures Settled(if all then [] else q)
  {
    if !all {
      assert Unfinished(q[|q| - 1]);
    }
  }

  lemma SeenNext(q: seq<Slot>, i: nat, all: bool)
    requires Seen(q, i, all) && i < |q|
    ensures Seen(q[i := Informed(q[i])], i + 1, all && !Unfinished(q[i]))
  {
    var r := q[i := Informed(q[i])];
    assert Informed(r[i]) == r[i] && Unfinished(r[i]) == Unfinished(q[i]);
    hide Informed, Unfinished;
    assert forall j :: 0 <= j < i ==> r[j] == q[j];
  }

  lemma NothingPendingSeen(q: seq<Slot>, all: bool)
    requires Seen(q, |q|, all)
    ensures Pending(q) == [] && Pending([]) == []
  {
    NothingPending(q, |q|);
  }

  lemma CommandIgnoresNode(k: Sock, t: Sock)
    requires CommandInv(k) && t.command == k.command && t.connected == k.connected && t.open == k.open
    requires t.log.upgraded == k.log.upgraded && t.log.stream == k.log.stream
    requires Phase(t.log.trace) == Phase(k.log.trace) && t.log.wire == k.log.wire
    ensures CommandInv(t)
  {
    hide Phase, Wire;
  }

  lemma InformEndCommand(k: Sock, t: Sock)
    requires CommandInv(k) && (k.command == IDLE || ShuttingDown(k.command)) && t == k.(recvQ := t.recvQ)
    ensures CommandInv(t) && t.command != INFORM_CONNECTED && t.command != INFORM_DISCONNECTED
  {
    hide Phase, Wire;
  }

  lemma InformNodeKeepsData(k: Sock, pc: Pc)
    requires DataInv(k) && pc.Informing? && Seen(k.recvQ, pc.next, pc.allFinished)
    ensures DataInv(InformNode(Sys(k, pc, Calm, false, 0)).sock)
    ensures NothingDropped(k) ==> NothingDropped(InformNode(Sys(k, pc, Calm, false, 0)).sock)
  {
    var i := pc.next;
    var frames := Frames(k.log.cut);
    hide ReceiveInv, StreamInv, PongInv, SendInv, QueuedIn, Frames, SlotDelivery, AsEvents, Informed, Unfinished;
    if i >= |k.recvQ| {
      InformEnd(k.recvQ, pc.allFinished, frames, k.log.trace);
    } else {
      SeenSettled(k.recvQ, i, pc.allFinished);
      InformNodeData(k.recvQ, i, frames, k.log.trace);
    }
  }

  lemma SeenSettled(q: seq<Slot>, i: nat, all: bool)
    requires Seen(q, i, all)
    ensures forall j :: 0 <= j < i ==> q[j] == Informed(q[j])
  {
  }

  lemma InformNodeKeeps(s: Sys)
    requires Inv(s) && s.pc.Informing?
    ensures Inv(InformNode(s))
  {
    InformingSeen(s);
    ListOf(s.sock);
    InformNodeControl(s);
    InformNodeKeepsData(s.sock, s.pc);
    hide DataInv, ControlInv, NothingDropped, HistoryInv, SlotDelivery, AsEvents, Informed, Unfinished;
  }

  lemma ListOf(k: Sock)
    requires DataInv(k)
    ensures ListInv(k.recvQ)
  {
    hide StreamInv, PongInv, SendInv, Frames, OpenSlot, OpenFragment, Messages, Pending, DeliveredIn;
  }

  lemma InformingSeen(s: Sys)
    requires ControlInv(s) && s.pc.Informing?
    ensures Seen(s.sock.recvQ, s.pc.next, s.pc.allFinished) && s.deletes == 0
  {
    hide CommandInv, Phase, Wire, Pending, Seen;
  }

  // ------------------------------------------------------------ worker's steps

  lemma SecondControl(s: Sys)
    requires ControlInv(s) && s.pc == SecondSwitch
    ensures ControlInv(Second(s))
  {
    hide Phase, Wire, Pending;
    var c := s.sock.command;
    if s.app != Calm {
    } else if c == INFORM_CONNECTED {
      PhaseSnoc(s.sock.log.trace, Connected);
    }
  }

  lemma SecondData(s: Sys)
    requires DataInv(s.sock) && QueueInv(s) && s.deletes == 0
    ensures var t := Second(s);
      DataInv(t.sock) && QueueInv(t) && t.deletes == 0
  {
    hide DataInv, NothingDropped, Announce;
    var k := s.sock;
    if k.command == INFORM_CONNECTED {
      DataIgnoresCommand(k, IDLE);
      AnnounceKeeps(k.(command := IDLE), Connected);
    } else if k.command == INFORM_DISCONNECTED {
      DataIgnoresCommand(k, END);
    }
  }

  lemma SecondKeeps(s: Sys)
    requires Inv(s) && s.pc == SecondSwitch
    ensures Inv(Second(s))
  {
    StillThere(s);
    DataOf(s);
    SecondControl(s);
    SecondData(s);
    hide *;
    LiveInv(Second(s));
  }

  lemma LiveInv(t: Sys)
    requires ControlInv(t) && DataInv(t.sock) && QueueInv(t) && t.deletes == 0
    ensures Inv(t)
  {
    hide ControlInv, DataInv, QueueInv, HistoryInv;
  }

  /** The socket exists as long as the worker runs. */
  lemma StillThere(s: Sys)
    requires ControlInv(s) && s.pc != NoWorker && s.pc != Gone
    ensures s.deletes == 0 && (s.app != Calm ==> s.sock.command == NONE)
  {
    hide PcInv, Phase, Wire;
  }

  lemma InSectionControl(s: Sys, e: Env)
    requires ControlInv(s) && s.pc == InSection && s.app == Calm && DataInv(s.sock)
    requires !ShuttingDown(s.sock.command) ==> NothingDropped(s.sock)
    ensures var t := Section(s.sock, e);
      && ControlInv(WorkerStep(s, e)) && DataInv(t)
      && (t.command != INFORM_DISCONNECTED && !ShuttingDown(t.command) ==> NothingDropped(t))
  {
    hide DataInv, NothingDropped, Phase, Wire, Section, Pending, CommandInv;
    SectionKeeps(s.sock, e);
  }

  lemma InSectionKeeps(s: Sys, e: Env)
    requires Inv(s) && s.pc == InSection
    ensures Inv(WorkerStep(s, e))
  {
    StillThere(s);
    if s.app == Calm {
      QueueAtSection(s);
      InSectionControl(s, e);
      hide DataInv, NothingDropped, ControlInv, Section, HistoryInv;
    } else {
      hide DataInv, NothingDropped, Phase, Wire, PcInv, HistoryInv;
    }
  }

  lemma QueueAtSection(s: Sys)
    requires ControlInv(s) && s.pc == InSection && s.app == Calm && QueueInv(s)
    ensures !ShuttingDown(s.sock.command) ==> NothingDropped(s.sock)
  {
    hide NothingDropped, Phase, Wire, CommandInv, Pending;
  }

  lemma LoopTestControl(s: Sys, e: Env)
    requires ControlInv(s) && (s.pc == LoopTest || s.pc == InConnected)
    ensures ControlInv(WorkerStep(s, e))
  {
    hide Phase, Wire, Pending, Seen;
  }

  lemma LoopTestKeeps(s: Sys, e: Env)
    requires Inv(s) && (s.pc == LoopTest || s.pc == InConnected)
    ensures Inv(WorkerStep(s, e))
  {
    StillThere(s);
    LoopTestControl(s, e);
    hide ControlInv, DataInv, NothingDropped, HistoryInv;
  }

  /** On the way out no queue is owed anything. */
  lemma OutKeeps(t: Sys)
    requires ControlInv(t) && DataInv(t.sock) && t.deletes == 0 && ShuttingDown(t.sock.command)
    ensures Inv(t)
  {
    hide ControlInv, DataInv, NothingDropped, HistoryInv;
  }

  lemma EndingControl(s: Sys, e: Env)
    requires ControlInv(s) && s.pc == Ending && DataInv(s.sock) && s.deletes == 0
    ensures var t := WorkerStep(s, e);
      ControlInv(t) && DataInv(t.sock) && t.deletes == 0 && ShuttingDown(t.sock.command)
  {
    hide DataInv, Phase, Wire, SendClose, Pending, CommandInv;
    CloseFrameKeeps(s.sock, e.ok, e.mask);
  }

  lemma CloseSentControl(s: Sys, e: Env)
    requires ControlInv(s) && s.pc == CloseSent && DataInv(s.sock) && s.deletes == 0
    ensures var t := WorkerStep(s, e);
      ControlInv(t) && DataInv(t.sock) && t.deletes == 0 && ShuttingDown(t.sock.command)
  {
    hide DataInv, Phase, Wire, Pending, CommandInv;
    DataIgnoresCommand(s.sock, END);
  }

  lemma EndedControl(s: Sys, e: Env)
    requires ControlInv(s) && s.pc == Ended && DataInv(s.sock) && s.deletes == 0
    ensures var t := WorkerStep(s, e);
      ControlInv(t) && DataInv(t.sock) && t.deletes == 0 && ShuttingDown(t.sock.command)
  {
    hide DataInv, Phase, Wire, Pending, CommandInv;
    PhaseSnoc(s.sock.log.trace, Disconnected);
    AnnounceKeeps(s.sock, Disconnected);
  }

  lemma InDisconnectedControl(s: Sys, e: Env)
    requires ControlInv(s) && s.pc == InDisconnected && DataInv(s.sock) && s.deletes == 0
    ensures var t := WorkerStep(s, e);
      ControlInv(t) && DataInv(t.sock) && t.deletes == 0 && ShuttingDown(t.sock.command)
  {
    hide DataInv, Phase, Wire, Pending, CommandInv;
    ShuttingDownOk(s.sock);
  }

  /** The four steps around `on_disconnected`. */
  lemma EndingKeeps(s: Sys, e: Env)
    requires Inv(s) && (s.pc == Ending || s.pc == CloseSent || s.pc == Ended || s.pc == InDisconnected)
    ensures Inv(WorkerStep(s, e))
  {
    StillThere(s);
    DataOf(s);
    hide *;
    if s.pc == Ending {
      EndingControl(s, e);
    } else if s.pc == CloseSent {
      CloseSentControl(s, e);
    } else if s.pc == Ended {
      EndedControl(s, e);
    } else {
      InDisconnectedControl(s, e);
    }
    OutKeeps(WorkerStep(s, e));
  }

  lemma DataOf(s: Sys)
    requires Inv(s) && s.deletes == 0
    ensures ControlInv(s) && DataInv(s.sock) && QueueInv(s)
  {
    hide ControlInv, DataInv, QueueInv, HistoryInv;
  }

  lemma LeavingControl(s: Sys, e: Env)
    requires ControlInv(s) && (s.pc == Leaving || s.pc == Closed) && DataInv(s.sock) && s.deletes == 0
    ensures var t := WorkerStep(s, e);
      ControlInv(t) && DataInv(t.sock) && t.deletes == 0 && ShuttingDown(t.sock.command)
  {
    hide DataInv, Phase, Wire, Pending, CommandInv;
    CloseKeeps(s.sock);
    WorkerFlag(s.sock);
  }

  lemma EmptyIsSettled()
    ensures Settled([])
  {
  }

  lemma DetachedControl(s: Sys, e: Env)
    requires ControlInv(s) && s.pc == Detached && DataInv(s.sock) && s.deletes == 0
    ensures var t := WorkerStep(s, e);
      ControlInv(t) && HistoryInv(t.sock.log) && t.deletes == 1 && (t.released || AllDelivered(t.sock.log))
  {
    EmptyIsSettled();
    hide DataInv, HistoryInv, AllDelivered, Settled, Phase, Wire, Pending, CommandInv;
    DataIsHistory(s.sock);
    if !s.released {
      SettledDelivers(s.sock);
    }
  }

  lemma LeavingKeeps(s: Sys, e: Env)
    requires Inv(s) && (s.pc == Leaving || s.pc == Closed || s.pc == Detached)
    ensures Inv(WorkerStep(s, e))
  {
    StillThere(s);
    DataOf(s);
    if s.pc == Detached {
      DetachedControl(s, e);
      hide ControlInv, HistoryInv, AllDelivered, DataInv, QueueInv, WorkerStep;
    } else {
      hide *;
      LeavingControl(s, e);
      OutKeeps(WorkerStep(s, e));
    }
  }

  lemma WorkerFlag(k: Sock)
    requires DataInv(k)
    ensures DataInv(k.(worker := false)) && DataInv(k.(worker := true))
    ensures NothingDropped(k) ==> NothingDropped(k.(worker := true))
  {
  }

  lemma WorkerKeeps(s: Sys, e: Env)
    requires Inv(s) && s.pc != NoWorker && s.pc != Gone
    ensures Inv(WorkerStep(s, e))
  {
    hide Inv, InformNode, Second, Section, SendClose;
    match s.pc
    case LoopTest => LoopTestKeeps(s, e);
    case InSection => InSectionKeeps(s, e);
    case SecondSwitch => SecondKeeps(s);
    case InConnected => LoopTestKeeps(s, e);
    case Informing(_, _) => InformNodeKeeps(s);
    case Ending => EndingKeeps(s, e);
    case CloseSent => EndingKeeps(s, e);
    case Ended => EndingKeeps(s, e);
    case InDisconnected => EndingKeeps(s, e);
    case Leaving => LeavingKeeps(s, e);
    case Closed => LeavingKeeps(s, e);
    case Detached => LeavingKeeps(s, e);
  }

  // ------------------------------------------------------- application's steps

  lemma StartKeeps(s: Sys, a: Action)
    requires Inv(s) && Enabled(s, a) && (a.ConnectRefused? || a.Spawn? || a.SpawnFails?)
    ensures Inv(Step(s, a))
  {
    hide Phase, Wire, Pending, DataInv, NothingDropped, PcInv, HistoryInv;
    BufferDropped(s.sock);
  }

  lemma BufferDropped(k: Sock)
    requires DataInv(k) && !k.open
    ensures forall err: bool :: DataInv(k.(buf := [], error := err)) && DataInv(k.(buf := [], error := err, command := NONE))
    ensures NothingDropped(k) ==>
      forall err: bool :: NothingDropped(k.(buf := [], error := err)) && NothingDropped(k.(buf := [], error := err, command := NONE))
  {
    hide StreamInv, ReceiveInv, PongInv, SendInv, QueuedIn, Frames;
    StreamClosed(k.log.cut, k.buf, k.log.stream, k.open);
  }

  lemma StoreControl(s: Sys, a: Action)
    requires ControlInv(s) && Enabled(s, a) && (a.StoreThread? || a.StoreCommand?)
    ensures ControlInv(Step(s, a)) && s.pc != NoWorker && s.pc != Gone
  {
    PristinePhases();
    hide Phase, Wire, Pending;
  }

  lemma StoreData(s: Sys, a: Action)
    requires DataInv(s.sock) && QueueInv(s) && (a.StoreThread? || a.StoreCommand?)
    requires s.sock.command == NONE
    ensures var t := Step(s, a);
      DataInv(t.sock) && QueueInv(t) && t.deletes == s.deletes
  {
    WorkerFlag(s.sock);
    DataIgnoresCommand(s.sock, CONNECT_TO_HOST);
    hide DataInv, NothingDropped;
  }

  lemma StoreKeeps(s: Sys, a: Action)
    requires Inv(s) && Enabled(s, a) && (a.StoreThread? || a.StoreCommand?)
    ensures Inv(Step(s, a))
  {
    assert s.app != Calm;
    StoreControl(s, a);
    StillThere(s);
    DataOf(s);
    hide *;
    StoreData(s, a);
    LiveInv(Step(s, a));
  }

  lemma PristinePhases()
    ensures Phase([]) == Before && Wire([]) == Unsent
  {
  }

  /** As long as the handle is good the socket exists. */
  lemma GoodHandleExists(s: Sys)
    requires ControlInv(s) && HandleGood(s)
    ensures s.deletes == 0
  {
    hide Phase, Wire, CommandInv, Seen, Settled;
  }

  lemma ControlOf(s: Sys)
    requires Inv(s)
    ensures ControlInv(s)
  {
    hide ControlInv, DataInv, QueueInv, HistoryInv;
  }

  lemma UsesGoodHandle(s: Sys, a: Action)
    requires Enabled(s, a) && (a.Text? || a.DisconnectAndRelease?)
    ensures HandleGood(s)
  {
    hide HandleGood;
  }

  lemma TextKeeps(s: Sys, text: Bytes, mask: Mask)
    requires Inv(s) && Enabled(s, Text(text, mask))
    ensures Inv(s.(sock := SendText(s.sock, text, mask)))
  {
    hide *;
    ControlOf(s);
    UsesGoodHandle(s, Text(text, mask));
    GoodHandleExists(s);
    DataOf(s);
    SendTextKeeps(s.sock, text, mask);
    TextFrame(s.sock, text, mask);
    TextControl(s, SendText(s.sock, text, mask));
    TextQueue(s, SendText(s.sock, text, mask));
    LiveInv(s.(sock := SendText(s.sock, text, mask)));
  }

  lemma TextQueue(s: Sys, t: Sock)
    requires QueueInv(s) && t.command == s.sock.command && (NothingDropped(s.sock) ==> NothingDropped(t))
    ensures QueueInv(s.(sock := t))
  {
    hide NothingDropped;
  }

  lemma TextFrame(k: Sock, text: Bytes, mask: Mask)
    ensures var t := SendText(k, text, mask);
      t == k.(sendQ := t.sendQ, log := k.log.(accepted := t.log.accepted))
  {
    hide Encode;
  }

  lemma TextControl(s: Sys, t: Sock)
    requires ControlInv(s) && t == s.sock.(sendQ := t.sendQ, log := s.sock.log.(accepted := t.log.accepted))
    ensures ControlInv(s.(sock := t))
  {
    hide Phase, Wire, Pending;
  }

  lemma ReleaseControl(s: Sys)
    requires ControlInv(s) && Enabled(s, DisconnectAndRelease)
    ensures ControlInv(ReleaseStep(s))
  {
    hide Phase, Wire, Pending;
  }

  lemma ReleaseData(s: Sys)
    requires DataInv(s.sock) && s.deletes == 0
    ensures var t := ReleaseStep(s);
      t.released && if t.deletes == 0 then DataInv(t.sock) else HistoryInv(t.sock.log)
  {
    DataIsHistory(s.sock);
    hide StreamInv, ReceiveInv, PongInv, SendInv, Frames, HistoryInv;
  }

  lemma ReleaseKeeps(s: Sys)
    requires Inv(s) && Enabled(s, DisconnectAndRelease)
    ensures Inv(ReleaseStep(s))
  {
    hide *;
    ControlOf(s);
    UsesGoodHandle(s, DisconnectAndRelease);
    GoodHandleExists(s);
    DataOf(s);
    ReleaseControl(s);
    ReleaseData(s);
    ReleasedInv(ReleaseStep(s));
  }

  lemma ReleasedInv(t: Sys)
    requires ControlInv(t) && t.released && if t.deletes == 0 then DataInv(t.sock) else HistoryInv(t.sock.log)
    ensures Inv(t)
  {
    hide ControlInv, DataInv, NothingDropped, HistoryInv;
  }

  /** Main invariant theorem: one enabled step of either actor. */
  lemma StepKeeps(s: Sys, a: Action)
    requires Inv(s) && Enabled(s, a)
    ensures Inv(Step(s, a))
  {
    hide Inv, WorkerStep, ReleaseStep, SendText;
    match a
    case Worker(e) => WorkerKeeps(s, e);
    case ConnectRefused => StartKeeps(s, a);
    case Spawn => StartKeeps(s, a);
    case SpawnFails => StartKeeps(s, a);
    case StoreThread => StoreKeeps(s, a);
    case StoreCommand => StoreKeeps(s, a);
    case Text(text, mask) => TextKeeps(s, text, mask);
    case DisconnectAndRelease => ReleaseKeeps(s);
  }

  /** Every reachable state satisfies the invariant. */
  lemma {:induction false} ReachableInv(actions: seq<Action>)
    requires Run(actions)
    ensures Inv(After(actions))
  {
    if actions == [] {
      InitInv();
    } else {
      hide Inv, Step;
      ReachableInv(actions[..|actions| - 1]);
      StepKeeps(After(actions[..|actions| - 1]), actions[|actions| - 1]);
    }
  }
}
