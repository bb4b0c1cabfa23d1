/**
  What holds in every reachable state: over all interleavings of worker and
  application, all outcomes of the transport, all chunkings of the stream.
*/
module SystemTheorems {
  import opened Bytes
  import opened FrameSpec
  import opened Reassembly
  import opened SocketSpec
  import opened SocketProofs
  import opened System
  import opened SystemInvariant
  import opened SystemSteps

  // ------------------------------------------------------------ callback order

  /** (Connected Received*)? Disconnected?, said by positions. */
  ghost predicate WellOrdered(trace: seq<Event>) {
    forall i :: 0 <= i < |trace| ==>
      && (trace[i].Connected? ==> i == 0)
      && (trace[i].Received? ==> trace[0].Connected?)
      && (trace[i].Disconnected? ==> i == |trace| - 1)
  }

  lemma {:induction false} PhaseMeaning(trace: seq<Event>)
    ensures Phase(trace) != BadTrace <==> WellOrdered(trace)
    ensures Phase(trace) == Before <==> trace == []
    ensures Phase(trace) == Done ==> trace != [] && trace[|trace| - 1].Disconnected?
    ensures Phase(trace) == During ==> trace != [] && trace[0].Connected? && !trace[|trace| - 1].Disconnected?
  {
    if trace != [] {
      var n := |trace| - 1;
      var front := trace[..n];
      PhaseMeaning(front);
      assert forall i :: 0 <= i < n ==> front[i] == trace[i];
      if WellOrdered(trace) {
        assert WellOrdered(front) by {
          forall i | 0 <= i < n
            ensures (front[i].Connected? ==> i == 0) && (front[i].Received? ==> front[0].Connected?) &&
                    (front[i].Disconnected? ==> i == n - 1)
          {
            assert trace[i] == front[i];
          }
        }
        assert trace[n] == trace[n];
        if n > 0 {
          assert front[n - 1] == trace[n - 1];
        }
      }
    }
  }

  /**
    In every run the callbacks come as (Connected Received*)? Disconnected?, even
    when the socket is released from inside one of them.
  */
  lemma CallbackOrder(actions: seq<Action>)
    requires Run(actions)
    ensures WellOrdered(After(actions).sock.log.trace)
  {
    ReachableInv(actions);
    PhaseMeaning(After(actions).sock.log.trace);
  }

  /** One handshake, first; queued frames only behind it; nothing queued after a close frame. */
  ghost predicate WellSent(wire: seq<Sent>) {
    && (forall i :: 0 <= i < |wire| ==> (wire[i].Handshake? ==> i == 0) && (wire[i].Queued? ==> wire[0].Handshake?))
    && (forall i, j :: 0 <= i < j < |wire| ==> (wire[i].Closing? ==> wire[j].Closing?))
  }

  lemma {:induction false} WireMeaning(wire: seq<Sent>)
    ensures Wire(wire) != BadWire ==> WellSent(wire)
    ensures Wire(wire) == Unsent <==> wire == []
    ensures Wire(wire) == Upgraded ==> wire[0].Handshake? && forall i :: 0 <= i < |wire| ==> !wire[i].Closing?
  {
    if wire != [] {
      var n := |wire| - 1;
      WireMeaning(wire[..n]);
      assert forall i :: 0 <= i < n ==> wire[..n][i] == wire[i];
    }
  }

  /** Section 5.5.1 of RFC 6455: after a close frame no further data frame is sent, in any run. */
  lemma TransportOrder(actions: seq<Action>)
    requires Run(actions)
    ensures WellSent(After(actions).sock.log.wire)
  {
    ReachableInv(actions);
    WireMeaning(After(actions).sock.log.wire);
  }

  // --------------------------------------------------------------- ownership

  /**
    Nobody deletes twice, the socket is gone exactly when its owner is done with it,
    and a socket that is gone without having been released has called on_disconnected,
    as its last callback.
  */
  lemma SingleOwner(actions: seq<Action>)
    requires Run(actions)
    ensures var s := After(actions);
      && s.deletes <= 1
      && (s.deletes == 1 <==> s.pc == Gone || (s.pc == NoWorker && s.released))
      && (s.deletes == 1 && !s.released ==> s.sock.log.trace != [] && s.sock.log.trace[|s.sock.log.trace| - 1] == Disconnected)
  {
    ReachableInv(actions);
    DeletedKnown(After(actions));
  }

  lemma DeletedKnown(s: Sys)
    requires Inv(s)
    ensures s.deletes == 1 && !s.released ==> s.sock.log.trace != [] && s.sock.log.trace[|s.sock.log.trace| - 1] == Disconnected
  {
    PristinePhases();
    hide Phase, Wire, DataInv, HistoryInv, QueueInv, CommandInv, Seen, Settled;
  }

  /**
    Neither the worker nor a client who keeps the contract ever acts on a deleted
    socket, although the contract speaks only of what the client can see.
  */
  lemma NoUseAfterDelete(actions: seq<Action>, a: Action)
    requires Run(actions) && Enabled(After(actions), a)
    ensures After(actions).deletes == 0
  {
    var s := After(actions);
    ReachableInv(actions);
    hide Run, After, Inv, ControlInv;
    ControlOf(s);
    if a.Text? || a.DisconnectAndRelease? {
      GoodHandleExists(s);
    } else {
      ActsOnLiveSocket(s, a);
    }
  }

  lemma ActsOnLiveSocket(s: Sys, a: Action)
    requires ControlInv(s) && Enabled(s, a) && !a.Text? && !a.DisconnectAndRelease?
    ensures s.deletes == 0
  {
    hide Phase, Wire, PcInv;
  }

  /** Releasing deletes exactly when no worker was ever started; otherwise the worker does it. */
  lemma WhoDeletes(actions: seq<Action>)
    requires Run(actions) && Enabled(After(actions), DisconnectAndRelease)
    ensures var s, t := After(actions), ReleaseStep(After(actions));
      t.deletes == s.deletes + (if s.pc == NoWorker then 1 else 0)
  {
    ReachableInv(actions);
    hide Run, After, Inv, Release, Delete, ReleaseDeletes, Enabled;
    ReleaseBranch(After(actions));
  }

  /**
    The last branch of `rws_socket_disconnect_and_release`, which would return with the
    work mutex locked, is never taken by a client who keeps the contract.
  */
  lemma ReleaseUnlocks(actions: seq<Action>)
    requires Run(actions) && Enabled(After(actions), DisconnectAndRelease)
    ensures var k := After(actions).sock; k.connected || k.worker || k.command != END
  {
    ReachableInv(actions);
    hide Run, After, Inv, ControlInv, Enabled;
    ControlOf(After(actions));
    ReleaseTakesABranch(After(actions));
  }

  lemma ReleaseTakesABranch(s: Sys)
    requires ControlInv(s) && Enabled(s, DisconnectAndRelease)
    ensures s.sock.connected || s.sock.worker || s.sock.command != END
  {
    hide Phase, Wire, PcInv;
  }

  /**
    Why a release may not overlap `rws_socket_connect`: before `work_thread` is stored
    it would delete the socket under the running worker, and before the command is
    stored its END would be overwritten.
  */
  lemma ReleaseDuringConnect(actions: seq<Action>)
    requires Run(actions) && After(actions).app != Calm
    ensures var s := After(actions);
      && (s.app == Spawned ==> ReleaseDeletes(s.sock) && s.pc != NoWorker && s.pc != Gone)
      && (s.app == Stored ==>
            Release(s.sock).command == END && Step(s.(sock := Release(s.sock)), StoreCommand).sock.command == CONNECT_TO_HOST)
  {
    ReachableInv(actions);
    hide Phase, Wire, Pending, DataInv, HistoryInv, PcInv, QueueInv, Run, After;
  }

  lemma ReleaseBranch(s: Sys)
    requires Inv(s) && Enabled(s, DisconnectAndRelease)
    ensures ReleaseDeletes(s.sock) <==> s.pc == NoWorker
  {
    hide Phase, Wire, Pending, DataInv, HistoryInv, QueueInv, CommandInv, Seen;
  }

  /** While `rws_socket_connect` runs, the worker idles at command NONE and calls nobody back. */
  lemma StartUpWindow(actions: seq<Action>)
    requires Run(actions) && After(actions).app != Calm
    ensures var s := After(actions);
      s.sock.command == NONE && s.sock.log.trace == [] && s.deletes == 0 && !s.released
  {
    ReachableInv(actions);
    hide Phase, Wire, Pending, DataInv, HistoryInv, PcInv;
  }

  // -------------------------------------------------------- reachable states

  lemma Extend(actions: seq<Action>, a: Action)
    requires Run(actions) && Enabled(After(actions), a)
    ensures Run(actions + [a]) && After(actions + [a]) == Step(After(actions), a)
  {
    hide Step, Enabled;
    Front(actions, a);
  }

  /** One iteration of the worker's loop up to and including the second switch. */
  lemma OneIteration(actions: seq<Action>, e: Env) returns (longer: seq<Action>)
    requires Run(actions) && After(actions).pc == LoopTest && After(actions).sock.command < END
    ensures Run(longer)
    ensures After(longer) == Second(After(actions).(sock := Section(After(actions).sock, e), pc := SecondSwitch))
  {
    hide Run, After, Second, Section;
    var a := Worker(e);
    Extend(actions, a);
    Extend(actions + [a], a);
    Extend(actions + [a] + [a], a);
    longer := actions + [a] + [a] + [a];
  }

  /** The documented meaning of the fields, in every reachable state. */
  lemma FieldsMean(actions: seq<Action>)
    requires Run(actions)
    ensures var k := After(actions).sock;
      && (k.connected ==> k.open && k.log.upgraded)
      && (k.command == SEND_HANDSHAKE || k.command == WAIT_HANDSHAKE_RESPONSE ==>
            k.open && !k.connected && !k.log.upgraded && k.log.trace == [])
      && (k.command == IDLE ==> k.connected && k.log.trace != [] && k.log.trace[0] == Connected)
      && (k.log.trace != [] && k.log.trace[|k.log.trace| - 1] == Disconnected ==> ShuttingDown(k.command))
  {
    var s := After(actions);
    ReachableInv(actions);
    PhaseMeaning(s.sock.log.trace);
    CommandMeans(s);
  }

  lemma CommandMeans(s: Sys)
    requires Inv(s)
    ensures var k, p := s.sock, Phase(s.sock.log.trace);
      && (k.connected ==> k.open && k.log.upgraded)
      && (k.command == SEND_HANDSHAKE || k.command == WAIT_HANDSHAKE_RESPONSE ==>
            k.open && !k.connected && !k.log.upgraded && p == Before)
      && (k.command == IDLE ==> k.connected && p == During)
      && (p == Done ==> ShuttingDown(k.command))
  {
    PristinePhases();
    hide Phase, Wire, Pending, DataInv, HistoryInv, QueueInv, Seen;
  }

  /**
    At every point of every run, callbacks in progress included, at most one received
    frame is unfinished and it sits in the last node, so the scan for it is a look at
    the tail; it is the open fragment of the frames processed.
  */
  lemma ReceiveListShape(actions: seq<Action>)
    requires Run(actions) && After(actions).deletes == 0
    ensures var k := After(actions).sock;
      && ListInv(k.recvQ) && OpenSlot(k.recvQ) == OpenFragment(Frames(k.log.cut))
      && (LastUnfinished(k.recvQ) < |k.recvQ| ==> LastUnfinished(k.recvQ) == |k.recvQ| - 1)
      && DeliveredIn(k.log.trace) + Pending(k.recvQ) == Messages(Frames(k.log.cut))
  {
    ReachableInv(actions);
    DataOf(After(actions));
    ScanIsTail(After(actions).sock.recvQ);
    hide StreamInv, PongInv, SendInv, Pending, Messages, DeliveredIn, OpenFragment, Frames, Run, After, ControlInv;
  }

  /**
    Between two ticks of a live connection everything processed has been delivered,
    and the receive list is NULL or has the open fragment, in its last node, as its
    only live entry.
  */
  lemma SettledBetweenTicks(actions: seq<Action>)
    requires Run(actions) && After(actions).pc == LoopTest && After(actions).sock.command == IDLE
    ensures var k := After(actions).sock;
      && Settled(k.recvQ) && OpenSlot(k.recvQ) == OpenFragment(Frames(k.log.cut))
      && DeliveredIn(k.log.trace) == Messages(Frames(k.log.cut))
      && NothingDropped(k)
  {
    var s := After(actions);
    ReachableInv(actions);
    StillThere(s);
    DataOf(s);
    hide *;
    AtLoopTest(s);
    SettledPends(s.sock.recvQ);
    ListAndDeliveries(s.sock);
    assert DeliveredIn(s.sock.log.trace) + [] == DeliveredIn(s.sock.log.trace);
  }

  lemma AtLoopTest(s: Sys)
    requires ControlInv(s) && QueueInv(s) && s.pc == LoopTest && s.sock.command == IDLE
    ensures Settled(s.sock.recvQ) && NothingDropped(s.sock)
  {
    PristinePhases();
    hide Phase, Wire, Settled, NothingDropped, CommandInv;
  }

  lemma ListAndDeliveries(k: Sock)
    requires DataInv(k)
    ensures ListInv(k.recvQ) && OpenSlot(k.recvQ) == OpenFragment(Frames(k.log.cut))
    ensures DeliveredIn(k.log.trace) + Pending(k.recvQ) == Messages(Frames(k.log.cut))
  {
    hide StreamInv, PongInv, SendInv, Pending, Messages, DeliveredIn, OpenFragment, OpenSlot, ListInv, Frames;
  }

  /**
    No processed message is lost unless the client releases the socket: when a
    connection has ended by itself, all of them have been delivered.
  */
  lemma NoMessageLost(actions: seq<Action>)
    requires Run(actions) && !After(actions).released && Disconnected in After(actions).sock.log.trace
    ensures DeliveredIn(After(actions).sock.log.trace) == Messages(Frames(After(actions).sock.log.cut))
  {
    var s := After(actions);
    ReachableInv(actions);
    hide Run, After, Inv, ControlInv, Messages, Frames, DeliveredIn;
    ControlOf(s);
    DisconnectedIsDone(s.sock.log.trace);
    if s.deletes == 0 {
      DataOf(s);
      EndedSettled(s);
      SettledDelivers(s.sock);
    } else {
      DeletedDelivered(s);
    }
  }

  lemma {:induction false} DisconnectedIsDone(trace: seq<Event>)
    requires Disconnected in trace
    ensures Phase(trace) == Done || Phase(trace) == BadTrace
  {
    if trace[|trace| - 1] != Disconnected {
      assert Disconnected in trace[..|trace| - 1];
      DisconnectedIsDone(trace[..|trace| - 1]);
    }
  }

  lemma EndedSettled(s: Sys)
    requires ControlInv(s) && !s.released && (Phase(s.sock.log.trace) == Done || Phase(s.sock.log.trace) == BadTrace)
    ensures Settled(s.sock.recvQ)
  {
    PristinePhases();
    hide Phase, Wire, Settled;
  }

  lemma DeletedDelivered(s: Sys)
    requires Inv(s) && s.deletes != 0 && !s.released
    ensures AllDelivered(s.sock.log)
  {
    hide ControlInv, HistoryInv, AllDelivered, DataInv, QueueInv;
  }

  // ---------------------------------------------------------- what is sent

  lemma ReachableHistory(actions: seq<Action>)
    requires Run(actions)
    ensures HistoryInv(After(actions).sock.log)
  {
    ReachableInv(actions);
    if After(actions).deletes == 0 {
      DataIsHistory(After(actions).sock);
    }
  }

  /** In every run the queue hands over a beginning of the accepted frames, each once and in order. */
  lemma SendFifo(actions: seq<Action>)
    requires Run(actions)
    ensures var log := After(actions).sock.log; QueuedIn(log.wire) <= log.accepted
  {
    ReachableHistory(actions);
  }

  /** Once the connection is being given up, no later action hands over another queued frame. */
  lemma DroppedStaysDropped(actions: seq<Action>, a: Action)
    requires Run(actions) && Enabled(After(actions), a)
    requires OnItsWayOut(After(actions))
    ensures QueuedIn(Step(After(actions), a).sock.log.wire) == QueuedIn(After(actions).sock.log.wire)
    ensures OnItsWayOut(Step(After(actions), a))
  {
    var s := After(actions);
    ReachableInv(actions);
    GivenUp(s, a);
  }

  lemma CloseNotQueued(k: Sock, ok: bool, mask: Mask)
    ensures QueuedIn(SendClose(k, ok, mask).log.wire) == QueuedIn(k.log.wire)
    ensures SendClose(k, ok, mask).command == k.command
  {
    hide Encode, Decimal, NextId, QueuedIn;
    var (id, counter) := NextId(k.nextId);
    QueuedSnoc(k.log.wire, Closing(Encode(CLOSE, Some(mask), Decimal(id))));
    assert QueuedIn(k.log.wire) + [] == QueuedIn(k.log.wire);
  }

  lemma SectionGivenUp(k: Sock, e: Env)
    requires k.command == INFORM_DISCONNECTED || ShuttingDown(k.command)
    ensures var t := Section(k, e);
      QueuedIn(t.log.wire) == QueuedIn(k.log.wire) && t.command == (if k.command == DISCONNECT then END else k.command)
      && |t.recvQ| == |k.recvQ|
  {
    CloseNotQueued(k, e.ok, e.mask);
    hide QueuedIn, SendClose, IdleSection, WaitHandshake, SendHandshake, ConnectToHost;
    CloseFrameList(k, e.ok, e.mask);
  }

  lemma CloseFrameList(k: Sock, ok: bool, mask: Mask)
    ensures SendClose(k, ok, mask).recvQ == k.recvQ
  {
    hide NextId, Encode, Decimal;
  }

  lemma SecondGivenUp(s: Sys)
    requires s.sock.command == INFORM_DISCONNECTED || ShuttingDown(s.sock.command)
    ensures Second(s) ==
      if s.sock.command == INFORM_DISCONNECTED then s.(sock := s.sock.(command := END), pc := Ending)
      else s.(pc := LoopTest)
  {
  }

  lemma InformNodeFrame(s: Sys)
    requires s.pc.Informing?
    ensures var t := InformNode(s);
      && t.sock.command == s.sock.command && t.sock.log.wire == s.sock.log.wire
      && (t.pc == LoopTest ||
          (s.pc.next < |s.sock.recvQ| && t.pc.Informing? && t.pc.next == s.pc.next + 1 && |t.sock.recvQ| == |s.sock.recvQ|))
  {
    hide SlotDelivery, Informed, AsEvents, Unfinished;
  }

  /** One step of the worker of a socket that is given up: nothing queued goes out, and the rank falls. */
  ghost predicate Descends(s: Sys, t: Sys) {
    && QueuedIn(t.sock.log.wire) == QueuedIn(s.sock.log.wire)
    && (t.sock.command == s.sock.command || t.sock.command == END)
    && (AnnouncedOrOver(s) ==> Rank(t) < Rank(s) && t.pc != NoWorker && AnnouncedOrOver(t))
  }

  ghost predicate OnItsWayOut(s: Sys) {
    s.sock.command == INFORM_DISCONNECTED || ShuttingDown(s.sock.command)
  }

  /** What the invariant leaves of that: INFORM_DISCONNECTED is met in the second switch only. */
  ghost predicate AnnouncedOrOver(s: Sys) {
    (s.sock.command == INFORM_DISCONNECTED && s.pc == SecondSwitch) || ShuttingDown(s.sock.command)
  }

  lemma DescendAtLoop(s: Sys, e: Env)
    requires OnItsWayOut(s) && (s.pc == LoopTest || s.pc == InConnected || s.pc == InDisconnected)
    ensures Descends(s, WorkerStep(s, e))
  {
    hide QueuedIn;
  }

  lemma DescendInSection(s: Sys, e: Env)
    requires OnItsWayOut(s) && s.pc == InSection
    ensures Descends(s, WorkerStep(s, e))
  {
    hide QueuedIn, Section;
    SectionGivenUp(s.sock, e);
  }

  lemma DescendSecond(s: Sys, e: Env)
    requires OnItsWayOut(s) && s.pc == SecondSwitch
    ensures Descends(s, WorkerStep(s, e))
  {
    hide QueuedIn, Second;
    SecondGivenUp(s);
  }

  lemma DescendInforming(s: Sys, e: Env)
    requires OnItsWayOut(s) && s.pc.Informing? && s.pc.next <= |s.sock.recvQ|
    ensures Descends(s, WorkerStep(s, e))
  {
    hide QueuedIn, InformNode;
    InformNodeFrame(s);
  }

  lemma DescendEnding(s: Sys, e: Env)
    requires OnItsWayOut(s) && (s.pc == Ending || s.pc == CloseSent)
    ensures Descends(s, WorkerStep(s, e))
  {
    hide QueuedIn, SendClose;
    CloseNotQueued(s.sock, e.ok, e.mask);
  }

  lemma DescendOut(s: Sys, e: Env)
    requires OnItsWayOut(s) && (s.pc == Ended || s.pc == Leaving || s.pc == Closed || s.pc == Detached)
    ensures Descends(s, WorkerStep(s, e))
  {
    hide QueuedIn;
  }

  lemma WorkerDescends(s: Sys, e: Env)
    requires OnItsWayOut(s) && s.pc != NoWorker && s.pc != Gone
    requires s.pc.Informing? ==> s.pc.next <= |s.sock.recvQ|
    ensures Descends(s, WorkerStep(s, e))
  {
    hide Descends, OnItsWayOut, WorkerStep;
    match s.pc
    case LoopTest => DescendAtLoop(s, e);
    case InConnected => DescendAtLoop(s, e);
    case InDisconnected => DescendAtLoop(s, e);
    case InSection => DescendInSection(s, e);
    case SecondSwitch => DescendSecond(s, e);
    case Informing(_, _) => DescendInforming(s, e);
    case Ending => DescendEnding(s, e);
    case CloseSent => DescendEnding(s, e);
    case _ => DescendOut(s, e);
  }

  lemma ApplicationDropsNothingBack(s: Sys, a: Action)
    requires Enabled(s, a) && !a.Worker? && s.app == Calm && s.pc != NoWorker && OnItsWayOut(s)
    requires s.sock.worker || s.sock.connected || s.sock.command == END || s.released
    ensures QueuedIn(Step(s, a).sock.log.wire) == QueuedIn(s.sock.log.wire) && OnItsWayOut(Step(s, a))
  {
    hide QueuedIn, WorkerStep, Encode;
  }

  lemma GivenUp(s: Sys, a: Action)
    requires Inv(s) && Enabled(s, a) && OnItsWayOut(s)
    ensures QueuedIn(Step(s, a).sock.log.wire) == QueuedIn(s.sock.log.wire) && OnItsWayOut(Step(s, a))
  {
    NotConnecting(s);
    InformingBound(s);
    if a.Worker? {
      hide QueuedIn, WorkerStep, Inv, Rank;
      WorkerDescends(s, a.env);
    } else {
      hide QueuedIn, Step, Inv, OnItsWayOut, Enabled;
      ApplicationDropsNothingBack(s, a);
    }
  }

  lemma NotConnecting(s: Sys)
    requires Inv(s) && (s.sock.command == INFORM_DISCONNECTED || ShuttingDown(s.sock.command))
    ensures s.app == Calm && s.pc != NoWorker && (s.sock.worker || s.sock.connected || s.sock.command == END || s.released)
  {
    hide Phase, Wire, Pending, DataInv, HistoryInv, QueueInv, Seen, CommandInv;
  }

  /** One pong for each ping processed, in ping order, carrying the ping's payload, in every run. */
  lemma PongsAnswerPings(actions: seq<Action>)
    requires Run(actions)
    ensures var log := After(actions).sock.log;
      var pongs, pings := PongsIn(log.accepted), PingsIn(Frames(log.cut));
      |pongs| == |pings| && forall i :: 0 <= i < |pongs| ==> WirePayload(pongs[i]) == Some(pings[i])
  {
    ReachableHistory(actions);
  }

  // --------------------------------------------------------------- shutdown

  /** An upper bound on the steps the worker still takes. */
  function Rank(s: Sys): nat {
    var end := s.sock.command == END;
    match s.pc
    case NoWorker => 0
    case Gone => 0
    case Detached => 1
    case Closed => 2
    case Leaving => 3
    case LoopTest => if end then 4 else 8
    case SecondSwitch => if end then 5 else if s.sock.command == INFORM_DISCONNECTED then 13 else 9
    case InSection => if end then 6 else 7
    case InConnected => 9
    case InDisconnected => 9
    case Ended => 10
    case CloseSent => 11
    case Ending => 12
    case Informing(i, _) => if i <= |s.sock.recvQ| then 10 + |s.sock.recvQ| - i else 9
  }

  /** Every step of the worker of a socket on its way out leads down, and never back to work. */
  lemma ShutdownDescends(s: Sys, e: Env)
    requires Inv(s) && OnItsWayOut(s) && s.pc != Gone
    ensures var t := WorkerStep(s, e);
      Rank(t) < Rank(s) && OnItsWayOut(t) && t.pc != NoWorker
  {
    NotConnecting(s);
    GivenUpWhere(s);
    InformingBound(s);
    hide *;
    WorkerDescends(s, e);
    DescendsMeans(s, WorkerStep(s, e));
  }

  lemma DescendsMeans(s: Sys, t: Sys)
    requires Descends(s, t) && AnnouncedOrOver(s)
    ensures Rank(t) < Rank(s) && OnItsWayOut(t) && t.pc != NoWorker
  {
    hide Rank, QueuedIn;
  }

  lemma GivenUpWhere(s: Sys)
    requires Inv(s) && OnItsWayOut(s)
    ensures AnnouncedOrOver(s)
  {
    hide Phase, Wire, Settled, DataInv, HistoryInv, QueueInv, Seen;
    NotConnecting(s);
  }

  lemma InformingBound(s: Sys)
    requires Inv(s)
    ensures s.pc.Informing? ==> s.pc.next <= |s.sock.recvQ|
  {
    hide Phase, Wire, Pending, DataInv, HistoryInv, QueueInv, CommandInv;
  }

  /** The same with the application in play, whose release may send the worker round once more. */
  function StepsLeft(s: Sys): nat {
    if s.pc == Gone then 0 else Rank(s) + if s.released then 0 else 4
  }

  function WorkerSteps(actions: seq<Action>): nat {
    if actions == [] then 0
    else WorkerSteps(actions[..|actions| - 1]) + if actions[|actions| - 1].Worker? then 1 else 0
  }

  lemma StepsLeftBound(s: Sys)
    ensures StepsLeft(s) <= 17 + |s.sock.recvQ|
  {
  }

  lemma RankPositive(s: Sys)
    requires s.pc != NoWorker && s.pc != Gone
    ensures Rank(s) > 0
  {
  }

  lemma WorkerKeepsReleased(s: Sys, e: Env)
    ensures WorkerStep(s, e).released == s.released
  {
    hide InformNode, Second, Section, SendClose;
    SecondGivenUpOrNot(s);
  }

  lemma SecondGivenUpOrNot(s: Sys)
    ensures Second(s).released == s.released
    ensures s.pc.Informing? ==> InformNode(s).released == s.released
  {
    hide SlotDelivery, AsEvents, Informed, Unfinished;
  }

  /** No action of the application raises the bound. */
  lemma ApplicationAddsNothing(s: Sys, a: Action)
    requires Enabled(s, a) && !a.Worker? && s.app == Calm && s.pc != NoWorker && s.pc != Gone && OnItsWayOut(s)
    requires s.sock.worker || s.sock.connected || s.sock.command == END || s.released
    ensures StepsLeft(Step(s, a)) <= StepsLeft(s)
  {
    hide WorkerStep, Encode;
  }

  lemma StepTakesOne(s: Sys, a: Action)
    requires Inv(s) && Enabled(s, a) && OnItsWayOut(s)
    ensures StepsLeft(Step(s, a)) + (if a.Worker? then 1 else 0) <= StepsLeft(s)
  {
    NotConnecting(s);
    NotGone(s, a);
    hide Inv, OnItsWayOut;
    if a.Worker? {
      ShutdownDescends(s, a.env);
      WorkerKeepsReleased(s, a.env);
      hide WorkerStep, Rank;
    } else {
      hide Enabled, Step, StepsLeft;
      ApplicationAddsNothing(s, a);
    }
  }

  lemma NotGone(s: Sys, a: Action)
    requires Inv(s) && Enabled(s, a)
    ensures s.pc != Gone || s.app != Calm
  {
    DeletedKnown(s);
    hide Phase, Wire, DataInv, HistoryInv, QueueInv, PcInv;
  }

  lemma {:induction false} StepsAdd(actions: seq<Action>, more: seq<Action>)
    requires Run(actions + more) && OnItsWayOut(After(actions))
    ensures OnItsWayOut(After(actions + more))
    ensures WorkerSteps(more) + StepsLeft(After(actions + more)) <= StepsLeft(After(actions))
    decreases |more|
  {
    if more == [] {
      assert actions + more == actions;
    } else {
      var front, a := more[..|more| - 1], more[|more| - 1];
      assert (actions + more)[..|actions + more| - 1] == actions + front && (actions + more)[|actions + more| - 1] == a;
      hide Step, Enabled, StepsLeft, OnItsWayOut;
      StepsAdd(actions, front);
      var s := After(actions + front);
      ReachableInv(actions + front);
      StepTakesOne(s, a);
      GivenUp(s, a);
    }
  }

  /** After its release a socket with a worker is never used by the application again, and stays on its way out. */
  lemma ReleasedIsShuttingDown(actions: seq<Action>)
    requires Run(actions) && After(actions).released && After(actions).pc != NoWorker
    ensures ShuttingDown(After(actions).sock.command)
    ensures forall a :: Enabled(After(actions), a) ==> a.Worker?
  {
    ReachableInv(actions);
    hide Run, After, Inv, ControlInv, Enabled;
    ControlOf(After(actions));
    ReleasedState(After(actions));
  }

  lemma ReleasedState(s: Sys)
    requires ControlInv(s) && s.released && s.pc != NoWorker
    ensures ShuttingDown(s.sock.command)
    ensures forall a :: Enabled(s, a) ==> a.Worker?
  {
    hide Phase, Wire, PcInv;
  }

  /**
    Main shutdown theorem, for a socket that has been released or whose connection is
    being given up, and for everything that worker, application and transport may do
    from there: the worker takes at most `StepsLeft` more steps, and either it has left
    its loop and deleted the socket, once, or it can go on.
  */
  lemma ShutdownTerminates(actions: seq<Action>, more: seq<Action>)
    requires Run(actions + more) && OnItsWayOut(After(actions))
    ensures var s, t := After(actions), After(actions + more);
      && WorkerSteps(more) <= StepsLeft(s) <= 17 + |s.sock.recvQ|
      && (if WorkerSteps(more) == StepsLeft(s) || t.pc == Gone then t.pc == Gone && t.deletes == 1
          else t.deletes == 0 && forall e :: Enabled(t, Worker(e)))
  {
    var s, t := After(actions), After(actions + more);
    StepsAdd(actions, more);
    StepsLeftBound(s);
    ReachableInv(actions + more);
    SingleOwner(actions + more);
    NotConnecting(t);
    hide Run, After, Inv, Rank, OnItsWayOut;
    if t.pc != Gone {
      RankPositive(t);
    }
  }

  /** The node-by-node inform loop of the system is the whole call of the socket model. */
  lemma {:induction false} InformStepsAreInform(s: Sys)
    requires s.pc.Informing? && Seen(s.sock.recvQ, s.pc.next, s.pc.allFinished) && ListInv(s.sock.recvQ)
    ensures InformRest(s) == s.(sock := Inform(s.sock), pc := LoopTest)
    decreases |s.sock.recvQ| - s.pc.next
  {
    var k, i := s.sock, s.pc.next;
    if i == |k.recvQ| {
      InformFinish(s);
    } else {
      var t := InformNode(s);
      SeenNext(k.recvQ, i, s.pc.allFinished);
      SeenSettled(k.recvQ, i, s.pc.allFinished);
      InformOne(k.recvQ, i);
      InformSplit(k, i);
      hide Pending, AfterInform, AsEvents, Seen, SlotDelivery, ListInv, Informed, Unfinished, Inform;
      InformStepsAreInform(t);
    }
  }

  lemma InformFinish(s: Sys)
    requires s.pc.Informing? && s.pc.next == |s.sock.recvQ| && Seen(s.sock.recvQ, s.pc.next, s.pc.allFinished)
    ensures InformNode(s) == s.(sock := Inform(s.sock), pc := LoopTest)
  {
    var k := s.sock;
    NothingPendingSeen(k.recvQ, s.pc.allFinished);
    assert InformedAll(k.recvQ) == k.recvQ;
    assert k.log.trace + AsEvents([]) == k.log.trace;
    hide Pending, AsEvents, Informed;
  }

  /** Informing one node first and then the rest is informing the list. */
  lemma InformSplit(k: Sock, i: nat)
    requires i < |k.recvQ| && ListInv(k.recvQ) && forall j :: 0 <= j < i ==> k.recvQ[j] == Informed(k.recvQ[j])
    ensures Inform(k) == Inform(k.(recvQ := k.recvQ[i := Informed(k.recvQ[i])],
      log := k.log.(trace := k.log.trace + AsEvents(SlotDelivery(k.recvQ[i])))))
  {
    hide Pending, AfterInform, AsEvents, SlotDelivery, ListInv, Informed;
    InformOne(k.recvQ, i);
    AfterInformSame(k.recvQ, i);
    var m, rest := SlotDelivery(k.recvQ[i]), Pending(k.recvQ[i := Informed(k.recvQ[i])]);
    EventsJoin(m, rest);
    assert k.log.trace + (AsEvents(m) + AsEvents(rest)) == (k.log.trace + AsEvents(m)) + AsEvents(rest);
  }

  lemma AfterInformSame(q: seq<Slot>, i: nat)
    requires i < |q|
    ensures AfterInform(q[i := Informed(q[i])]) == AfterInform(q)
  {
    var r := q[i := Informed(q[i])];
    assert forall j :: 0 <= j < |q| ==> Unfinished(r[j]) == Unfinished(q[j]);
    assert InformedAll(r) == InformedAll(q);
  }

  lemma {:induction false} EventsJoin(a: seq<Message>, b: seq<Message>)
    ensures AsEvents(a + b) == AsEvents(a) + AsEvents(b)
    decreases |b|
  {
    if b == [] {
      assert a + b == a;
    } else {
      var n := |b| - 1;
      EventsJoin(a, b[..n]);
      assert (a + b)[..|a + b| - 1] == a + b[..n];
    }
  }
}
