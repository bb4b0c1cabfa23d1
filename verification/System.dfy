/**
  Worker thread and application as one transition system.

  A step is what nothing can interrupt: a critical section of the work mutex, the
  read-then-write of `command` in the second switch, one node of the inform loop,
  one store outside the lock.  Between any two steps of the worker the application
  may act, from its own thread or from inside a callback.
*/
module System {
  import opened Bytes
  import opened Reassembly
  import opened SocketSpec

  /** Where the worker stands in `rws_socket_work_th_func`. */
  datatype Pc =
    | NoWorker
    | LoopTest                                  // about to test the loop condition
    | InSection                                 // about to run the first switch
    | SecondSwitch                              // mutex released
    | InConnected                               // inside on_connected
    | Informing(next: nat, allFinished: bool)   // inform loop, before node `next`
    | Ending                                    // disconnect announced, END stored
    | CloseSent                                 // close frame passed to the transport
    | Ended                                     // END stored again
    | InDisconnected                            // inside on_disconnected
    | Leaving                                   // out of the loop
    | Closed                                    // socket closed
    | Detached                                  // work_thread cleared
    | Gone                                      // socket deleted

  /** Where the application stands in `rws_socket_connect`. */
  datatype AppPc = Calm | Spawned | Stored

  datatype Sys = Sys(sock: Sock, pc: Pc, app: AppPc, released: bool, deletes: nat)

  const INIT := Sys(FRESH, NoWorker, Calm, false, 0)

  function InformNode(s: Sys): Sys
    requires s.pc.Informing?
  {
    var k, i := s.sock, s.pc.next;
    if i >= |k.recvQ| then
      s.(sock := k.(recvQ := if s.pc.allFinished then [] else k.recvQ), pc := LoopTest)
    else
      s.(sock := k.(recvQ := k.recvQ[i := Informed(k.recvQ[i])],
                    log := k.log.(trace := k.log.trace + AsEvents(SlotDelivery(k.recvQ[i])))),
         pc := Informing(i + 1, s.pc.allFinished && !Unfinished(k.recvQ[i])))
  }

  function Second(s: Sys): Sys {
    var k := s.sock;
    if k.command == INFORM_CONNECTED then s.(sock := Announce(k.(command := IDLE), Connected), pc := InConnected)
    else if k.command == INFORM_DISCONNECTED then s.(sock := k.(command := END), pc := Ending)
    else if k.command == IDLE && k.recvQ != [] then s.(pc := Informing(0, true))
    else s.(pc := LoopTest)
  }

  function WorkerStep(s: Sys, e: Env): Sys {
    match s.pc
    case NoWorker => s
    case LoopTest => s.(pc := if s.sock.command < END then InSection else Leaving)
    case InSection => s.(sock := Section(s.sock, e), pc := SecondSwitch)
    case SecondSwitch => Second(s)
    case InConnected => s.(pc := LoopTest)
    case Informing(_, _) => InformNode(s)
    case Ending => s.(sock := SendClose(s.sock, e.ok, e.mask), pc := CloseSent)
    case CloseSent => s.(sock := s.sock.(command := END), pc := Ended)
    case Ended => s.(sock := Announce(s.sock, Disconnected), pc := InDisconnected)
    case InDisconnected => s.(pc := LoopTest)
    case Leaving => s.(sock := Close(s.sock), pc := Closed)
    case Closed => s.(sock := s.sock.(worker := false), pc := Detached)
    case Detached => s.(sock := Delete(s.sock), pc := Gone, deletes := s.deletes + 1)
    case Gone => s
  }

  datatype Action =
    | Worker(env: Env)
    | ConnectRefused                     // a parameter is missing
    | Spawn                              // command := NONE, thread created
    | SpawnFails                         // command := NONE, no thread
    | StoreThread                        // work_thread stored
    | StoreCommand                       // command := CONNECT_TO_HOST
    | Text(text: Bytes, mask: Mask)      // rws_socket_send_text
    | DisconnectAndRelease

  /**
    What a client of `librws.h` may rely on: the handle is good until it is released
    or `on_disconnected` has returned.  Both are things a client can see; whether the
    socket still exists is not among them.
  */
  predicate HandleGood(s: Sys) {
    !s.released && (Disconnected in s.sock.log.trace ==> s.pc == InDisconnected)
  }

  /**
    The client contract: a connection is started at most once, the socket is released
    at most once and not in the middle of `rws_socket_connect`, and the handle is not
    used when it is no longer good.
  */
  predicate Enabled(s: Sys, a: Action) {
    match a
    case Worker(_) => s.pc != NoWorker && s.pc != Gone
    case ConnectRefused => s.pc == NoWorker && s.app == Calm && HandleGood(s)
    case Spawn => s.pc == NoWorker && s.app == Calm && HandleGood(s)
    case SpawnFails => s.pc == NoWorker && s.app == Calm && HandleGood(s)
    case StoreThread => s.app == Spawned
    case StoreCommand => s.app == Stored
    case Text(_, _) => HandleGood(s)
    case DisconnectAndRelease => HandleGood(s) && s.app == Calm
  }

  function ReleaseStep(s: Sys): Sys {
    if ReleaseDeletes(s.sock) then s.(sock := Delete(Release(s.sock)), released := true, deletes := s.deletes + 1)
    else s.(sock := Release(s.sock), released := true)
  }

  function Step(s: Sys, a: Action): Sys {
    match a
    case Worker(e) => WorkerStep(s, e)
    case ConnectRefused => s.(sock := s.sock.(buf := [], error := true))
    case Spawn => s.(sock := s.sock.(buf := [], error := false, command := NONE), pc := LoopTest, app := Spawned)
    case SpawnFails => s.(sock := s.sock.(buf := [], error := false, command := NONE))
    case StoreThread => s.(sock := s.sock.(worker := true), app := Stored)
    case StoreCommand => s.(sock := s.sock.(command := CONNECT_TO_HOST), app := Calm)
    case Text(text, mask) => s.(sock := SendText(s.sock, text, mask))
    case DisconnectAndRelease => ReleaseStep(s)
  }

  /** The state after a run, and whether every action of it was enabled in turn. */
  function After(actions: seq<Action>): Sys {
    if actions == [] then INIT else Step(After(actions[..|actions| - 1]), actions[|actions| - 1])
  }

  predicate Run(actions: seq<Action>) {
    actions == [] ||
    (Run(actions[..|actions| - 1]) && Enabled(After(actions[..|actions| - 1]), actions[|actions| - 1]))
  }

  /** The whole inform loop from node `i` on. */
  function InformRest(s: Sys): Sys
    requires s.pc.Informing?
    decreases if s.pc.next <= |s.sock.recvQ| then |s.sock.recvQ| - s.pc.next else 0
  {
    if s.pc.next >= |s.sock.recvQ| then InformNode(s) else InformRest(InformNode(s))
  }
}
