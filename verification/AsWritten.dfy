/**
  Two routines of the C sources whose text does something else than their
  documentation says.  The rest of the model follows the documentation; here the
  text is modelled as it stands, with the exact condition under which both agree.
*/
module AsWritten {
  import opened Bytes
  import opened FrameSpec
  import opened Reassembly
  import opened SocketSpec
  import opened SocketProofs
  import opened System
  import opened SystemTheorems
  import opened ExampleRuns

  // ------------------------------------------------- rws_frame_combine_datas

  /** A pointer into an allocated block. */
  datatype Pointer = Pointer(block: Bytes, offset: nat)

  /** What reading `size` octets at the pointer gives; None when they are not all inside the block. */
  function Read(p: Pointer, size: nat): Option<Bytes> {
    if p.offset + size <= |p.block| then Some(p.block[p.offset..p.offset + size]) else None
  }

  /**
    The block gets both payloads, but the pointer stored is the one already advanced
    past the first; the size stored is the sum.
  */
  function CombineAsWritten(to: Bytes, from: Bytes): (r: (Pointer, nat))
  {
    (Pointer(to + from, |to|), |to| + |from|)
  }

  /** The merged frame reads as both payloads exactly when the first one is empty. */
  lemma CombineExact(to: Bytes, from: Bytes)
    ensures var (p, size) := CombineAsWritten(to, from);
      Read(p, size) == Some(to + from) <==> to == []
  {
    if to == [] {
      assert (to + from)[0..|from|] == to + from;
    }
  }

  /** Whether processing a data frame calls the merge routine. */
  predicate Merges(q: seq<Slot>) {
    LastUnfinished(q) < |q|
  }

  /** A merge happens exactly when an unfinished, non-empty fragment is waiting. */
  lemma MergesWhen(q: seq<Slot>, frames: seq<RecvFrame>)
    requires ListInv(q) && OpenSlot(q) == OpenFragment(frames)
    ensures Merges(q) <==> SkipEmpty(OpenGroup(DataFrames(frames))) != []
  {
    ScanIsTail(q);
  }

  lemma {:induction false} SkipEmptyFirst(group: seq<RecvFrame>)
    ensures SkipEmpty(group) != [] ==> SkipEmpty(group)[0].data != []
  {
    if group != [] && group[0].data == [] {
      SkipEmptyFirst(group[1..]);
    }
  }

  lemma {:induction false} PayloadNotEmpty(group: seq<RecvFrame>)
    requires group != [] && group[0].data != []
    ensures Payload(group) != []
  {
    if |group| > 1 {
      PayloadNotEmpty(group[..|group| - 1]);
    } else {
      assert Payload(group) == Payload([]) + group[0].data;
    }
  }

  /** The open fragment is never empty: that is why every merge goes wrong. */
  lemma OpenFragmentNotEmpty(frames: seq<RecvFrame>)
    ensures OpenFragment(frames) != [] ==> OpenFragment(frames)[0].data != []
  {
    var g := SkipEmpty(OpenGroup(DataFrames(frames)));
    SkipEmptyFirst(OpenGroup(DataFrames(frames)));
    if g != [] {
      PayloadNotEmpty(g);
    }
  }

  /** In every state of every run, merging as written leaves a frame that reads outside its block. */
  lemma EveryMergeMisreads(actions: seq<Action>, f: RecvFrame)
    requires Run(actions) && After(actions).deletes == 0 && Merges(After(actions).sock.recvQ)
    ensures var q := After(actions).sock.recvQ;
      var (p, size) := CombineAsWritten(q[LastUnfinished(q)].value.data, f.data);
      Read(p, size) == None
  {
    var k := After(actions).sock;
    ReceiveListShape(actions);
    OpenFragmentNotEmpty(Frames(k.log.cut));
    hide Run, After, OpenFragment, Frames, Messages, Pending, DeliveredIn;
  }

  /**
    Merges do happen: for every handshake answer there is a run with a fragment in the
    list and the next one at the transport, and the merge of the two is misread.
  */
  lemma AMergeHappens(answer: Bytes) returns (actions: seq<Action>, e: Env)
    requires answer != []
    ensures FragmentWaits(actions, e) && MergeMisreads(After(actions).sock.recvQ, FRAGMENT_B)
  {
    actions, e := FragmentsArrive(answer);
    FragmentMerges();
    hide Run, After, Took;
  }

  /** The next data frame is merged, and what is stored cannot be read. */
  predicate MergeMisreads(q: seq<Slot>, f: RecvFrame) {
    Merges(q) &&
    var (p, size) := CombineAsWritten(q[LastUnfinished(q)].value.data, f.data);
    Read(p, size) == None
  }

  lemma FragmentMerges()
    ensures MergeMisreads([Some(FRAGMENT_A)], FRAGMENT_B)
  {
    assert LastUnfinished([Some(FRAGMENT_A)]) == 0;
  }

  // ------------------------------------- the receive path around that routine

  /** A frame as the memory holds it: its payload is what the pointer gives. */
  datatype RawFrame = RawFrame(opcode: Opcode, fin: bool, at: Pointer, size: nat)

  type RawSlot = Option<RawFrame>

  predicate Sound(s: RawSlot) {
    s.Some? ==> Read(s.value.at, s.value.size).Some?
  }

  /** What a node reads as; nothing can be said of a payload outside its block, so it counts as empty. */
  function Shown(s: RawSlot): Slot {
    match s
    case None => None
    case Some(f) =>
      var data := Read(f.at, f.size);
      Some(RecvFrame(f.opcode, f.fin, if data.Some? then data.value else []))
  }

  function ShownAll(q: seq<RawSlot>): (r: seq<Slot>)
    ensures |r| == |q| && forall i :: 0 <= i < |q| ==> r[i] == Shown(q[i])
  {
    seq(|q|, i requires 0 <= i < |q| => Shown(q[i]))
  }

  /** A received frame as the builder leaves it. */
  function Fresh(f: RecvFrame): RawSlot {
    Some(RawFrame(f.opcode, f.fin, Pointer(f.data, 0), |f.data|))
  }

  /** The list in memory and the messages delivered so far. */
  datatype Receiver = Receiver(list: seq<RawSlot>, delivered: seq<Message>)

  /** One data frame, merged as the text has it; None when that reads outside a block. */
  function AddAsWritten(q: seq<RawSlot>, f: RecvFrame): Option<seq<RawSlot>> {
    var i := LastUnfinished(ShownAll(q));
    if i == |q| then Some(if f.data != [] then q + [Fresh(f)] else q)
    else
      var to := q[i].value;
      match Read(to.at, to.size)
      case None => None
      case Some(data) =>
        var (p, size) := CombineAsWritten(data, f.data);
        Some(q[i := Some(RawFrame(to.opcode, f.fin, p, size))])
  }

  /** The finished frames of a list can all be read. */
  predicate FinishedSound(q: seq<RawSlot>) {
    forall i :: 0 <= i < |q| && !Unfinished(Shown(q[i])) ==> Sound(q[i])
  }

  /** What `rws_socket_inform_recvd_frames` leaves of the list. */
  function RawAfterInform(q: seq<RawSlot>): (r: seq<RawSlot>)
    ensures ShownAll(r) == AfterInform(ShownAll(q))
    ensures forall i :: 0 <= i < |r| && r[i].Some? ==> i < |q| && r[i] == q[i]
    ensures forall i :: 0 <= i < |q| && Unfinished(Shown(q[i])) ==> i < |r| && r[i] == q[i]
  {
    if exists i :: 0 <= i < |q| && Unfinished(ShownAll(q)[i]) then
      var r := seq(|q|, i requires 0 <= i < |q| => if Unfinished(Shown(q[i])) then q[i] else None);
      assert ShownAll(r) == InformedAll(ShownAll(q));
      r
    else []
  }

  /** A frame comes in, or the callbacks are informed. */
  datatype Input = Arrives(frame: RecvFrame) | InformAll

  function StepAsWritten(r: Receiver, x: Input): Option<Receiver> {
    match x
    case Arrives(f) =>
      if !IsData(f) then Some(r)
      else
        (match AddAsWritten(r.list, f)
         case None => None
         case Some(q) => Some(r.(list := q)))
    case InformAll =>
      if FinishedSound(r.list) then Some(Receiver(RawAfterInform(r.list), r.delivered + Pending(ShownAll(r.list)))) else None
  }

  /** Receiving as the text has it; None once something has been read outside its block. */
  function Written(inputs: seq<Input>): Option<Receiver> {
    if inputs == [] then Some(Receiver([], []))
    else
      match Written(inputs[..|inputs| - 1])
      case None => None
      case Some(r) => StepAsWritten(r, inputs[|inputs| - 1])
  }

  datatype Model = Model(list: seq<Slot>, delivered: seq<Message>)

  function StepDocumented(d: Model, x: Input): Model {
    match x
    case Arrives(f) => if IsData(f) then d.(list := AddData(d.list, f)) else d
    case InformAll => Model(AfterInform(d.list), d.delivered + Pending(d.list))
  }

  /** Receiving as documented, as in the rest of the model. */
  function Documented(inputs: seq<Input>): Model {
    if inputs == [] then Model([], []) else StepDocumented(Documented(inputs[..|inputs| - 1]), inputs[|inputs| - 1])
  }

  /** The frames among the inputs. */
  function Incoming(inputs: seq<Input>): seq<RecvFrame> {
    if inputs == [] then []
    else
      var x := inputs[|inputs| - 1];
      Incoming(inputs[..|inputs| - 1]) + (if x.Arrives? then [x.frame] else [])
  }

  /** No data frame arrives while a non-empty fragment is open. */
  predicate NothingMerged(frames: seq<RecvFrame>) {
    frames == [] ||
    (NothingMerged(frames[..|frames| - 1]) && (IsData(frames[|frames| - 1]) ==> OpenFragment(frames[..|frames| - 1]) == []))
  }

  /** The text does what is documented: nothing is misread, list and deliveries are the same. */
  ghost predicate Agree(w: Option<Receiver>, d: Model) {
    w.Some? && (forall i :: 0 <= i < |w.value.list| ==> Sound(w.value.list[i]))
    && ShownAll(w.value.list) == d.list && w.value.delivered == d.delivered
  }

  /** Something has been misread, or sits in the list and cannot be read. */
  ghost predicate Broken(w: Option<Receiver>) {
    w.Some? ==> exists i :: 0 <= i < |w.value.list| && !Sound(w.value.list[i])
  }

  /** The documented list stands for the frames that came in. */
  ghost predicate StandsFor(d: Model, frames: seq<RecvFrame>) {
    ListInv(d.list) && OpenSlot(d.list) == OpenFragment(frames) && d.delivered + Pending(d.list) == Messages(frames)
  }

  lemma FrameStandsFor(d: Model, frames: seq<RecvFrame>, f: RecvFrame)
    requires StandsFor(d, frames)
    ensures StandsFor(StepDocumented(d, Arrives(f)), frames + [f])
  {
    hide AddData, Pending, Messages, OpenFragment, OpenSlot, ListInv;
    if IsData(f) {
      AddDataRefines(d.list, frames, f);
      var p, q := Pending(d.list), Pending(AddData(d.list, f));
      assert q == p + q[|p|..];
    } else {
      NonDataFrame(frames, f);
    }
  }

  lemma InformStandsFor(d: Model, frames: seq<RecvFrame>)
    requires StandsFor(d, frames)
    ensures StandsFor(StepDocumented(d, InformAll), frames)
  {
    hide AfterInform, Pending, Messages, OpenFragment, OpenSlot, ListInv;
    AfterInformSettled(d.list);
    assert Messages(frames) + [] == Messages(frames);
  }

  lemma {:induction false} DocumentedDelivers(inputs: seq<Input>)
    ensures StandsFor(Documented(inputs), Incoming(inputs))
  {
    if inputs == [] {
      NothingYet();
    } else {
      var front, x := inputs[..|inputs| - 1], inputs[|inputs| - 1];
      DocumentedDelivers(front);
      hide StandsFor, StepDocumented;
      if x.Arrives? {
        FrameStandsFor(Documented(front), Incoming(front), x.frame);
      } else {
        InformStandsFor(Documented(front), Incoming(front));
        assert Incoming(front) + [] == Incoming(front);
      }
    }
  }

  /** Without a merge the text goes on agreeing. */
  lemma AgreeStep(r: Receiver, d: Model, x: Input)
    requires Agree(Some(r), d) && (x.Arrives? && IsData(x.frame) ==> !Merges(d.list))
    ensures Agree(StepAsWritten(r, x), StepDocumented(d, x))
  {
    match x
    case Arrives(f) =>
      if IsData(f) && f.data != [] {
        assert Shown(Fresh(f)) == Some(f) by {
          assert f.data[0..|f.data|] == f.data;
        }
        assert ShownAll(r.list + [Fresh(f)]) == d.list + [Some(f)];
      }
    case InformAll =>
  }

  /** A merge breaks the list. */
  lemma MergeBreaks(r: Receiver, d: Model, f: RecvFrame)
    requires Agree(Some(r), d) && IsData(f) && Merges(d.list) && d.list[LastUnfinished(d.list)].value.data != []
    ensures Broken(StepAsWritten(r, Arrives(f)))
  {
    var i := LastUnfinished(d.list);
    assert Sound(r.list[i]) && Shown(r.list[i]) == d.list[i];
    assert !Sound(AddAsWritten(r.list, f).value[i]);
  }

  /** What is broken stays broken. */
  lemma BrokenStep(r: Receiver, x: Input)
    requires Broken(Some(r))
    ensures Broken(StepAsWritten(r, x))
  {
    var i :| 0 <= i < |r.list| && !Sound(r.list[i]);
    match x
    case Arrives(f) =>
      if IsData(f) && AddAsWritten(r.list, f).Some? {
        assert AddAsWritten(r.list, f).value[i] == r.list[i];
      }
    case InformAll =>
      if FinishedSound(r.list) {
        assert RawAfterInform(r.list)[i] == r.list[i];
      }
  }

  lemma {:induction false} AgreeOrBroken(inputs: seq<Input>)
    ensures NothingMerged(Incoming(inputs)) ==> Agree(Written(inputs), Documented(inputs))
    ensures !NothingMerged(Incoming(inputs)) ==> Broken(Written(inputs))
  {
    if inputs != [] {
      var front, x := inputs[..|inputs| - 1], inputs[|inputs| - 1];
      var w, d, frames := Written(front), Documented(front), Incoming(front);
      AgreeOrBroken(front);
      DocumentedDelivers(front);
      ScanIsTail(d.list);
      OpenFragmentNotEmpty(frames);
      MergedSnoc(inputs);
      assert Documented(inputs) == StepDocumented(d, x);
      assert Written(inputs) == if w.Some? then StepAsWritten(w.value, x) else None;
      hide Documented, Written, Incoming, NothingMerged, Agree, Broken, StepAsWritten, StepDocumented, OpenFragment, Messages, Pending;
      BrokenNone();
      AgreeSome(w, d);
      if w.Some? {
        if !NothingMerged(frames) {
          BrokenStep(w.value, x);
        } else if x.Arrives? && IsData(x.frame) && Merges(d.list) {
          MergeBreaks(w.value, d, x.frame);
        } else {
          AgreeStep(w.value, d, x);
        }
      }
    }
  }

  lemma BrokenNone()
    ensures Broken(None)
  {
  }

  lemma AgreeSome(w: Option<Receiver>, d: Model)
    ensures Agree(w, d) ==> w.Some?
  {
  }

  lemma MergedSnoc(inputs: seq<Input>)
    requires inputs != []
    ensures var frames, x := Incoming(inputs[..|inputs| - 1]), inputs[|inputs| - 1];
      NothingMerged(Incoming(inputs)) <==>
        NothingMerged(frames) && (x.Arrives? && IsData(x.frame) ==> OpenFragment(frames) == [])
  {
    var frames, x := Incoming(inputs[..|inputs| - 1]), inputs[|inputs| - 1];
    hide OpenFragment;
    if x.Arrives? {
      Front(frames, x.frame);
    } else {
      assert frames + [] == frames;
    }
  }

  /**
    Receiving as the text has it is receiving as documented exactly when no data frame
    arrives while a non-empty fragment is open, wherever the callbacks are informed.
  */
  lemma AsWrittenExact(inputs: seq<Input>)
    ensures Agree(Written(inputs), Documented(inputs)) <==> NothingMerged(Incoming(inputs))
    ensures StandsFor(Documented(inputs), Incoming(inputs))
  {
    AgreeOrBroken(inputs);
    DocumentedDelivers(inputs);
  }

  /** The smallest fragmented message is not received as documented. */
  lemma FragmentsMisread()
    ensures var inputs := [Arrives(FRAGMENT_A), Arrives(FRAGMENT_B)];
      !NothingMerged(Incoming(inputs)) && !Agree(Written(inputs), Documented(inputs))
  {
    var inputs := [Arrives(FRAGMENT_A), Arrives(FRAGMENT_B)];
    NothingYet();
    assert inputs[..1] == [Arrives(FRAGMENT_A)] && inputs[..1][..0] == [];
    assert Incoming([Arrives(FRAGMENT_A)]) == [] + [FRAGMENT_A] == [FRAGMENT_A];
    assert Incoming(inputs) == [FRAGMENT_A] + [FRAGMENT_B] == [FRAGMENT_A, FRAGMENT_B];
    assert [FRAGMENT_A, FRAGMENT_B][..1] == [FRAGMENT_A];
    MessagesSnoc([], FRAGMENT_A);
    assert [] + [FRAGMENT_A] == [FRAGMENT_A];
    hide OpenFragment, Messages, Written, Documented, Agree;
    AsWrittenExact(inputs);
  }

  // ------------------------------------ rws_socket_delete_all_frames_in_list

  /** The loop's state: the node it stands at, or the end, and which nodes still hold a frame. */
  datatype DeleteState = DeleteState(cur: Option<nat>, live: seq<bool>)

  function DeleteStart(nodes: nat): DeleteState {
    DeleteState(if nodes == 0 then None else Some(0), seq(nodes, _ => true))
  }

  /** One iteration as written: the frame of the current node is freed, the node stays current. */
  function DeleteIteration(s: DeleteState): DeleteState {
    match s.cur
    case None => s
    case Some(i) => if i < |s.live| then s.(live := s.live[i := false]) else s
  }

  function Iterate(s: DeleteState, k: nat): DeleteState {
    if k == 0 then s else DeleteIteration(Iterate(s, k - 1))
  }

  lemma {:induction false} CursorNeverMoves(s: DeleteState, k: nat)
    ensures Iterate(s, k).cur == s.cur
  {
    if k > 0 {
      CursorNeverMoves(s, k - 1);
    }
  }

  /** As written the loop comes to its end exactly when the list is NULL. */
  lemma DeleteLoopExact(nodes: nat)
    ensures (exists k: nat :: Iterate(DeleteStart(nodes), k).cur == None) <==> nodes == 0
  {
    forall k: nat
      ensures Iterate(DeleteStart(nodes), k).cur == DeleteStart(nodes).cur
    {
      CursorNeverMoves(DeleteStart(nodes), k);
    }
    if nodes == 0 {
      assert Iterate(DeleteStart(nodes), 0).cur == None;
    }
  }

  /** The loop never comes to the end of a list of so many nodes. */
  ghost predicate NeverEmptied(nodes: nat) {
    forall k: nat :: Iterate(DeleteStart(nodes), k).cur != None
  }

  /**
    So a release as written comes back only if nothing is queued.  A client meets the
    other case by keeping the contract: connect, send a text, release.
  */
  lemma ReleaseMeetsQueue() returns (actions: seq<Action>)
    ensures Run(actions) && Enabled(After(actions), DisconnectAndRelease) && NeverEmptied(|After(actions).sock.sendQ|)
  {
    actions := ConnectingTo();
    var s := After(actions);
    var text := Text([65], NO_MASK);
    TextQueued(s, [65], NO_MASK);
    OneNodeIsTooMany(1);
    hide Run, After, Step, Enabled, NeverEmptied;
    Extend(actions, text);
    actions := actions + [text];
  }

  lemma TextQueued(s: Sys, text: Bytes, mask: Mask)
    requires s.sock.log.trace == [] && !s.released && s.app == Calm && s.sock.sendQ == [] && text != []
    ensures var t := Step(s, Text(text, mask));
      Enabled(s, Text(text, mask)) && Enabled(t, DisconnectAndRelease) && |t.sock.sendQ| == 1
  {
    hide Encode;
  }

  lemma OneNodeIsTooMany(nodes: nat)
    requires nodes > 0
    ensures NeverEmptied(nodes)
  {
    forall k: nat
      ensures Iterate(DeleteStart(nodes), k).cur != None
    {
      CursorNeverMoves(DeleteStart(nodes), k);
    }
  }
}
