/**
  Fragmentation, section 5.4 of RFC 6455.

  First the messages a sequence of frames stands for, by splitting it at the FIN
  bits; then the list of slots that `src/rws_socketpriv.c` keeps; then the proof
  that the list computes the messages for every sequence of frames, and the exact
  condition under which these are the messages of the standard.
*/
module Reassembly {
  import opened Bytes
  import opened FrameSpec

  /** What a data callback is given. */
  datatype Message = TextMessage(data: Bytes) | BinaryMessage(data: Bytes)

  // ---------------------------------------------------------- splitting at FIN

  predicate IsData(f: RecvFrame) {
    f.opcode == CONTINUATION || f.opcode == TEXT || f.opcode == BINARY
  }

  function DataFrames(frames: seq<RecvFrame>): seq<RecvFrame> {
    if frames == [] then []
    else
      var (front, f) := (frames[..|frames| - 1], frames[|frames| - 1]);
      DataFrames(front) + (if IsData(f) then [f] else [])
  }

  /** The completed groups of fragments, each ending in its FIN frame. */
  function Groups(frames: seq<RecvFrame>): seq<seq<RecvFrame>> {
    if frames == [] then []
    else
      var (front, f) := (frames[..|frames| - 1], frames[|frames| - 1]);
      Groups(front) + (if f.fin then [OpenGroup(front) + [f]] else [])
  }

  /** The fragments behind the last FIN frame. */
  function OpenGroup(frames: seq<RecvFrame>): seq<RecvFrame> {
    if frames == [] || frames[|frames| - 1].fin then []
    else OpenGroup(frames[..|frames| - 1]) + [frames[|frames| - 1]]
  }

  function Flatten(groups: seq<seq<RecvFrame>>): seq<RecvFrame> {
    if groups == [] then [] else Flatten(groups[..|groups| - 1]) + groups[|groups| - 1]
  }

  /** A group is closed by its only FIN frame. */
  predicate Closed(group: seq<RecvFrame>) {
    group != [] && group[|group| - 1].fin && forall i :: 0 <= i < |group| - 1 ==> !group[i].fin
  }

  /** Splitting loses nothing and keeps the order. */
  lemma {:induction false} GroupsPartition(frames: seq<RecvFrame>)
    ensures Flatten(Groups(frames)) + OpenGroup(frames) == frames
  {
    hide *;
    if frames == [] {
      PartitionEmpty();
    } else {
      var front, f := frames[..|frames| - 1], frames[|frames| - 1];
      GroupsPartition(front);
      GroupsSnoc(front, f);
      PartitionStep(Groups(front), OpenGroup(front), front, f);
      assert frames == front + [f];
    }
  }

  lemma PartitionEmpty()
    ensures Flatten(Groups([])) + OpenGroup([]) == []
  {
  }

  lemma PartitionStep(gs: seq<seq<RecvFrame>>, open: seq<RecvFrame>, front: seq<RecvFrame>, f: RecvFrame)
    requires Flatten(gs) + open == front
    ensures Flatten(gs + (if f.fin then [open + [f]] else [])) + (if f.fin then [] else open + [f]) == front + [f]
  {
    FlattenSnoc(gs, open + [f]);
    hide Flatten;
    if !f.fin {
      assert gs + [] == gs;
    }
    assert Flatten(gs) + (open + [f]) == front + [f];
  }

  lemma FlattenSnoc(groups: seq<seq<RecvFrame>>, g: seq<RecvFrame>)
    ensures Flatten(groups + [g]) == Flatten(groups) + g
  {
    Front(groups, g);
  }

  /** It cuts precisely behind each FIN. */
  lemma {:induction false} GroupsCutAtFin(frames: seq<RecvFrame>)
    ensures forall i :: 0 <= i < |Groups(frames)| ==> Closed(Groups(frames)[i])
    ensures forall i :: 0 <= i < |OpenGroup(frames)| ==> !OpenGroup(frames)[i].fin
  {
    if frames != [] {
      GroupsCutAtFin(frames[..|frames| - 1]);
    }
  }

  function Payload(group: seq<RecvFrame>): Bytes {
    if group == [] then [] else Payload(group[..|group| - 1]) + group[|group| - 1].data
  }

  // ------------------------------------------------------- delivered messages

  /** The callbacks take the length as `unsigned int`. */
  function Visible(data: Bytes): Bytes {
    data[..|data| % UINT_LIMIT]
  }

  /** The callback, if any, for a finished frame. */
  function Delivery(opcode: Opcode, data: Bytes): seq<Message> {
    if opcode == TEXT then [TextMessage(Visible(data))]
    else if opcode == BINARY then [BinaryMessage(Visible(data))]
    else []
  }

  /** Leading empty fragments are thrown away. */
  function SkipEmpty(group: seq<RecvFrame>): seq<RecvFrame> {
    if group != [] && group[0].data == [] then SkipEmpty(group[1..]) else group
  }

  function GroupDelivery(group: seq<RecvFrame>): seq<Message> {
    var g := SkipEmpty(group);
    if g == [] then [] else Delivery(g[0].opcode, Payload(g))
  }

  function Deliveries(groups: seq<seq<RecvFrame>>): seq<Message> {
    if groups == [] then [] else Deliveries(groups[..|groups| - 1]) + GroupDelivery(groups[|groups| - 1])
  }

  /** All messages the application gets for a sequence of processed frames. */
  function Messages(frames: seq<RecvFrame>): seq<Message> {
    Deliveries(Groups(DataFrames(frames)))
  }

  /** The fragment still waiting for its FIN: nothing, or one merged frame. */
  function OpenFragment(frames: seq<RecvFrame>): seq<RecvFrame> {
    var g := SkipEmpty(OpenGroup(DataFrames(frames)));
    if g == [] then [] else [RecvFrame(g[0].opcode, false, Payload(g))]
  }

  // --------------------------------------------------------- one frame further

  lemma Front<T>(s: seq<T>, x: T)
    ensures (s + [x])[..|s + [x]| - 1] == s
  {
  }

  lemma DataFramesSnoc(frames: seq<RecvFrame>, f: RecvFrame)
    ensures DataFrames(frames + [f]) == DataFrames(frames) + (if IsData(f) then [f] else [])
  {
    Front(frames, f);
  }

  lemma GroupsSnoc(frames: seq<RecvFrame>, f: RecvFrame)
    ensures Groups(frames + [f]) == Groups(frames) + (if f.fin then [OpenGroup(frames) + [f]] else [])
    ensures OpenGroup(frames + [f]) == if f.fin then [] else OpenGroup(frames) + [f]
  {
    Front(frames, f);
  }

  lemma DeliveriesSnoc(groups: seq<seq<RecvFrame>>, g: seq<RecvFrame>)
    ensures Deliveries(groups + [g]) == Deliveries(groups) + GroupDelivery(g)
  {
    Front(groups, g);
  }

  lemma PayloadSnoc(group: seq<RecvFrame>, f: RecvFrame)
    ensures Payload(group + [f]) == Payload(group) + f.data
  {
    Front(group, f);
  }

  lemma {:induction false} SkipEmptySnoc(group: seq<RecvFrame>, f: RecvFrame)
    ensures SkipEmpty(group + [f]) ==
      if SkipEmpty(group) != [] then SkipEmpty(group) + [f] else if f.data != [] then [f] else []
  {
    if group == [] {
      assert group + [f] == [f];
    } else if group[0].data == [] {
      assert (group + [f])[1..] == group[1..] + [f];
      SkipEmptySnoc(group[1..], f);
    }
  }

  // --------------------------------------------------------- the list of slots

  /** A list node; its object pointer is NULL once the frame has been delivered. */
  type Slot = Option<RecvFrame>

  predicate Unfinished(s: Slot) {
    s.Some? && !s.value.fin
  }

  /** `rws_socket_last_unfin_recvd_frame_by_opcode`: the last unfinished slot, or |q|. */
  function LastUnfinished(q: seq<Slot>): (i: nat)
    ensures i <= |q|
    ensures i < |q| ==> Unfinished(q[i])
    ensures forall j :: i < j < |q| ==> !Unfinished(q[j])
    ensures i == |q| ==> forall j :: 0 <= j < |q| ==> !Unfinished(q[j])
  {
    if q == [] then 0
    else if Unfinished(q[|q| - 1]) then |q| - 1
    else
      var i := LastUnfinished(q[..|q| - 1]);
      if i == |q| - 1 then |q| else i
  }

  /** `rws_socket_process_bin_or_text_frame`. */
  function AddData(q: seq<Slot>, f: RecvFrame): seq<Slot> {
    var i := LastUnfinished(q);
    if i < |q| then q[i := Some(RecvFrame(q[i].value.opcode, f.fin, q[i].value.data + f.data))]
    else if f.data != [] then q + [Some(f)]
    else q
  }

  /** The list invariant: at most one unfinished frame, and only in the last node. */
  predicate ListInv(q: seq<Slot>) {
    forall i :: 0 <= i < |q| - 1 ==> !Unfinished(q[i])
  }

  function OpenSlot(q: seq<Slot>): seq<RecvFrame> {
    if q != [] && Unfinished(q[|q| - 1]) then [q[|q| - 1].value] else []
  }

  function SlotDelivery(s: Slot): seq<Message> {
    if s.Some? && s.value.fin then Delivery(s.value.opcode, s.value.data) else []
  }

  /** Messages that sit finished in the first `n` nodes, not yet delivered. */
  function PendingIn(q: seq<Slot>, n: nat): seq<Message>
    requires n <= |q|
  {
    if n == 0 then [] else PendingIn(q, n - 1) + SlotDelivery(q[n - 1])
  }

  function Pending(q: seq<Slot>): seq<Message> {
    PendingIn(q, |q|)
  }

  lemma {:induction false} PendingAgrees(q: seq<Slot>, r: seq<Slot>, n: nat)
    requires n <= |q| && n <= |r| && forall i :: 0 <= i < n ==> q[i] == r[i]
    ensures PendingIn(q, n) == PendingIn(r, n)
  {
    if n > 0 {
      PendingAgrees(q, r, n - 1);
    }
  }

  /** Under the invariant the scan for an unfinished frame is a look at the tail. */
  lemma ScanIsTail(q: seq<Slot>)
    requires ListInv(q)
    ensures LastUnfinished(q) < |q| <==> OpenSlot(q) != []
    ensures OpenSlot(q) != [] ==> LastUnfinished(q) == |q| - 1
  {
  }

  lemma AddDataKeepsInv(q: seq<Slot>, f: RecvFrame)
    requires ListInv(q)
    ensures ListInv(AddData(q, f))
  {
    ScanIsTail(q);
  }

  lemma AddDataMerges(q: seq<Slot>, f: RecvFrame)
    requires ListInv(q) && OpenSlot(q) != []
    ensures var o := OpenSlot(q)[0];
      && OpenSlot(AddData(q, f)) == (if f.fin then [] else [RecvFrame(o.opcode, false, o.data + f.data)])
      && Pending(AddData(q, f)) == Pending(q) + (if f.fin then Delivery(o.opcode, o.data + f.data) else [])
  {
    ScanIsTail(q);
    hide LastUnfinished, Delivery;
    PendingAgrees(q, AddData(q, f), |q| - 1);
  }

  lemma AddDataAppends(q: seq<Slot>, f: RecvFrame)
    requires ListInv(q) && OpenSlot(q) == []
    ensures OpenSlot(AddData(q, f)) == (if f.fin || f.data == [] then [] else [f])
    ensures Pending(AddData(q, f)) == Pending(q) + (if f.fin && f.data != [] then Delivery(f.opcode, f.data) else [])
  {
    ScanIsTail(q);
    hide LastUnfinished, Delivery;
    if f.data != [] {
      PendingAgrees(q, AddData(q, f), |q|);
    }
  }

  /**
    Main reassembly step, for frames of any kind in any order: if the list stands
    for the frames processed so far, it does so after one more data frame.
  */
  lemma AddDataRefines(q: seq<Slot>, frames: seq<RecvFrame>, f: RecvFrame)
    requires ListInv(q) && OpenSlot(q) == OpenFragment(frames) && IsData(f)
    ensures ListInv(AddData(q, f))
    ensures OpenSlot(AddData(q, f)) == OpenFragment(frames + [f])
    ensures Pending(q) <= Pending(AddData(q, f))
    ensures Messages(frames + [f]) == Messages(frames) + Pending(AddData(q, f))[|Pending(q)|..]
  {
    AddDataKeepsInv(q, f);
    if OpenSlot(q) != [] {
      AddDataMerges(q, f);
    } else {
      AddDataAppends(q, f);
    }
    MessagesSnoc(frames, f);
  }

  /** What one more data frame does to the specification. */
  lemma MessagesSnoc(frames: seq<RecvFrame>, f: RecvFrame)
    requires IsData(f)
    ensures OpenFragment(frames) != [] ==>
      var o := OpenFragment(frames)[0];
      && OpenFragment(frames + [f]) == (if f.fin then [] else [RecvFrame(o.opcode, false, o.data + f.data)])
      && Messages(frames + [f]) == Messages(frames) + (if f.fin then Delivery(o.opcode, o.data + f.data) else [])
    ensures OpenFragment(frames) == [] ==>
      && OpenFragment(frames + [f]) == (if f.fin || f.data == [] then [] else [f])
      && Messages(frames + [f]) == Messages(frames) + (if f.fin && f.data != [] then Delivery(f.opcode, f.data) else [])
  {
    var data := DataFrames(frames);
    var tail := OpenGroup(data);
    DataFramesSnoc(frames, f);
    GroupsSnoc(data, f);
    if f.fin {
      DeliveriesSnoc(Groups(data), tail + [f]);
    } else {
      assert Groups(data) + [] == Groups(data);
    }
    GroupSnoc(tail, f);
  }

  lemma GroupSnoc(tail: seq<RecvFrame>, f: RecvFrame)
    ensures var g := SkipEmpty(tail);
      var h := SkipEmpty(tail + [f]);
      if g != [] then h != [] && h[0] == g[0] && Payload(h) == Payload(g) + f.data
      else if f.data != [] then h == [f] && Payload(h) == f.data else h == []
  {
    var g := SkipEmpty(tail);
    SkipEmptySnoc(tail, f);
    PayloadSnoc(g, f);
    PayloadSnoc([], f);
    assert [] + [f] == [f];
  }

  // ------------------------------------------------------- informing callbacks

  /** What `rws_socket_inform_recvd_frames` leaves of one node. */
  function Informed(s: Slot): Slot {
    if Unfinished(s) then s else None
  }

  function InformedAll(q: seq<Slot>): (r: seq<Slot>)
    ensures |r| == |q|
    ensures forall i :: 0 <= i < |q| ==> r[i] == Informed(q[i])
  {
    seq(|q|, i requires 0 <= i < |q| => Informed(q[i]))
  }

  /** The list after a whole call: freed when nothing unfinished was seen. */
  function AfterInform(q: seq<Slot>): seq<Slot> {
    if exists i :: 0 <= i < |q| && Unfinished(q[i]) then InformedAll(q) else []
  }

  lemma {:induction false} NothingPending(q: seq<Slot>, n: nat)
    requires n <= |q| && forall i :: 0 <= i < n ==> q[i] == Informed(q[i])
    ensures PendingIn(q, n) == []
  {
    if n > 0 {
      NothingPending(q, n - 1);
    }
  }

  /**
    After informing, nothing waits for delivery, the unfinished frame is untouched,
    and the list is either gone or holds that frame as its only live entry.
  */
  lemma AfterInformSettled(q: seq<Slot>)
    requires ListInv(q)
    ensures var r := AfterInform(q);
      && ListInv(r) && Pending(r) == [] && OpenSlot(r) == OpenSlot(q)
      && (r == [] || (Unfinished(r[|r| - 1]) && forall i :: 0 <= i < |r| - 1 ==> r[i] == None))
  {
    var r := AfterInform(q);
    NothingPending(InformedAll(q), |q|);
    if r == [] && q != [] {
      assert !Unfinished(q[|q| - 1]);
    }
  }

  /** One node at a time: its message leaves the pending ones and nothing else changes. */
  lemma InformOne(q: seq<Slot>, i: nat)
    requires i < |q| && ListInv(q)
    requires forall j :: 0 <= j < i ==> q[j] == Informed(q[j])
    ensures var r := q[i := Informed(q[i])];
      && ListInv(r) && OpenSlot(r) == OpenSlot(q)
      && Pending(q) == SlotDelivery(q[i]) + Pending(r)
  {
    InformPending(q, i, |q|);
  }

  lemma {:induction false} InformPending(q: seq<Slot>, i: nat, n: nat)
    requires i < n <= |q|
    requires forall j :: 0 <= j < i ==> q[j] == Informed(q[j])
    ensures PendingIn(q, n) == SlotDelivery(q[i]) + PendingIn(q[i := Informed(q[i])], n)
  {
    var r := q[i := Informed(q[i])];
    if i == n - 1 {
      NothingPending(q, i);
      NothingPending(r, n);
    } else {
      InformPending(q, i, n - 1);
    }
  }

  // -------------------------------------------------- section 5.4 of RFC 6455

  /** A fragmented message opens with its type and goes on with continuations. */
  predicate WellFragmented(group: seq<RecvFrame>) {
    group != [] ==>
      (group[0].opcode == TEXT || group[0].opcode == BINARY) &&
      forall i :: 0 < i < |group| ==> group[i].opcode == CONTINUATION
  }

  predicate ControlWellFormed(f: RecvFrame) {
    IsData(f) || ((f.opcode == CLOSE || f.opcode == PING || f.opcode == PONG) && f.fin)
  }

  /** A frame sequence the standard allows, control frames interleaved anywhere. */
  ghost predicate Conforming(frames: seq<RecvFrame>) {
    && (forall f :: f in frames ==> ControlWellFormed(f))
    && (forall i :: 0 <= i < |Groups(DataFrames(frames))| ==> WellFragmented(Groups(DataFrames(frames))[i]))
    && WellFragmented(OpenGroup(DataFrames(frames)))
  }

  /** The message of the standard: type of the first fragment, all payloads in order. */
  function RfcMessage(group: seq<RecvFrame>): Message {
    if group != [] && group[0].opcode == TEXT then TextMessage(Payload(group)) else BinaryMessage(Payload(group))
  }

  function RfcMessages(groups: seq<seq<RecvFrame>>): seq<Message> {
    if groups == [] then [] else RfcMessages(groups[..|groups| - 1]) + [RfcMessage(groups[|groups| - 1])]
  }

  /** First fragment not empty, and a total length that an `unsigned int` can hold. */
  predicate Deliverable(group: seq<RecvFrame>) {
    group != [] && group[0].data != [] && |Payload(group)| < UINT_LIMIT
  }

  lemma {:induction false} ContinuationsNeverDeliver(group: seq<RecvFrame>)
    requires forall i :: 0 <= i < |group| ==> group[i].opcode == CONTINUATION
    ensures GroupDelivery(group) == []
  {
    if group != [] && group[0].data == [] {
      ContinuationsNeverDeliver(group[1..]);
    }
  }

  lemma VisibleExact(data: Bytes)
    ensures Visible(data) == data <==> |data| < UINT_LIMIT
  {
    assert |data| < UINT_LIMIT ==> data[..|data|] == data;
  }

  lemma GroupDeliveryExact(group: seq<RecvFrame>)
    requires group != [] && WellFragmented(group)
    ensures group[0].data == [] ==> GroupDelivery(group) == []
    ensures group[0].data != [] ==> |GroupDelivery(group)| == 1
    ensures GroupDelivery(group) == [RfcMessage(group)] <==> Deliverable(group)
  {
    if group[0].data == [] {
      ContinuationsNeverDeliver(group[1..]);
      assert SkipEmpty(group) == SkipEmpty(group[1..]);
    } else {
      VisibleExact(Payload(group));
    }
  }

  lemma {:induction false} NeverMoreThanSent(groups: seq<seq<RecvFrame>>)
    requires forall i :: 0 <= i < |groups| ==> groups[i] != [] && WellFragmented(groups[i])
    ensures |Deliveries(groups)| <= |RfcMessages(groups)| == |groups|
  {
    if groups != [] {
      GroupDeliveryExact(groups[|groups| - 1]);
      NeverMoreThanSent(groups[..|groups| - 1]);
    }
  }

  ghost predicate AllDeliverable(groups: seq<seq<RecvFrame>>) {
    forall i :: 0 <= i < |groups| ==> Deliverable(groups[i])
  }

  lemma {:induction false} DeliveriesExact(groups: seq<seq<RecvFrame>>)
    requires forall i :: 0 <= i < |groups| ==> groups[i] != [] && WellFragmented(groups[i])
    ensures Deliveries(groups) == RfcMessages(groups) <==> AllDeliverable(groups)
  {
    if groups != [] {
      var front, g := groups[..|groups| - 1], groups[|groups| - 1];
      GroupDeliveryExact(g);
      NeverMoreThanSent(front);
      DeliveriesExact(front);
      LastApart(Deliveries(front), GroupDelivery(g), RfcMessages(front), RfcMessage(g));
      assert AllDeliverable(groups) <==> AllDeliverable(front) && Deliverable(g) by {
        assert groups == front + [g];
      }
    }
  }

  lemma LastApart(a: seq<Message>, b: seq<Message>, c: seq<Message>, d: Message)
    requires |a| <= |c| && |b| <= 1
    ensures a + b == c + [d] <==> a == c && b == [d]
  {
    if a + b == c + [d] {
      assert |b| == 1;
      assert a == (a + b)[..|a|] == c;
      assert b[0] == (a + b)[|a|];
    }
  }

  /**
    Main reassembly theorem.  For every conforming frame sequence, the application
    gets exactly the messages of the standard, once each and in order, if and only
    if no completed message has an empty first fragment or 2^32 octets or more.
  */
  lemma ReassemblyIsRfc(frames: seq<RecvFrame>)
    requires Conforming(frames)
    ensures Messages(frames) == RfcMessages(Groups(DataFrames(frames)))
      <==> AllDeliverable(Groups(DataFrames(frames)))
  {
    GroupsCutAtFin(DataFrames(frames));
    DeliveriesExact(Groups(DataFrames(frames)));
  }

  /** The exception is real: an empty text message is conforming and never delivered. */
  lemma EmptyMessageExample()
    ensures var f := [RecvFrame(TEXT, true, [])];
      Conforming(f) && RfcMessages(Groups(DataFrames(f))) == [TextMessage([])] && Messages(f) == []
  {
    var e := RecvFrame(TEXT, true, []);
    DataFramesSnoc([], e);
    GroupsSnoc([], e);
    assert [] + [e] == [e];
    assert Groups([e]) == [[e]] && OpenGroup([e]) == [];
    PayloadSnoc([], e);
    DeliveriesSnoc([], [e]);
    assert [] + [[e]] == [[e]];
    assert SkipEmpty([e]) == SkipEmpty([]);
    assert RfcMessages([[e]]) == [RfcMessage([e])];
  }
}
