/**
  The heap list of `src/rws_list.c` and the two frame lists built on it.

  `spine` is the chain of nodes as a sequence, `values` the object pointers in it.
  Every operation keeps the chain acyclic and says what it does to the contents.
*/
module ListCode {
  import opened Bytes
  import opened FrameSpec
  import opened FrameCode
  import opened Reassembly

  /** A list node; `value` is the object pointer, NULL once the frame has been handed over. */
  class Node {
    var value: Frame?
    var next: Node?

    constructor (value: Frame?)
      ensures this.value == value && next == null
    {
      this.value, next := value, null;
    }
  }

  /** Node `i` of a chain, NULL behind its end. */
  ghost function NodeAt(spine: seq<Node>, i: nat): Node? {
    if i < |spine| then spine[i] else null
  }

  /** `spine` is the chain starting at `head`: linked in order, ended by NULL, no node twice. */
  ghost predicate Chain(head: Node?, spine: seq<Node>, values: seq<Frame?>)
    reads spine
  {
    && |values| == |spine| && head == NodeAt(spine, 0)
    && (forall i {:trigger spine[i].next} :: 0 <= i < |spine| ==> spine[i].next == NodeAt(spine, i + 1))
    && (forall i {:trigger spine[i].value} :: 0 <= i < |spine| ==> spine[i].value == values[i])
    && (forall i, j :: 0 <= i < j < |spine| ==> spine[i] != spine[j])
  }

  /** `rws_list_append`: walk to the tail, link a new node behind it. */
  method ListAppend(list: Node, value: Frame, ghost spine: seq<Node>, ghost values: seq<Frame?>)
    returns (ghost longer: seq<Node>)
    requires Chain(list, spine, values)
    modifies {spine[|spine| - 1]}
    ensures Chain(list, longer, values + [value])
    ensures |longer| == |spine| + 1 && longer[..|spine|] == spine && fresh(longer[|spine|])
  {
    var cur := list;
    ghost var i := 0;
    while cur.next != null
      invariant i < |spine| && cur == spine[i]
      invariant Chain(list, spine, values) && cur.next == NodeAt(spine, i + 1)
      decreases |spine| - i
    {
      cur := cur.next;
      i := i + 1;
    }
    var node := new Node(value);
    cur.next := node;
    longer := spine + [node];
  }

  /**
    `rws_list_delete`: every node is freed once, in order, and `next` is read before
    the node is freed.
  */
  method ListDelete(list: Node?, ghost spine: seq<Node>, ghost values: seq<Frame?>) returns (ghost freed: seq<Node>)
    requires Chain(list, spine, values)
    ensures freed == spine && forall i, j :: 0 <= i < j < |freed| ==> freed[i] != freed[j]
  {
    var cur := list;
    ghost var i := 0;
    freed := [];
    while cur != null
      invariant i <= |spine| && freed == spine[..i]
      invariant cur == NodeAt(spine, i)
      decreases |spine| - i
    {
      assert cur !in freed;
      var prev := cur;
      cur := cur.next;
      freed := freed + [prev];
      i := i + 1;
    }
  }

  /** A frame a list owns, with its data block. */
  ghost predicate Owned(frame: Frame?, repr: set<object>)
    reads if frame == null then {} else {frame}
  {
    frame != null ==> frame in repr && frame.Valid() && (frame.data != null ==> frame.data in repr)
  }

  ghost function SlotOf(frame: Frame?): Slot
    reads if frame == null then {} else {frame, frame.data}
  {
    if frame == null then None else Some(frame.Model())
  }

  /** Different nodes hold different frames. */
  ghost predicate Distinct(values: seq<Frame?>) {
    forall i, j :: 0 <= i < j < |values| && values[i] != null ==> values[i] != values[j]
  }

  /** A frame list of the socket: `s->send_frames` or `s->recvd_frames`. */
  class FrameList {
    var head: Node?
    ghost var spine: seq<Node>
    ghost var values: seq<Frame?>
    ghost var Slots: seq<Slot>   // the contents, node by node
    ghost var Repr: set<object>

    ghost predicate Valid()
      reads this, Repr
      ensures Valid() ==> this in Repr
    {
      && this in Repr
      && (forall i :: 0 <= i < |spine| ==> spine[i] in Repr)
      && Chain(head, spine, values)
      && (forall i :: 0 <= i < |values| ==> (values[i] != null ==> values[i] in Repr) && Owned(values[i], Repr))
      && Distinct(values)
      && |Slots| == |values| && (forall i :: 0 <= i < |values| ==> Slots[i] == SlotOf(values[i]))
    }

    constructor ()
      ensures Valid() && fresh(Repr) && Slots == []
    {
      head, spine, values, Slots, Repr := null, [], [], [], {this};
    }

    /** The new node: at the head of an empty list, behind the tail of any other. */
    method Attach(frame: Frame)
      requires Chain(head, spine, values)
      modifies this, if spine == [] then {} else {spine[|spine| - 1]}
      ensures Chain(head, spine, values) && values == old(values) + [frame] && Repr == old(Repr) && Slots == old(Slots)
      ensures |spine| == |old(spine)| + 1 && spine[..|old(spine)|] == old(spine) && fresh(spine[|old(spine)|])
    {
      if head != null {
        spine := ListAppend(head, frame, spine, values);
      } else {
        var node := new Node(frame);
        head := node;
        spine := [node];
      }
      values := values + [frame];
    }

    /** `rws_socket_append_send_frames` and `rws_socket_append_recvd_frames`. */
    method Append(frame: Frame)
      requires Valid() && frame.Valid() && frame !in Repr
      modifies Repr
      ensures Valid() && fresh(Repr - old(Repr) - {frame, frame.data})
      ensures frame.Model() == old(frame.Model())
      ensures Slots == old(Slots) + [Some(frame.Model())]
    {
      ghost var n, before := |spine|, spine;
      Attach(frame);
      Slots := Slots + [SlotOf(frame)];
      Repr := Repr + {spine[n], frame} + (if frame.data == null then {} else {frame.data});
      hide Chain, Distinct;
      assert Distinct(values) by {
        DistinctLonger(old(values), frame);
      }
      assert forall i :: 0 <= i < |spine| ==> spine[i] in Repr by {
        forall i | 0 <= i < n ensures spine[i] in Repr { assert spine[..n][i] in before; }
      }
    }

    /** Takes the frame out of a node: the object pointer is read and cleared. */
    method Take(cur: Node, ghost i: nat) returns (frame: Frame?)
      requires Valid() && i < |spine| && cur == spine[i]
      modifies cur, this`values, this`Slots
      ensures Valid() && Slots == old(Slots)[i := None]
      ensures cur.next == NodeAt(spine, i + 1)
      ensures old(Slots)[i] == if frame == null then None else Some(frame.Model())
    {
      frame := cur.value;
      assert Slots[i] == SlotOf(values[i]) && values[i] == frame;
      cur.value := null;
      values := values[i := null];
      Slots := Slots[i := None];
    }

    /** `rws_list_delete_clean`. */
    method DeleteClean()
      requires Valid()
      modifies this
      ensures Valid() && Repr == old(Repr) && Slots == [] && head == null
    {
      ghost var freed := ListDelete(head, spine, values);
      head, spine, values, Slots := null, [], [], [];
    }

    /** `rws_socket_last_unfin_recvd_frame_by_opcode`: a scan of the whole list; the opcode is not looked at. */
    method LastUnfinishedFrame() returns (last: Frame?, ghost at: nat)
      requires Valid()
      ensures at == LastUnfinished(Slots)
      ensures if at < |values| then last != null && last == values[at] else last == null
    {
      last := null;
      at := |spine|;
      var cur := head;
      ghost var q := Slots;
      ghost var i := 0;
      while cur != null
        invariant i <= |spine| && cur == NodeAt(spine, i)
        invariant if at < |spine| then at < i && last == values[at] && Unfinished(q[at]) else at == |spine| && last == null
        invariant forall j :: 0 <= j < i && (at == |spine| || at < j) ==> !Unfinished(q[j])
        decreases |spine| - i
      {
        var frame := cur.value;
        assert q[i] == SlotOf(values[i]) && spine[i].next == NodeAt(spine, i + 1);
        if frame != null {
          if !frame.isFinished {
            last := frame;
            at := i;
          }
        }
        cur := cur.next;
        i := i + 1;
      }
      LastUnfinishedIs(q, at);
    }

    /** `rws_socket_process_bin_or_text_frame`. */
    method ProcessData(frame: Frame)
      requires Valid() && frame.Valid() && frame !in Repr
      modifies Repr
      ensures Valid() && fresh(Repr - old(Repr) - {frame, frame.data})
      ensures Slots == AddData(old(Slots), old(frame.Model()))
    {
      ghost var q, f := Slots, frame.Model();
      var last, at := LastUnfinishedFrame();
      if last != null {
        MergeInto(last, at, frame);
      } else if frame.data != null && frame.dataSize > 0 {
        Append(frame);
      } else {
        assert f.data == [];
      }
    }

    /** The frame waiting at node `at` takes over payload and FIN of the new one. */
    method MergeInto(last: Frame, ghost at: nat, frame: Frame)
      requires Valid() && frame.Valid() && frame !in Repr
      requires at < |values| && values[at] == last
      modifies Repr
      ensures Valid() && fresh(Repr - old(Repr))
      ensures Slots ==
        old(Slots)[at := Some(RecvFrame(old(last.opcode), frame.isFinished, old(last.Contents() + frame.Contents())))]
      ensures frame.Model() == old(frame.Model())
    {
      assert Owned(values[at], Repr);
      assert forall i :: 0 <= i < |values| && i != at ==> values[i] != last;
      hide Chain, Distinct;
      last.CombineDatas(frame);
      last.isFinished := frame.isFinished;
      if last.data != null {
        Repr := Repr + {last.data};
      }
      Slots := Slots[at := SlotOf(last)];
      assert SlotOf(last) == Some(RecvFrame(old(last.opcode), frame.isFinished, old(last.Contents() + frame.Contents())));
      hide SlotOf;
      forall i | 0 <= i < |values|
        ensures Owned(values[i], Repr) && Slots[i] == SlotOf(values[i])
      {
        if i != at {
          assert old(Owned(values[i], Repr)) && old(Slots[i] == SlotOf(values[i]));
        }
      }
    }

    /** `rws_socket_inform_recvd_frames`: `delivered` are the callbacks made, in order. */
    method Inform() returns (delivered: seq<Message>)
      requires Valid()
      modifies Repr
      ensures Valid() && Repr == old(Repr)
      ensures Slots == AfterInform(old(Slots))
      ensures delivered == Pending(old(Slots))
    {
      var isAllFinished := true;
      var cur := head;
      delivered := [];
      ghost var q, nodes := Slots, spine;
      ghost var i := 0;
      assert forall j :: 0 <= j < |nodes| ==> nodes[j] in Repr;
      InformedStart(q);
      hide *;
      while cur != null
        invariant i <= |nodes| && cur == NodeAt(nodes, i)
        invariant spine == nodes && Repr == old(Repr)
        invariant Valid() && |q| == |nodes|
        invariant Slots == InformedUpTo(q, i)
        invariant delivered == PendingIn(q, i) && isAllFinished == AllFinished(q, i)
        decreases |nodes| - i
      {
        NodeExists(nodes, i);
        InformedStep(q, i);
        var wasFinished := InformNode(cur, i);
        if wasFinished.Some? {
          delivered := delivered + wasFinished.value;
        } else {
          isAllFinished := false;
        }
        cur := cur.next;
        i := i + 1;
      }
      NodeExists(nodes, i);
      InformedEnd(q);
      if isAllFinished {
        DeleteClean();
      }
    }

    /** One node: a finished frame is delivered and freed, an unfinished one left; None means unfinished. */
    method InformNode(cur: Node, ghost i: nat) returns (finished: Option<seq<Message>>)
      requires Valid() && i < |spine| && cur == spine[i]
      modifies cur, this`values, this`Slots
      ensures Valid() && Slots == old(Slots)[i := Informed(old(Slots)[i])]
      ensures cur.next == NodeAt(spine, i + 1)
      ensures finished == if Unfinished(old(Slots)[i]) then None else Some(SlotDelivery(old(Slots)[i]))
    {
      finished := Some([]);
      var frame := cur.value;
      assert Slots[i] == SlotOf(values[i]) && values[i] == frame;
      if frame != null {
        assert Owned(values[i], Repr);
        if frame.isFinished {
          if frame.opcode == TEXT {
            finished := Some([TextMessage(Visible(frame.Contents()))]);
          } else if frame.opcode == BINARY {
            finished := Some([BinaryMessage(Visible(frame.Contents()))]);
          }
          cur.value := null;
          values := values[i := null];
          Slots := Slots[i := None];
        } else {
          finished := None;
        }
      }
    }
  }

  lemma NodeExists(spine: seq<Node>, i: nat)
    ensures NodeAt(spine, i) != null <==> i < |spine|
    ensures i < |spine| ==> NodeAt(spine, i) == spine[i]
  {
  }

  /** The list while the inform loop stands before node `i`. */
  ghost function InformedUpTo(q: seq<Slot>, i: nat): (r: seq<Slot>)
    ensures |r| == |q|
  {
    seq(|q|, j requires 0 <= j < |q| => if j < i then Informed(q[j]) else q[j])
  }

  ghost predicate AllFinished(q: seq<Slot>, i: nat) {
    forall j :: 0 <= j < i && j < |q| ==> !Unfinished(q[j])
  }

  lemma InformedStart(q: seq<Slot>)
    ensures InformedUpTo(q, 0) == q && PendingIn(q, 0) == [] && AllFinished(q, 0)
  {
  }

  lemma InformedStep(q: seq<Slot>, i: nat)
    requires i < |q|
    ensures InformedUpTo(q, i)[i] == q[i]
    ensures InformedUpTo(q, i + 1) == InformedUpTo(q, i)[i := Informed(q[i])]
    ensures PendingIn(q, i + 1) == PendingIn(q, i) + SlotDelivery(q[i])
    ensures Unfinished(q[i]) ==> PendingIn(q, i + 1) == PendingIn(q, i)
    ensures AllFinished(q, i + 1) == (AllFinished(q, i) && !Unfinished(q[i]))
  {
    if Unfinished(q[i]) {
      assert PendingIn(q, i) + [] == PendingIn(q, i);
    }
  }

  lemma InformedEnd(q: seq<Slot>)
    ensures AfterInform(q) == if AllFinished(q, |q|) then [] else InformedUpTo(q, |q|)
    ensures Pending(q) == PendingIn(q, |q|)
  {
    assert InformedUpTo(q, |q|) == InformedAll(q);
  }

  lemma DistinctLonger(values: seq<Frame?>, frame: Frame)
    requires Distinct(values) && frame !in values
    ensures Distinct(values + [frame])
  {
  }

  /** The scan's result is determined by what it found. */
  lemma LastUnfinishedIs(q: seq<Slot>, at: nat)
    requires at <= |q| && (at < |q| ==> Unfinished(q[at]))
    requires forall j :: 0 <= j < |q| && (at == |q| || at < j) ==> !Unfinished(q[j])
    ensures LastUnfinished(q) == at
  {
    hide Unfinished;
    var i := LastUnfinished(q);
  }
}
