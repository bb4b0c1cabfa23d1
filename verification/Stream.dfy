/**
  A stream of concatenated frames.  `Parse` is the one greedy way to split a
  stream; everything here says that the split does not depend on how much of the
  stream has arrived so far.
*/
module Stream {
  import opened Bytes
  import opened FrameSpec
  import opened FrameProofs

  /** The whole frames at the front of a stream, in order. */
  function Parse(stream: Bytes): seq<Bytes>
    decreases |stream|
  {
    var n := CheckSize(stream);
    if n == 0 then [] else [stream[..n]] + Parse(stream[n..])
  }

  /** `cuts` were taken off the front of `stream`, one size verdict at a time. */
  ghost predicate Greedy(cuts: seq<Bytes>, stream: Bytes) {
    cuts == [] ||
    (CheckSize(stream) > 0 && cuts[0] == stream[..CheckSize(stream)] && Greedy(cuts[1..], stream[CheckSize(stream)..]))
  }

  /** Later octets never undo a cut. */
  lemma {:induction false} GreedyStable(cuts: seq<Bytes>, stream: Bytes, more: Bytes)
    requires Greedy(cuts, stream)
    ensures Greedy(cuts, stream + more)
  {
    hide CheckSize;
    if cuts != [] {
      var n := CheckSize(stream);
      CheckSizeStable(stream, more);
      assert (stream + more)[..n] == stream[..n] && (stream + more)[n..] == stream[n..] + more;
      GreedyStable(cuts[1..], stream[n..], more);
    }
  }

  lemma {:induction false} GreedyContinues(cuts: seq<Bytes>, rest: Bytes)
    requires Greedy(cuts, Concat(cuts) + rest) && CheckSize(rest) > 0
    ensures Greedy(cuts + [rest[..CheckSize(rest)]], Concat(cuts) + rest)
  {
    hide CheckSize;
    var next := [rest[..CheckSize(rest)]];
    var stream := Concat(cuts) + rest;
    if cuts == [] {
      assert stream == rest && cuts + next == next;
    } else {
      assert stream[|cuts[0]|..] == Concat(cuts[1..]) + rest;
      GreedyContinues(cuts[1..], rest);
      assert (cuts + next)[1..] == cuts[1..] + next;
    }
  }

  lemma NoCuts()
    ensures Concat([]) == []
  {
  }

  lemma GreedyFirst(cuts: seq<Bytes>, stream: Bytes)
    requires Greedy(cuts, stream) && cuts != []
    ensures var n := CheckSize(stream);
      n > 0 && stream == cuts[0] + stream[n..] && cuts[0] == stream[..n] && Greedy(cuts[1..], stream[n..])
    ensures Concat(cuts) == cuts[0] + Concat(cuts[1..]) && cuts == [cuts[0]] + cuts[1..]
  {
    hide CheckSize;
  }

  /** Any greedy cutting is the beginning of the parse, and what is left parses on. */
  lemma {:induction false} GreedyIsParse(cuts: seq<Bytes>, stream: Bytes) returns (rest: Bytes)
    requires Greedy(cuts, stream)
    ensures stream == Concat(cuts) + rest
    ensures Parse(stream) == cuts + Parse(rest)
  {
    hide *;
    if cuts == [] {
      rest := stream;
      NoCuts();
      assert [] + rest == rest && [] + Parse(rest) == Parse(rest);
    } else {
      var behind := stream[CheckSize(stream)..];
      var first, later := cuts[0], cuts[1..];
      GreedyFirst(cuts, stream);
      ParseStep(stream);
      rest := GreedyIsParse(later, behind);
      assert first + (Concat(later) + rest) == (first + Concat(later)) + rest;
      assert [first] + (later + Parse(rest)) == ([first] + later) + Parse(rest);
    }
  }

  /** All of a stream has been cut exactly when no whole frame is left. */
  lemma AllCut(cut: seq<Bytes>, buf: Bytes, stream: Bytes)
    requires Greedy(cut, stream) && Concat(cut) + buf == stream
    ensures cut == Parse(stream) <==> CheckSize(buf) == 0
  {
    hide CheckSize, Greedy, Concat;
    var rest := GreedyIsParse(cut, stream);
    assert rest == (Concat(cut) + rest)[|Concat(cut)|..] == (Concat(cut) + buf)[|Concat(cut)|..] == buf;
    assert CheckSize(buf) == 0 <==> Parse(buf) == [];
    assert cut + Parse(buf) == cut <==> Parse(buf) == [];
  }

  lemma ParseStep(stream: Bytes)
    requires CheckSize(stream) > 0
    ensures Parse(stream) == [stream[..CheckSize(stream)]] + Parse(stream[CheckSize(stream)..])
  {
  }

  lemma {:induction false} ParseIsGreedy(stream: Bytes)
    ensures Greedy(Parse(stream), stream)
    decreases |stream|
  {
    hide CheckSize;
    if CheckSize(stream) > 0 {
      ParseIsGreedy(stream[CheckSize(stream)..]);
    }
  }

  /** Receiving more only ever adds frames at the end. */
  lemma ParseMonotone(stream: Bytes, more: Bytes)
    ensures Parse(stream) <= Parse(stream + more)
  {
    hide CheckSize;
    var cuts := Parse(stream);
    ParseIsGreedy(stream);
    GreedyStable(cuts, stream, more);
    var rest := GreedyIsParse(cuts, stream + more);
  }

  // ------------------------------------------------------ unique decodability

  /** One complete frame: the size checker accepts exactly all of it. */
  predicate Whole(frame: Bytes) {
    |frame| > 0 && CheckSize(frame) == |frame|
  }

  lemma ParseOne(frame: Bytes, behind: Bytes)
    requires Whole(frame)
    ensures Parse(frame + behind) == [frame] + Parse(behind)
  {
    CheckSizeStable(frame, behind);
    hide CheckSize;
    assert (frame + behind)[..|frame|] == frame && (frame + behind)[|frame|..] == behind;
  }

  /** Concatenated frames split back into exactly themselves, whatever follows. */
  lemma {:induction false} ParseConcat(frames: seq<Bytes>, rest: Bytes)
    requires forall f :: f in frames ==> Whole(f)
    ensures Parse(Concat(frames) + rest) == frames + Parse(rest)
  {
    hide CheckSize, Parse;
    if frames == [] {
      assert Concat(frames) + rest == rest;
    } else {
      var behind := Concat(frames[1..]) + rest;
      assert frames[0] in frames;
      ParseOne(frames[0], behind);
      assert Concat(frames) + rest == frames[0] + behind;
      ParseConcat(frames[1..], rest);
      assert frames == [frames[0]] + frames[1..];
    }
  }

  lemma ParseNothing()
    ensures Parse([]) == []
  {
  }

  /** Two lists of frames with the same octets are the same list. */
  lemma UniquelyDecodable(f: seq<Bytes>, g: seq<Bytes>)
    requires forall x :: x in f ==> Whole(x)
    requires forall x :: x in g ==> Whole(x)
    requires Concat(f) == Concat(g)
    ensures f == g
  {
    hide CheckSize;
    ParseConcat(f, []);
    ParseConcat(g, []);
    assert Concat(f) + [] == Concat(g) + [];
    ParseNothing();
    assert f + Parse([]) == f && g + Parse([]) == g;
  }

  lemma RenderIsWhole(w: WireFrame)
    requires WellFormed(w) && |Render(w)| < UINT_LIMIT
    ensures Whole(Render(w))
  {
    hide CheckSize;
    SizeRoundTrip(w, []);
    var b := Render(w);
    assert b + [] == b;
  }

  /** A stream cut off inside an RFC frame yields the frames before it and nothing else. */
  lemma TruncatedStream(frames: seq<Bytes>, w: WireFrame, k: nat)
    requires forall f :: f in frames ==> Whole(f)
    requires WellFormed(w) && |Render(w)| < UINT_LIMIT && k < |Render(w)|
    ensures Parse(Concat(frames) + Render(w)[..k]) == frames
  {
    hide CheckSize;
    NoEarlyFrame(w, k);
    ParseConcat(frames, Render(w)[..k]);
  }
}
