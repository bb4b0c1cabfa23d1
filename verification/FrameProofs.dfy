/** What section 5 of RFC 6455 asks of a codec, proved of the one in FrameSpec. */
module FrameProofs {
  import opened Bytes
  import opened FrameSpec

  /** Masking and unmasking are the same operation. */
  lemma UnmaskInverts(mask: Mask, data: Bytes)
    ensures XorMask(mask, XorMask(mask, data)) == data
  {
    forall i | 0 <= i < |data|
      ensures XorMask(mask, XorMask(mask, data))[i] == data[i]
    {
      XorInverts(data[i], mask[i % 4]);
    }
  }

  // -------------------------------------------------------- the length field

  lemma BigEndianTwo(n: nat)
    requires n < 0x1_0000
    ensures BigEndian(n, 2) == [n / 256, n % 256]
  {
    assert BigEndian(n / 256, 1) == BigEndian(n / 256 / 256, 0) + [n / 256 % 256];
  }

  lemma BigEndianStep(n: nat, k: nat)
    ensures BigEndian(n, k + 1) == BigEndian(n / 256, k) + [n % 256]
  {
  }

  lemma {:induction false} BigEndianZero(k: nat)
    ensures |BigEndian(0, k)| == k && forall i :: 0 <= i < k ==> BigEndian(0, k)[i] == 0
  {
    if k > 0 {
      BigEndianZero(k - 1);
    }
  }

  lemma BigEndianEight(n: nat)
    requires n < UINT_LIMIT
    ensures BigEndian(n, 8) ==
      [0, 0, 0, 0, n / 0x100_0000, n / 0x1_0000 % 256, n / 0x100 % 256, n % 256]
  {
    BigEndianStep(n, 7);
    BigEndianStep(n / 256, 6);
    BigEndianStep(n / 256 / 256, 5);
    BigEndianStep(n / 256 / 256 / 256, 4);
    assert n / 256 / 256 == n / 0x1_0000 && n / 256 / 256 / 256 == n / 0x100_0000;
    assert n / 0x100_0000 < 256;
    assert n / 256 / 256 / 256 / 256 == 0;
    BigEndianZero(4);
    assert BigEndian(0, 4) == [0, 0, 0, 0];
  }

  /** Octets of a 16-bit or 32-bit number add up to the number again. */
  lemma DigitsAddUp(n: nat)
    requires n < UINT_LIMIT
    ensures n == n / 0x100_0000 * 0x100_0000 + n / 0x1_0000 % 256 * 0x1_0000 + n / 0x100 % 256 * 0x100 + n % 256
    ensures n < 0x1_0000 ==> n == n / 256 * 256 + n % 256
  {
  }

  // --------------------------------------------------------- decoding a frame

  /** Checker and builder work from the parsed header alone. */
  lemma CheckSizeBy(b: Bytes, h: Header)
    requires ParseHeader(b) == Some(h) && h.size + h.length <= |b| && h.size + h.length < UINT_LIMIT
    ensures CheckSize(b) == h.size + h.length
  {
  }

  lemma BuildBy(b: Bytes, h: Header)
    requires ParseHeader(b) == Some(h) && h.size + h.length <= |b|
    ensures BuildInBounds(b)
    ensures Build(b) == Some(RecvFrame(h.opcode, h.fin, if SkipsPayload(h.opcode) then [] else PayloadOf(h, b)))
    ensures WirePayload(b) == Some(PayloadOf(h, b))
  {
  }

  lemma HeaderOctets(w: WireFrame, rest: Bytes)
    requires WellFormed(w) && |w.payload| < UINT_LIMIT
    ensures var b := RenderHeader(w) + rest;
      && |b| >= 2
      && HeaderSize(b[1]) == |RenderHeader(w)|
      && DeclaredLength(b) == |w.payload|
  {
    hide BigEndian;
    var n := |w.payload|;
    var b := RenderHeader(w) + rest;
    DigitsAddUp(n);
    match w.form {
      case Seven =>
      case Sixteen =>
        BigEndianTwo(n);
        assert b[2..4] == [n / 256, n % 256];
        assert b[2] == b[2..4][0] && b[3] == b[2..4][1];
      case SixtyFour =>
        BigEndianEight(n);
        var field := BigEndian(n, 8);
        assert b[2..10] == field;
        assert b[6] == field[4] && b[7] == field[5] && b[8] == field[6] && b[9] == field[7];
    }
  }

  /** The header parser reads back every field of a rendered frame, whatever follows. */
  lemma HeaderRoundTrip(w: WireFrame, rest: Bytes)
    requires WellFormed(w) && |w.payload| < UINT_LIMIT
    ensures ParseHeader(RenderHeader(w) + rest) ==
      Some(Header(w.fin, w.opcode, w.mask, |RenderHeader(w)|, |w.payload|))
  {
    var b := RenderHeader(w) + rest;
    HeaderOctets(w, rest);
    var size := |RenderHeader(w)|;
    if w.mask.Some? {
      assert b[size - 4..size] == RenderHeader(w)[size - 4..] == w.mask.value;
    }
  }

  lemma PayloadRoundTrip(w: WireFrame)
    requires WellFormed(w) && |w.payload| < UINT_LIMIT
    ensures ParseHeader(Render(w)) == Some(Header(w.fin, w.opcode, w.mask, |RenderHeader(w)|, |w.payload|))
    ensures |RenderHeader(w)| + |w.payload| == |Render(w)|
    ensures PayloadOf(ParseHeader(Render(w)).value, Render(w)) == w.payload
  {
    var head, body := RenderHeader(w), RenderBody(w);
    HeaderRoundTrip(w, body);
    assert Render(w)[|head|..|head| + |w.payload|] == body;
    if w.mask.Some? {
      UnmaskInverts(w.mask.value, w.payload);
    }
  }

  lemma SizeRoundTrip(w: WireFrame, rest: Bytes)
    requires WellFormed(w) && |Render(w)| < UINT_LIMIT
    ensures CheckSize(Render(w) + rest) == |Render(w)| > 0
  {
    var head, body := RenderHeader(w), RenderBody(w);
    var b := Render(w) + rest;
    assert b == head + (body + rest);
    HeaderRoundTrip(w, body + rest);
    CheckSizeBy(b, ParseHeader(b).value);
  }

  /**
    Main codec theorem.  For every FIN bit, opcode, length form, mask choice and
    payload that fits, the size checker finds the frame's exact length whatever
    follows it, and the builder gives the frame back.
  */
  lemma RenderRoundTrip(w: WireFrame, rest: Bytes)
    requires WellFormed(w) && |Render(w)| < UINT_LIMIT
    ensures CheckSize(Render(w) + rest) == |Render(w)|
    ensures BuildInBounds(Render(w))
    ensures Build(Render(w)) == Some(RecvFrame(w.opcode, w.fin, if SkipsPayload(w.opcode) then [] else w.payload))
    ensures WirePayload(Render(w)) == Some(w.payload)
  {
    SizeRoundTrip(w, rest);
    PayloadRoundTrip(w);
    BuildBy(Render(w), ParseHeader(Render(w)).value);
  }

  /** Nothing is reported before the last octet has come in. */
  lemma NoEarlyFrame(w: WireFrame, k: nat)
    requires WellFormed(w) && |Render(w)| < UINT_LIMIT
    requires k < |Render(w)|
    ensures CheckSize(Render(w)[..k]) == 0
  {
    hide *;
    RenderLength(w);
    PayloadRoundTrip(w);
    var b := Render(w);
    PrefixHeader(b[..k], b[k..]);
    assert b[..k] + b[k..] == b;
    CheckSizeShort(b[..k]);
  }

  lemma RenderLength(w: WireFrame)
    requires WellFormed(w)
    ensures |Render(w)| == |RenderHeader(w)| + |w.payload|
  {
    hide RenderHeader;
  }

  lemma CheckSizeShort(b: Bytes)
    requires ParseHeader(b).Some? ==>
      |b| < ParseHeader(b).value.size + ParseHeader(b).value.length < UINT_LIMIT
    ensures CheckSize(b) == 0
  {
    hide ParseHeader;
  }

  // ------------------------------------------------- stability under extension

  /** A complete header is read the same however much has arrived behind it. */
  lemma PrefixHeader(b: Bytes, more: Bytes)
    ensures ParseHeader(b).Some? ==> ParseHeader(b + more) == ParseHeader(b)
  {
    if ParseHeader(b).Some? {
      var size := HeaderSize(b[1]);
      if b[1] >= 0x80 {
        assert (b + more)[size - 4..size] == b[size - 4..size];
      }
    }
  }

  /** A verdict, once given, is never changed by later octets. */
  lemma CheckSizeStable(b: Bytes, more: Bytes)
    requires CheckSize(b) > 0
    ensures CheckSize(b + more) == CheckSize(b)
  {
    PrefixHeader(b, more);
  }

  // ------------------------------------------------------- the parsers compared

  /** The 32-bit sum of header and payload does not wrap. */
  predicate SizeFits(b: Bytes)
    requires ParseHeader(b).Some?
  {
    ParseHeader(b).value.size + ParseHeader(b).value.length < UINT_LIMIT
  }

  /**
    The builder is only ever run on what the size checker cut.  It then never
    reads out of bounds, and it succeeds exactly when the 32-bit sum did not wrap;
    the cut is then precisely header plus payload.
  */
  lemma ParsersAgree(b: Bytes)
    requires CheckSize(b) > 0
    ensures var n := CheckSize(b);
      && n <= |b| && ParseHeader(b).Some?
      && BuildInBounds(b[..n])
      && (Build(b[..n]).Some? <==> SizeFits(b))
      && (SizeFits(b) ==>
            && ParseHeader(b[..n]) == ParseHeader(b)
            && n == ParseHeader(b).value.size + ParseHeader(b).value.length
            && CheckSize(b[..n]) == n)
  {
    var n := CheckSize(b);
    var h := ParseHeader(b).value;
    assert b == b[..n] + b[n..];
    PrefixHeader(b[..n], b[n..]);
    if SizeFits(b) {
      assert n == h.size + h.length;
      assert ParseHeader(b[..n]).Some?;
    } else {
      assert n == h.size + h.length - UINT_LIMIT;
    }
  }

  /** The wrapped case is real: ten octets announcing 2^32 - 1 payload octets are cut at nine. */
  lemma WrappedSizeExample()
    ensures var b: Bytes := [0x82, 0x7f, 0, 0, 0, 0, 0xff, 0xff, 0xff, 0xff];
      ParseHeader(b).Some? && !SizeFits(b) && CheckSize(b) == 9 && BuildInBounds(b[..9]) && Build(b[..9]) == None
  {
    var b: Bytes := [0x82, 0x7f, 0, 0, 0, 0, 0xff, 0xff, 0xff, 0xff];
    assert DeclaredLength(b) == 0xffff_ffff;
    assert CheckSize(b) == 9;
    ParsersAgree(b);
  }

  // ------------------------------------------------------------------ encoding

  lemma HeaderIsRfcHeader(opcode: Opcode, mask: Option<Mask>, n: nat, w: WireFrame)
    requires n == |w.payload| < UINT_LIMIT && w.fin && w.opcode == opcode && w.mask == mask
    requires w.form == MinimalForm(n)
    ensures WellFormed(w) && HeaderBytes(opcode, mask, n) == RenderHeader(w)
  {
    hide BigEndian;
    var bit := if mask.Some? then 0x80 else 0;
    if n < 126 {
      assert RenderHeader(w) == [0x80 + opcode, n + bit] + [] + MaskOctets(mask);
    } else if n < 65536 {
      BigEndianTwo(n);
      assert RenderHeader(w) == [0x80 + opcode, 126 + bit] + [n / 256, n % 256] + MaskOctets(mask);
    } else {
      BigEndianEight(n);
      LongHeader(opcode, bit, n, BigEndian(n, 8), MaskOctets(mask));
    }
  }

  lemma LongHeader(opcode: Opcode, bit: nat, n: nat, length: Bytes, tail: Bytes)
    requires n < UINT_LIMIT && bit <= 0x80
    requires length == [0, 0, 0, 0, n / 0x100_0000, n / 0x1_0000 % 256, n / 0x100 % 256, n % 256]
    ensures [0x80 + opcode, 127 + bit] + length + tail ==
      [0x80 + opcode, 127 + bit, 0, 0, 0, 0, n / 0x100_0000, n / 0x1_0000 % 256, n / 0x100 % 256, n % 256] + tail
  {
  }

  /** What the client sends is a single-fragment RFC 6455 frame in the shortest length form. */
  lemma EncodeIsRfcFrame(opcode: Opcode, mask: Option<Mask>, payload: Bytes)
    requires |payload| < UINT_LIMIT
    ensures var w := WireFrame(true, opcode, MinimalForm(|payload|), mask, payload);
      WellFormed(w) && Encode(opcode, mask, payload) == Render(w)
      && HeaderBytes(opcode, mask, |payload|) == RenderHeader(w)
  {
    HeaderIsRfcHeader(opcode, mask, |payload|, WireFrame(true, opcode, MinimalForm(|payload|), mask, payload));
  }

  /**
    The sender's own size checker agrees with what was written exactly when the
    whole frame is shorter than 2^32 octets; the decoder then returns the payload.
  */
  lemma EncodeRoundTrip(opcode: Opcode, mask: Option<Mask>, payload: Bytes, rest: Bytes)
    ensures var e := Encode(opcode, mask, payload);
      && (CheckSize(e + rest) == |e| <==> |e| < UINT_LIMIT)
      && (|e| < UINT_LIMIT ==>
            BuildInBounds(e) && Build(e) == Some(RecvFrame(opcode, true, if SkipsPayload(opcode) then [] else payload)))
  {
    var e := Encode(opcode, mask, payload);
    if |e| < UINT_LIMIT {
      EncodeIsRfcFrame(opcode, mask, payload);
      RenderRoundTrip(WireFrame(true, opcode, MinimalForm(|payload|), mask, payload), rest);
    }
  }

  // ------------------------------------------------- every octet string, not only ours

  /** Reserved bits clear, and the upper half of a 64-bit length zero: what the parsers do not look at. */
  predicate IgnoredBitsClear(b: Bytes)
    requires 2 <= |b| && HeaderSize(b[1]) <= |b|
  {
    b[0] / 0x10 % 8 == 0 && (b[1] % 0x80 == 127 ==> b[2..6] == [0, 0, 0, 0])
  }

  /** The RFC frame that a buffer starts with, by its parsed fields. */
  ghost function FrameRead(b: Bytes): WireFrame
    requires ParseHeader(b).Some?
    requires ParseHeader(b).value.size + ParseHeader(b).value.length <= |b|
  {
    var h := ParseHeader(b).value;
    var form := if b[1] % 0x80 == 126 then Sixteen else if b[1] % 0x80 == 127 then SixtyFour else Seven;
    WireFrame(h.fin, h.opcode, form, h.mask, PayloadOf(h, b))
  }

  lemma DigitsUnique(a: nat, b: nat, c: nat, d: nat)
    requires a < 256 && b < 256 && c < 256 && d < 256
    ensures var n := a * 0x100_0000 + b * 0x1_0000 + c * 0x100 + d;
      n / 0x100_0000 == a && n / 0x1_0000 % 256 == b && n / 0x100 % 256 == c && n % 256 == d
  {
    var n := a * 0x100_0000 + b * 0x1_0000 + c * 0x100 + d;
    assert n / 0x100 == a * 0x1_0000 + b * 0x100 + c;
    assert n / 0x1_0000 == a * 0x100 + b;
  }

  lemma LengthOctetsRead(b: Bytes)
    requires ParseHeader(b).Some? && IgnoredBitsClear(b)
    requires ParseHeader(b).value.size + ParseHeader(b).value.length <= |b|
    ensures var w := FrameRead(b);
      && WellFormed(w) && LengthCode(w) == b[1] % 0x80
      && BigEndian(|w.payload|, LengthOctets(w.form)) == b[2..2 + LengthOctets(w.form)]
  {
    hide BigEndian;
    var w := FrameRead(b);
    var n := |w.payload|;
    assert n == DeclaredLength(b);
    match w.form {
      case Seven =>
      case Sixteen =>
        DigitsUnique(0, 0, b[2], b[3]);
        BigEndianTwo(n);
        assert b[2..4] == [b[2], b[3]];
      case SixtyFour =>
        DigitsUnique(b[6], b[7], b[8], b[9]);
        BigEndianEight(n);
        assert b[2..6] == [0, 0, 0, 0];
        assert b[2..10] == b[2..6] + [b[6], b[7], b[8], b[9]];
    }
  }

  lemma HeaderRead(b: Bytes)
    requires ParseHeader(b).Some? && IgnoredBitsClear(b)
    requires ParseHeader(b).value.size + ParseHeader(b).value.length <= |b|
    ensures WellFormed(FrameRead(b)) && RenderHeader(FrameRead(b)) == b[..ParseHeader(b).value.size]
  {
    LengthOctetsRead(b);
    hide BigEndian, DeclaredLength, PayloadOf, LengthCode, WellFormed;
    var w := FrameRead(b);
    var size := ParseHeader(b).value.size;
    var k := LengthOctets(w.form);
    assert b[..size] == [b[0], b[1]] + b[2..2 + k] + b[2 + k..size];
  }

  /** Conversely to `RenderRoundTrip`: a buffer the checker accepts starts with the RFC frame it was read as. */
  lemma ReadIsRfcFrame(b: Bytes)
    requires CheckSize(b) > 0 && SizeFits(b) && IgnoredBitsClear(b)
    ensures CheckSize(b) <= |b| && WellFormed(FrameRead(b)) && Render(FrameRead(b)) == b[..CheckSize(b)]
  {
    var n := CheckSize(b);
    ParsersAgree(b);
    var w := FrameRead(b);
    var h := ParseHeader(b).value;
    HeaderRead(b);
    hide RenderHeader, CheckSize;
    var raw := b[h.size..n];
    if h.mask.Some? {
      UnmaskInverts(h.mask.value, raw);
    }
    assert RenderBody(w) == raw;
    assert b[..n] == b[..h.size] + raw;
  }
}
