/** Octets, octet strings and the few facts about them every other module needs. */
module Bytes {

  /**
    One octet: C's `unsigned char` by its value.  Bit fields are written with `/`, `%`
    and `+`; `BitFields` ties those to C's operators.  XOR works on bit patterns.
  */
  type Byte = x: int | 0 <= x < 256

  type Bytes = seq<Byte>

  /** The four masking octets of section 5.3 of RFC 6455. */
  type Mask = m: Bytes | |m| == 4 witness [0, 0, 0, 0]

  datatype Option<+T> = None | Some(value: T)

  /** `unsigned int` arithmetic wraps at this value. */
  const UINT_LIMIT: nat := 0x1_0000_0000

  // ------------------------------------------------------------ bit operations

  /** The bit pattern of an octet. */
  function Bits(a: Byte): (b: bv8)
    ensures b as int == a
  {
    if a == 0 then 0
    else
      var half := Bits(a / 2);
      ShiftLeft(half);
      if a % 2 == 0 then half << 1 else (half << 1) | 1
  }

  lemma ShiftLeft(b: bv8)
    ensures b as int < 128 ==> (b << 1) as int == 2 * (b as int) && ((b << 1) | 1) as int == 2 * (b as int) + 1
  {
  }

  lemma BitsUnique(p: bv8, q: bv8)
    requires p as int == q as int
    ensures p == q
  {
  }

  /** C's `a ^ b` on octets. */
  function Xor(a: Byte, b: Byte): Byte {
    (Bits(a) ^ Bits(b)) as int
  }

  lemma XorInverts(a: Byte, b: Byte)
    ensures Xor(Xor(a, b), b) == a
  {
    var p, q := Bits(a), Bits(b);
    BitsUnique(Bits(Xor(a, b)), p ^ q);
    assert (p ^ q) ^ q == p;
  }

  /** The arithmetic below stands for C's masks and shifts on one octet. */
  lemma BitFields(b: bv8)
    ensures (b & 0x0f) as int == b as int % 16
    ensures (b & 0x7f) as int == b as int % 128
    ensures (b >> 7) as int == b as int / 128
    ensures b < 128 ==> (0x80 | b) as int == 128 + b as int
  {
    BitField(b);
    BitField7(b);
    BitShift(b);
  }

  lemma BitField(b: bv8)
    ensures (b & 0x0f) as int == b as int % 16
  {
  }

  lemma BitField7(b: bv8)
    ensures (b & 0x7f) as int == b as int % 128
  {
  }

  lemma BitShift(b: bv8)
    ensures (b >> 7) as int == b as int / 128
    ensures b < 128 ==> (0x80 | b) as int == 128 + b as int
  {
  }

  // ------------------------------------------------------------- concatenation

  function Concat(parts: seq<Bytes>): Bytes
  {
    if parts == [] then [] else parts[0] + Concat(parts[1..])
  }

  lemma {:induction false} ConcatDistributes(a: seq<Bytes>, b: seq<Bytes>)
    ensures Concat(a + b) == Concat(a) + Concat(b)
  {
    if a == [] {
      assert a + b == b;
    } else {
      assert (a + b)[1..] == a[1..] + b;
      ConcatDistributes(a[1..], b);
    }
  }

  lemma ConcatSnoc(a: seq<Bytes>, b: Bytes)
    ensures Concat(a + [b]) == Concat(a) + b
  {
    ConcatDistributes(a, [b]);
    assert Concat([b]) == b + Concat([]);
  }
}
