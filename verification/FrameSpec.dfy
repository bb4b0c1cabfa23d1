/**
  The frame codec on octet strings.

  `Render` is the wire format of section 5.2 of RFC 6455, written from the
  standard and not from the program.  `Encode`, `ParseHeader`, `CheckSize` and
  `Build` say what `src/rws_frame.c` computes.
*/
module FrameSpec {
  import opened Bytes

  /** Opcodes have four bits. */
  type Opcode = x: int | 0 <= x < 16

  const CONTINUATION: Opcode := 0x0
  const TEXT: Opcode := 0x1
  const BINARY: Opcode := 0x2
  const CLOSE: Opcode := 0x8
  const PING: Opcode := 0x9
  const PONG: Opcode := 0xA

  /** What the program keeps of a received frame. */
  datatype RecvFrame = RecvFrame(opcode: Opcode, fin: bool, data: Bytes)

  // ---------------------------------------------------------------- RFC 6455

  /** The three ways section 5.2 of RFC 6455 writes a payload length. */
  datatype LengthForm = Seven | Sixteen | SixtyFour

  datatype WireFrame = WireFrame(fin: bool, opcode: Opcode, form: LengthForm, mask: Option<Mask>, payload: Bytes)

  ghost predicate WellFormed(w: WireFrame) {
    match w.form
    case Seven => |w.payload| <= 125
    case Sixteen => |w.payload| < 0x1_0000
    case SixtyFour => |w.payload| < 0x8000_0000_0000_0000
  }

  /** Network byte order: `k` octets, most significant first. */
  function BigEndian(n: nat, k: nat): (b: Bytes)
    ensures |b| == k
  {
    if k == 0 then [] else BigEndian(n / 256, k - 1) + [n % 256]
  }

  /** Octet i is combined with masking octet i mod 4 (section 5.3 of RFC 6455). */
  function XorMask(mask: Mask, data: Bytes): (r: Bytes)
    ensures |r| == |data|
    ensures forall i :: 0 <= i < |data| ==> r[i] == Xor(data[i], mask[i % 4])
  {
    seq(|data|, i requires 0 <= i < |data| => Xor(data[i], mask[i % 4]))
  }

  ghost function LengthOctets(form: LengthForm): nat {
    match form case Seven => 0 case Sixteen => 2 case SixtyFour => 8
  }

  ghost function LengthCode(w: WireFrame): Byte
    requires WellFormed(w)
  {
    match w.form case Seven => |w.payload| case Sixteen => 126 case SixtyFour => 127
  }

  ghost function MaskOctets(mask: Option<Mask>): Bytes {
    if mask.Some? then mask.value else []
  }

  ghost function RenderHeader(w: WireFrame): Bytes
    requires WellFormed(w)
  {
    [(if w.fin then 0x80 else 0) + w.opcode, (if w.mask.Some? then 0x80 else 0) + LengthCode(w)]
    + BigEndian(|w.payload|, LengthOctets(w.form))
    + MaskOctets(w.mask)
  }

  ghost function RenderBody(w: WireFrame): Bytes {
    if w.mask.Some? then XorMask(w.mask.value, w.payload) else w.payload
  }

  ghost function Render(w: WireFrame): Bytes
    requires WellFormed(w)
  {
    RenderHeader(w) + RenderBody(w)
  }

  // ----------------------------------------------------------------- encoder

  /** `rws_frame_create_header`: the length is first cut down to 32 bits. */
  function HeaderBytes(opcode: Opcode, mask: Option<Mask>, dataSize: nat): (h: Bytes)
    ensures 2 <= |h| <= 14
  {
    var size := dataSize % UINT_LIMIT;
    var bit := if mask.Some? then 0x80 else 0;
    (if size < 126 then
       [0x80 + opcode, size + bit]
     else if size < 65536 then
       [0x80 + opcode, 126 + bit, size / 0x100, size % 0x100]
     else
       [0x80 + opcode, 127 + bit, 0, 0, 0, 0,
        size / 0x100_0000, size / 0x1_0000 % 0x100, size / 0x100 % 0x100, size % 0x100])
    + (if mask.Some? then mask.value else [])
  }

  /** `rws_frame_fill_with_send_data`: the octets handed to the transport. */
  function Encode(opcode: Opcode, mask: Option<Mask>, payload: Bytes): Bytes {
    HeaderBytes(opcode, mask, |payload|) + (if mask.Some? then XorMask(mask.value, payload) else payload)
  }

  function MinimalForm(n: nat): LengthForm {
    if n < 126 then Seven else if n < 65536 then Sixteen else SixtyFour
  }

  // ----------------------------------------------------------------- decoder

  /** The header as both parsers of `src/rws_frame.c` read it. */
  datatype Header = Header(fin: bool, opcode: Opcode, mask: Option<Mask>, size: nat, length: nat)

  /** Octets in a header whose second octet is `b1`. */
  function HeaderSize(b1: Byte): nat {
    (if b1 >= 0x80 then 6 else 2) + (if b1 % 0x80 == 126 then 2 else if b1 % 0x80 == 127 then 8 else 0)
  }

  /** The declared payload length; octets 2..5 of the 64-bit form are not looked at. */
  function DeclaredLength(b: Bytes): (n: nat)
    requires 2 <= |b| && HeaderSize(b[1]) <= |b|
    ensures n < UINT_LIMIT
  {
    if b[1] % 0x80 == 126 then
      b[2] as int * 0x100 + b[3] as int
    else if b[1] % 0x80 == 127 then
      b[6] as int * 0x100_0000 + b[7] as int * 0x1_0000 + b[8] as int * 0x100 + b[9] as int
    else
      b[1] % 0x80
  }

  function ParseHeader(b: Bytes): Option<Header> {
    if |b| < 2 || |b| < HeaderSize(b[1]) then None
    else
      var size := HeaderSize(b[1]);
      var mask := if b[1] >= 0x80 then Some(b[size - 4..size]) else None;
      Some(Header(b[0] >= 0x80, b[0] % 0x10, mask, size, DeclaredLength(b)))
  }

  /** `rws_check_recv_frame_size`: the sum is taken in 32 bits; 0 means "no whole frame yet". */
  function CheckSize(b: Bytes): (n: nat)
    ensures n <= |b|
  {
    match ParseHeader(b)
    case None => 0
    case Some(h) =>
      var n := (h.length + h.size) % UINT_LIMIT;
      if n <= |b| then n else 0
  }

  /** Opcodes whose payload the builder leaves alone. */
  predicate SkipsPayload(opcode: Opcode) {
    opcode == CLOSE || opcode == PONG
  }

  /** The builder reads no octet past the end of `b`. */
  predicate BuildInBounds(b: Bytes) {
    match ParseHeader(b)
    case None => true
    case Some(h) => SkipsPayload(h.opcode) || h.size + h.length <= |b|
  }

  /** The payload behind header `h`, unmasked. */
  function PayloadOf(h: Header, b: Bytes): Bytes
    requires h.size + h.length <= |b|
  {
    var raw := b[h.size..h.size + h.length];
    if h.mask.Some? then XorMask(h.mask.value, raw) else raw
  }

  /** The payload of the frame a buffer starts with, whatever its opcode. */
  function WirePayload(b: Bytes): Option<Bytes> {
    match ParseHeader(b)
    case None => None
    case Some(h) => if h.size + h.length <= |b| then Some(PayloadOf(h, b)) else None
  }

  /** `rws_frame_create_with_recv_data`. */
  function Build(b: Bytes): Option<RecvFrame>
    requires BuildInBounds(b)
  {
    match ParseHeader(b)
    case None => None
    case Some(h) => Some(RecvFrame(h.opcode, h.fin, if SkipsPayload(h.opcode) then [] else PayloadOf(h, b)))
  }
}
