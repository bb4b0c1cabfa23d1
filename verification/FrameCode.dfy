/** The frame object of `src/rws_frame.c`, with its buffers in memory. */
module FrameCode {
  import opened Bytes
  import opened FrameSpec

  class Frame {
    var data: array?<Byte>
    var dataSize: nat
    var opcode: Opcode
    var mask: Mask
    var isMasked: bool
    var isFinished: bool
    var headerSize: nat

    /** `rws_malloc` returns NULL for a size of zero. */
    ghost predicate Valid()
      reads this
    {
      if data == null then dataSize == 0 else dataSize == data.Length > 0
    }

    function Contents(): Bytes
      reads this, data
    {
      if data == null then [] else data[..]
    }

    /** The frame as the specification sees it. */
    ghost function Model(): RecvFrame
      reads this, data
    {
      RecvFrame(opcode, isFinished, Contents())
    }

    function MaskUsed(): Option<Mask>
      reads this
    {
      if isMasked then Some(mask) else None
    }

    /** `rws_frame_create`; the random mask is a parameter. */
    constructor Create(randomMask: Mask)
      ensures Valid() && data == null && opcode == CONTINUATION && mask == randomMask
      ensures !isMasked && !isFinished && headerSize == 0
    {
      data, dataSize, opcode, mask := null, 0, CONTINUATION, randomMask;
      isMasked, isFinished, headerSize := false, false, 0;
    }

    /** The first part of `rws_frame_create_header`: opcode and length; `at` is the advancing pointer. */
    method PutSize(header: array<Byte>, payloadSize: nat) returns (at: nat)
      requires header.Length >= 14
      modifies this`headerSize, header
      ensures headerSize == at && 2 <= at <= 10
      ensures HeaderBytes(opcode, MaskUsed(), payloadSize) == header[..at] + MaskPart()
    {
      var size := payloadSize % UINT_LIMIT;
      var bit := if isMasked then 0x80 else 0;
      at := 0;
      header[at] := 0x80 + opcode;
      at := at + 1;
      if size < 126 {
        header[at] := size + bit;
        at := at + 1;
        headerSize := 2;
        assert header[..at] == [0x80 + opcode, size + bit];
      } else if size < 65536 {
        header[at] := 126 + bit;
        header[at + 1] := size / 0x100;
        header[at + 2] := size % 0x100;
        at := at + 3;
        headerSize := 4;
        assert header[..at] == [0x80 + opcode, 126 + bit, size / 0x100, size % 0x100];
      } else {
        header[at] := 127 + bit;
        at := at + 1;
        header[at], header[at + 1], header[at + 2], header[at + 3] := 0, 0, 0, 0;
        at := at + 4;
        header[at] := size / 0x100_0000;
        header[at + 1] := size / 0x1_0000 % 0x100;
        header[at + 2] := size / 0x100 % 0x100;
        header[at + 3] := size % 0x100;
        at := at + 4;
        headerSize := 10;
        assert header[..at] == [0x80 + opcode, 127 + bit, 0, 0, 0, 0,
          size / 0x100_0000, size / 0x1_0000 % 0x100, size / 0x100 % 0x100, size % 0x100];
      }
    }

    function MaskPart(): Bytes
      reads this
    {
      if isMasked then mask else []
    }

    /** `rws_frame_create_header`. */
    method CreateHeader(header: array<Byte>, payloadSize: nat)
      requires header.Length >= 14
      modifies this`headerSize, header
      ensures headerSize == |HeaderBytes(opcode, MaskUsed(), payloadSize)|
      ensures header[..headerSize] == HeaderBytes(opcode, MaskUsed(), payloadSize)
    {
      hide HeaderBytes;
      var at := PutSize(header, payloadSize);
      ghost var plain := header[..at];
      if isMasked {
        MemCopy(header, at, mask);
        headerSize := headerSize + 4;
        assert header[..headerSize] == header[..at] + header[at..at + 4];
      } else {
        assert plain + [] == plain;
      }
    }

    /** `rws_frame_fill_with_send_data`: header, payload, then the payload masked in place. */
    method FillWithSendData(payload: Bytes)
      modifies this
      ensures Valid() && data != null && fresh(data)
      ensures Contents() == Encode(opcode, MaskUsed(), payload)
      ensures isFinished && opcode == old(opcode) && mask == old(mask) && isMasked == old(isMasked)
    {
      var header := new Byte[16];
      CreateHeader(header, |payload|);
      ghost var head := HeaderBytes(opcode, MaskUsed(), |payload|);
      EncodeParts(opcode, MaskUsed(), payload);
      hide HeaderBytes, Encode, XorMask;
      dataSize := |payload| + headerSize;
      var frame := FirstPart(header[..headerSize], payload);
      data := frame;
      if isMasked {
        MaskInPlace(frame, headerSize, mask);
      }
      isFinished := true;
      assert frame[..] == frame[..headerSize] + frame[headerSize..];
    }

    /** The block with header and plain payload. */
    static method FirstPart(head: Bytes, payload: Bytes) returns (frame: array<Byte>)
      ensures fresh(frame) && frame.Length == |head| + |payload|
      ensures frame[..|head|] == head && frame[|head|..] == payload
    {
      frame := new Byte[|head| + |payload|];
      MemCopy(frame, 0, head);
      MemCopy(frame, |head|, payload);
    }

    /** `rws_frame_combine_datas`, as documented: this frame gets both payloads. */
    method CombineDatas(from: Frame)
      requires Valid() && from.Valid() && from != this
      modifies this`data, this`dataSize
      ensures Valid() && Contents() == old(Contents()) + from.Contents()
      ensures data != null ==> fresh(data)
    {
      var size := dataSize + from.dataSize;
      var combined: array?<Byte> := null;
      if size > 0 {
        combined := new Byte[size];
        if data != null {
          MemCopy(combined, 0, data[..]);
        }
        if from.data != null {
          MemCopy(combined, dataSize, from.data[..]);
        }
        assert combined[..] == Contents() + from.Contents();
      }
      data := combined;
      dataSize := size;
    }
  }

  lemma EncodeParts(opcode: Opcode, mask: Option<Mask>, payload: Bytes)
    ensures Encode(opcode, mask, payload) ==
      HeaderBytes(opcode, mask, |payload|) + (if mask.Some? then XorMask(mask.value, payload) else payload)
  {
    hide HeaderBytes, XorMask;
  }

  /** `memcpy` to offset `at` of a block. */
  method MemCopy(block: array<Byte>, at: nat, source: Bytes)
    requires at + |source| <= block.Length
    modifies block
    ensures block[..at] == old(block[..at])
    ensures block[at..at + |source|] == source
    ensures block[at + |source|..] == old(block[at + |source|..])
  {
    forall i | 0 <= i < |source| {
      block[at + i] := source[i];
    }
  }

  /** The masking loop of `rws_frame_fill_with_send_data`, over the payload part of the block. */
  method MaskInPlace(block: array<Byte>, start: nat, mask: Mask)
    requires start <= block.Length
    modifies block
    ensures block[..start] == old(block[..start])
    ensures block[start..] == XorMask(mask, old(block[start..]))
  {
    ghost var payload := block[start..];
    var index := 0;
    var size := block.Length - start;
    while index < size
      invariant index <= size
      invariant forall i :: 0 <= i < start ==> block[i] == old(block[i])
      invariant forall i :: 0 <= i < index ==> block[start + i] == Xor(payload[i], mask[i % 4])
      invariant forall i :: index <= i < size ==> block[start + i] == payload[i]
    {
      block[start + index] := Xor(block[start + index], mask[index % 4]);
      index := index + 1;
    }
    hide Xor;
    assert block[start..] == XorMask(mask, payload);
  }

  /** `rws_check_recv_frame_size`. */
  method CheckRecvFrameSize(udata: Bytes) returns (n: nat)
    ensures n == CheckSize(udata)
  {
    n := 0;
    if |udata| >= 2 {
      var isMasked, payload := udata[1] / 0x80, udata[1] % 0x80;
      var headerSize := if isMasked == 1 then 6 else 2;
      if payload == 126 {
        headerSize := headerSize + 2;
      } else if payload == 127 {
        headerSize := headerSize + 8;
      }
      if |udata| < headerSize {
        return;
      }
      var expected: nat := 0;
      if payload == 126 {
        expected := udata[2] as int * 0x100;
        expected := expected + udata[3];
      } else if payload == 127 {
        expected := udata[6] as int * 0x100_0000;
        expected := expected + udata[7] as int * 0x1_0000;
        expected := expected + udata[8] as int * 0x100;
        expected := expected + udata[9];
      } else {
        expected := payload;
      }
      var packSize := (expected + headerSize) % UINT_LIMIT;
      n := if packSize <= |udata| then packSize else 0;
    }
  }

  /** `rws_frame_create_with_recv_data`. */
  method CreateWithRecvData(udata: Bytes, randomMask: Mask) returns (frame: Frame?)
    requires BuildInBounds(udata)
    ensures frame == null <==> Build(udata) == None
    ensures frame != null ==>
      && fresh(frame) && frame.Valid() && (frame.data != null ==> fresh(frame.data))
      && frame.Model() == Build(udata).value
      && frame.headerSize == ParseHeader(udata).value.size
      && frame.MaskUsed() == ParseHeader(udata).value.mask
  {
    hide Xor, XorMask, Build, BuildInBounds, ParseHeader;
    frame := null;
    BuildNothing(udata);
    if |udata| >= 2 {
      var isMasked, payload := udata[1] / 0x80, udata[1] % 0x80;
      var headerSize := if isMasked == 1 then 6 else 2;
      var expected: nat, maskPos := 0, 0;
      if payload == 126 {
        headerSize := headerSize + 2;
      } else if payload == 127 {
        headerSize := headerSize + 8;
      }
      assert headerSize == HeaderSize(udata[1]);
      if |udata| < headerSize {
        return;
      }
      if payload == 126 {
        expected := udata[2] as int * 0x100 + udata[3];
        maskPos := 4;
      } else if payload == 127 {
        expected := udata[6] as int * 0x100_0000 + udata[7] as int * 0x1_0000 + udata[8] as int * 0x100 + udata[9];
        maskPos := 10;
      } else {
        maskPos := 2;
        expected := payload;
      }
      assert expected == DeclaredLength(udata) && (isMasked == 1 ==> maskPos + 4 == headerSize);
      hide HeaderSize, DeclaredLength;
      frame := new Frame.Create(randomMask);
      frame.opcode := udata[0] % 0x10;
      if udata[0] / 0x80 == 1 {
        frame.isFinished := true;
      }
      frame.headerSize := headerSize;
      if isMasked == 1 {
        frame.isMasked := true;
        frame.mask := udata[maskPos..maskPos + 4];
      }
      ghost var h := Header(udata[0] >= 0x80, udata[0] % 0x10, frame.MaskUsed(), headerSize, expected);
      HeaderIs(udata, h);
      BuildReads(udata, h);
      if frame.opcode == CLOSE || frame.opcode == PONG {
        return;
      }
      ghost var raw := udata[headerSize..headerSize + expected];
      if expected > 0 {
        FillPayload(frame, udata[headerSize..headerSize + expected]);
      } else {
        assert raw == [] && XorMask(frame.mask, raw) == [];
      }
    }
  }

  lemma HeaderIs(b: Bytes, h: Header)
    requires |b| >= 2 && h.size == HeaderSize(b[1]) <= |b| && h.length == DeclaredLength(b)
    requires h.fin == (b[0] >= 0x80) && h.opcode == b[0] % 0x10
    requires h.mask == if b[1] >= 0x80 then Some(b[h.size - 4..h.size]) else None
    ensures ParseHeader(b) == Some(h)
  {
    hide HeaderSize, DeclaredLength;
  }

  lemma BuildNothing(b: Bytes)
    requires BuildInBounds(b)
    ensures |b| < 2 || |b| < HeaderSize(b[1]) ==> Build(b) == None
  {
  }

  /** The builder's result from the header fields. */
  lemma BuildReads(b: Bytes, h: Header)
    requires BuildInBounds(b) && ParseHeader(b) == Some(h)
    ensures Build(b) != None
    ensures SkipsPayload(h.opcode) ==> Build(b) == Some(RecvFrame(h.opcode, h.fin, []))
    ensures !SkipsPayload(h.opcode) ==>
      && h.size + h.length <= |b|
      && Build(b) == Some(RecvFrame(h.opcode, h.fin, PayloadOf(h, b)))
  {
  }

  /** The payload part of the builder: allocate, then unmask octet by octet or copy. */
  method FillPayload(frame: Frame, actual: Bytes)
    requires |actual| > 0
    modifies frame`data, frame`dataSize
    ensures frame.Valid() && frame.data != null && fresh(frame.data)
    ensures frame.Contents() == if frame.isMasked then XorMask(frame.mask, actual) else actual
  {
    var unmasked := new Byte[|actual|];
    frame.data := unmasked;
    frame.dataSize := |actual|;
    if frame.isMasked {
      var index := 0;
      while index < |actual|
        invariant index <= |actual| && frame.data == unmasked && frame.dataSize == |actual|
        invariant forall i :: 0 <= i < index ==> unmasked[i] == Xor(actual[i], frame.mask[i % 4])
      {
        unmasked[index] := Xor(actual[index], frame.mask[index % 4]);
        index := index + 1;
      }
      assert unmasked[..] == XorMask(frame.mask, actual);
    } else {
      forall i | 0 <= i < |actual| {
        unmasked[i] := actual[i];
      }
      assert unmasked[..] == actual;
    }
  }
}
