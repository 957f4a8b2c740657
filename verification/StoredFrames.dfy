/** Zstandard frames of stored blocks: what is written, and a decoder that follows section 3.1.1 of RFC 8878
    for the frames and blocks that occur here. */
module StoredFrames {
  import opened Documents
  import opened BymlFormat
  import opened BymlTables

  const ZSTD_MAGIC: Bytes := [0x28, 0xB5, 0x2F, 0xFD]
  const MAX_RAW_BLOCK := 0x2_0000

  // ---------- the decoder ----------

  function LittleAt(frame: Bytes, at: nat, n: nat): Option<nat> {
    Reader(frame, false, [], []).Number(at, n)
  }

  /** Section 3.1.1.1.1: the width of the frame content size field. */
  function ContentSizeWidth(descriptor: Byte): nat {
    var flag := descriptor / 64;
    if flag == 0 then if SingleSegment(descriptor) then 1 else 0
    else if flag == 1 then 2
    else if flag == 2 then 4
    else 8
  }

  predicate SingleSegment(descriptor: Byte) { descriptor / 32 % 2 == 1 }

  /** Section 3.1.1.1.1.6: the width of the dictionary identifier. */
  function DictionaryWidth(descriptor: Byte): nat {
    var flag := descriptor % 4;
    if flag == 0 then 0 else if flag == 1 then 1 else if flag == 2 then 2 else 4
  }

  /** Section 3.1.1.1.4: a two byte field counts from 256. */
  function DeclaredSize(width: nat, value: nat): nat { if width == 2 then value + 256 else value }

  /** Section 3.1.1.2: blocks up to the one marked last, which ends the frame; each at most `limit` long. */
  function DecodeBlocks(frame: Bytes, at: nat, limit: nat): Option<Bytes>
    decreases |frame| - at
  {
    match LittleAt(frame, at, 3)
    case None => None
    case Some(header) =>
      var last, kind, size := header % 2 == 1, header / 2 % 4, header / 8;
      var next := at + 3 + size;
      if kind != 0 || size > limit || next > |frame| then None
      else if last then if next == |frame| then Some(frame[at + 3..next]) else None
      else
        match DecodeBlocks(frame, next, limit)
        case None => None
        case Some(rest) => Some(frame[at + 3..next] + rest)
  }

  /** A frame without dictionary or checksum whose window is the whole content. */
  function Decode(frame: Bytes): Option<Bytes> {
    if |frame| < 5 || frame[..4] != ZSTD_MAGIC then None
    else
      var descriptor := frame[4];
      if !SingleSegment(descriptor) || descriptor % 32 != 0 then None
      else
        var width := ContentSizeWidth(descriptor);
        match LittleAt(frame, 5, width)
        case None => None
        case Some(value) =>
          var size := DeclaredSize(width, value);
          match DecodeBlocks(frame, 5 + width, if size < MAX_RAW_BLOCK then size else MAX_RAW_BLOCK)
          case None => None
          case Some(data) => if |data| == size then Some(data) else None
  }

  // ---------- what is written ----------

  function BlockHeader(size: nat, last: bool): (bytes: Bytes)
    ensures |bytes| == 3
  {
    Number(false, size * 8 + if last then 1 else 0, 3)
  }

  function Blocks(data: Bytes): Bytes
    decreases |data|
  {
    if |data| <= MAX_RAW_BLOCK then BlockHeader(|data|, true) + data
    else BlockHeader(MAX_RAW_BLOCK, false) + data[..MAX_RAW_BLOCK] + Blocks(data[MAX_RAW_BLOCK..])
  }

  /** The descriptor and the size, in no more bytes than it needs. */
  function FrameHeader(size: nat): Bytes {
    if size < 256 then [0x20] + Number(false, size, 1)
    else if size < 256 + 65536 then [0x60] + Number(false, size - 256, 2)
    else if size < WORD then [0xA0] + Number(false, size, 4)
    else [0xE0] + Number(false, size, 8)
  }

  function Frame(data: Bytes): Bytes { ZSTD_MAGIC + FrameHeader(|data|) + Blocks(data) }

  // ---------- decoding what was written ----------

  lemma HeaderFields(size: nat, last: bool)
    requires size <= MAX_RAW_BLOCK
    ensures var header := size * 8 + if last then 1 else 0;
            (header % 2 == 1 <==> last) && header / 2 % 4 == 0 && header / 8 == size && header < Power(3)
  {
    Powers();
    assert Power(3) == 256 * Power(2);
  }

  lemma {:induction false} BlocksBack(frame: Bytes, at: nat, data: Bytes, limit: nat)
    requires Holds(frame, at, Blocks(data)) && at + |Blocks(data)| == |frame|
    requires |data| <= limit || limit == MAX_RAW_BLOCK
    ensures DecodeBlocks(frame, at, limit) == Some(data)
    decreases |data|
  {
    hide Number, NumberAt, Reader.Number, BlockHeader;
    var last := |data| <= MAX_RAW_BLOCK;
    var size := if last then |data| else MAX_RAW_BLOCK;
    var first := data[..size];
    assert Blocks(data) == BlockHeader(size, last) + first + if last then [] else Blocks(data[size..]);
    HoldsSplit(frame, at, BlockHeader(size, last) + first, if last then [] else Blocks(data[size..]));
    HoldsSplit(frame, at, BlockHeader(size, last), first);
    BlockHeaderBack(frame, at, size, last);
    assert frame[at + 3..at + 3 + size] == first;
    if !last {
      BlocksBack(frame, at + 3 + size, data[size..], limit);
      assert first + data[size..] == data;
    } else {
      assert first == data;
    }
  }

  lemma BlockHeaderBack(frame: Bytes, at: nat, size: nat, last: bool)
    requires Holds(frame, at, BlockHeader(size, last)) && size <= MAX_RAW_BLOCK
    ensures LittleAt(frame, at, 3) == Some(size * 8 + if last then 1 else 0)
    ensures var header := size * 8 + if last then 1 else 0;
            (header % 2 == 1 <==> last) && header / 2 % 4 == 0 && header / 8 == size
  {
    hide Number, NumberAt, Reader.Number;
    HeaderFields(size, last);
    NumberHeld(frame, false, [], [], at, size * 8 + if last then 1 else 0, 3);
  }

  function Width(size: nat): nat { if size < 256 then 1 else if size < 256 + 65536 then 2 else if size < WORD then 4 else 8 }

  function Descriptor(size: nat): Byte { if size < 256 then 0x20 else if size < 256 + 65536 then 0x60 else if size < WORD then 0xA0 else 0xE0 }

  function SizeField(size: nat): nat { if Width(size) == 2 then size - 256 else size }

  lemma FrameHeaderIs(size: nat)
    ensures FrameHeader(size) == [Descriptor(size)] + Number(false, SizeField(size), Width(size))
  {
    hide Number;
  }

  /** Magic, descriptor and size, where readers look for them. */
  lemma FrameParts(data: Bytes)
    requires |data| < WORD * WORD
    ensures var frame := Frame(data);
            && |frame| >= 5 && frame[..4] == ZSTD_MAGIC && frame[4] == Descriptor(|data|)
            && LittleAt(frame, 5, Width(|data|)) == Some(SizeField(|data|))
            && Holds(frame, 5 + Width(|data|), Blocks(data)) && 5 + Width(|data|) + |Blocks(data)| == |frame|
  {
    hide Number, NumberAt, Reader.Number, Blocks;
    var frame, size := Frame(data), |data|;
    var field := Number(false, SizeField(size), Width(size));
    FrameHeaderIs(size);
    assert frame == ZSTD_MAGIC + [Descriptor(size)] + field + Blocks(data);
    Whole(frame);
    HoldsFour(frame, 0, ZSTD_MAGIC, [Descriptor(size)], field, Blocks(data));
    HoldsSplit(frame, 0, ZSTD_MAGIC + [Descriptor(size)] + field, Blocks(data));
    Powers();
    assert Power(1) == 256;
    NumberHeld(frame, false, [], [], 5, SizeField(size), Width(size));
  }

  lemma Whole(frame: Bytes)
    ensures Holds(frame, 0, frame)
  {
  }

  lemma DescriptorFields(size: nat)
    ensures SingleSegment(Descriptor(size)) && Descriptor(size) % 32 == 0 && ContentSizeWidth(Descriptor(size)) == Width(size)
    ensures DictionaryWidth(Descriptor(size)) == 0 && DeclaredSize(Width(size), SizeField(size)) == size
  {
  }

  /** A frame decoded is the data it was made of, whatever its length. */
  lemma FrameBack(data: Bytes)
    requires |data| < WORD * WORD
    ensures Decode(Frame(data)) == Some(data)
  {
    hide Blocks, LittleAt, DecodeBlocks, Holds, Frame, Descriptor, Width, SizeField, ContentSizeWidth, DeclaredSize, SingleSegment;
    FrameParts(data);
    DescriptorFields(|data|);
    BlocksBack(Frame(data), 5 + Width(|data|), data, if |data| < MAX_RAW_BLOCK then |data| else MAX_RAW_BLOCK);
  }

  // ---------- the size a frame declares ----------

  /** What the header of any frame declares, by the fields of section 3.1.1.1. */
  function Declared(frame: Bytes): Option<nat> {
    if |frame| < 5 || frame[..4] != ZSTD_MAGIC then None
    else
      var descriptor := frame[4];
      var width := ContentSizeWidth(descriptor);
      if width == 0 then None
      else
        match LittleAt(frame, 5 + (if SingleSegment(descriptor) then 0 else 1) + DictionaryWidth(descriptor), width)
        case None => None
        case Some(value) => Some(DeclaredSize(width, value))
  }

  method FrameContentSize(frame: Bytes) returns (size: Option<nat>)
    ensures size == Declared(frame)
  {
    if |frame| < 5 || frame[..4] != ZSTD_MAGIC { return None; }
    var descriptor := frame[4];
    var singleSegment := descriptor / 32 % 2 != 0;
    var offset := 5 + (if singleSegment then 0 else 1) + DictionaryWidth(descriptor);
    var field := ContentSizeWidth(descriptor);
    if field == 0 || offset + field > |frame| { return None; }
    var value := ReadLittle(frame[offset..offset + field]);
    return Some(if field == 2 then value + 256 else value);
  }

  /** Byte by byte, each eight bits further up than the one before. */
  method ReadLittle(bytes: Bytes) returns (value: nat)
    ensures value == LittleValue(bytes)
  {
    value := 0;
    var unit, i := 1, 0;
    while i < |bytes|
      invariant 0 <= i <= |bytes| && unit == Power(i) && value + unit * LittleValue(bytes[i..]) == LittleValue(bytes)
    {
      assert bytes[i..][1..] == bytes[i + 1..];
      Spread(unit, bytes[i], LittleValue(bytes[i + 1..]));
      value := value + bytes[i] * unit;
      unit := 256 * unit;
      i := i + 1;
    }
  }

  lemma Spread(unit: nat, byte: nat, rest: nat)
    ensures unit * (byte + 256 * rest) == byte * unit + 256 * unit * rest
  {
  }

  /** The size read from a frame's header is the length of its data, across all field widths. */
  lemma SizeBack(data: Bytes)
    requires |data| < WORD * WORD
    ensures Declared(Frame(data)) == Some(|data|)
  {
    hide Blocks, LittleAt, Holds, Frame, Descriptor, SizeField, ContentSizeWidth, DeclaredSize, SingleSegment, DictionaryWidth;
    FrameParts(data);
    DescriptorFields(|data|);
  }

  // ---------- writing ----------

  method CompressRaw(data: Bytes) returns (out: Bytes)
    ensures out == Frame(data)
    ensures |data| < WORD * WORD ==> Decode(out) == Some(data) && Declared(out) == Some(|data|)
  {
    hide Number, Decode, Declared;
    var size := |data|;
    out := ZSTD_MAGIC;
    if size < 256 {
      out := out + [0x20] + Number(false, size, 1);
    } else if size < 256 + 65536 {
      out := out + [0x60] + Number(false, size - 256, 2);
    } else if size < WORD {
      out := out + [0xA0] + Number(false, size, 4);
    } else {
      out := out + [0xE0] + Number(false, size, 8);
    }
    assert out == ZSTD_MAGIC + FrameHeader(size);
    if |data| < WORD * WORD {
      FrameBack(data);
      SizeBack(data);
    }
    if data == [] {
      EmptyBlock();
      return out + [0x01, 0x00, 0x00];
    }
    var blocks := PushBlocks(data);
    out := out + blocks;
  }

  lemma EmptyBlock()
    ensures Blocks([]) == [0x01, 0x00, 0x00]
  {
    assert Number(false, 1, 3) == [1] + Little(0, 2);
    assert Little(0, 2) == [0] + Little(0, 1) && Little(0, 1) == [0] + Little(0, 0);
  }

  method PushBlocks(data: Bytes) returns (out: Bytes)
    requires data != []
    ensures out == Blocks(data)
  {
    hide BlockHeader;
    out := [];
    var offset := 0;
    while offset < |data|
      invariant 0 <= offset <= |data|
      invariant out + (if offset == |data| then [] else Blocks(data[offset..])) == Blocks(data)
    {
      var size := if |data| - offset < MAX_RAW_BLOCK then |data| - offset else MAX_RAW_BLOCK;
      var last := offset + size == |data|;
      ghost var rest := data[offset..];
      assert rest[..size] == data[offset..offset + size] && rest[size..] == data[offset + size..];
      assert Blocks(rest) == BlockHeader(size, last) + rest[..size] + if last then [] else Blocks(rest[size..]);
      Regrouped(out, BlockHeader(size, last), rest[..size], if last then [] else Blocks(rest[size..]));
      out := out + BlockHeader(size, last) + data[offset..offset + size];
      offset := offset + size;
    }
  }

  lemma Regrouped(out: Bytes, a: Bytes, b: Bytes, c: Bytes)
    ensures out + (a + b + c) == (out + a + b) + c
  {
  }
}
