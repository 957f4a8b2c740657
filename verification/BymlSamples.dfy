/** Small documents, byte by byte, in both byte orders. */
module BymlSamples {
  import opened Documents
  import opened BymlFormat
  import opened BymlTables
  import opened BymlDocument

  // ---------- numbers ----------

  lemma One(a: Byte)
    ensures NumberAt(false, [a]) == a && NumberAt(true, [a]) == a
  {
    var none: Bytes := [];
    assert [a][1..] == none && [a][..0] == none;
    assert LittleValue(none) == 0 && BigValue(none) == 0;
  }

  lemma Two(a: Byte, b: Byte)
    ensures NumberAt(false, [a, b]) == a + 256 * b && NumberAt(true, [a, b]) == 256 * a + b
  {
    One(a);
    One(b);
    assert [a, b][1..] == [b] && [a, b][..1] == [a];
  }

  lemma Four(a: Byte, b: Byte, c: Byte, d: Byte)
    ensures NumberAt(false, [a, b, c, d]) == a + 256 * b + 0x1_0000 * c + 0x100_0000 * d
    ensures NumberAt(true, [a, b, c, d]) == 0x100_0000 * a + 0x1_0000 * b + 256 * c + d
  {
    Two(c, d);
    Two(a, b);
    assert [a, b, c, d][1..] == [b, c, d] && [b, c, d][1..] == [c, d];
    assert [a, b, c, d][..3] == [a, b, c] && [a, b, c][..2] == [a, b];
    assert LittleValue([b, c, d]) == b + 256 * LittleValue([c, d]);
    assert LittleValue([a, b, c, d]) == a + 256 * LittleValue([b, c, d]);
    assert BigValue([a, b, c]) == 256 * BigValue([a, b]) + c;
    assert BigValue([a, b, c, d]) == 256 * BigValue([a, b, c]) + d;
  }

  function Word(big: bool, a: nat, b: nat, c: nat, d: nat): nat {
    if big then 0x100_0000 * a + 0x1_0000 * b + 256 * c + d else a + 256 * b + 0x1_0000 * c + 0x100_0000 * d
  }

  lemma WordAt(data: Bytes, big: bool, at: nat, a: Byte, b: Byte, c: Byte, d: Byte)
    requires at + 4 <= |data| && data[at] == a && data[at + 1] == b && data[at + 2] == c && data[at + 3] == d
    ensures Reader(data, big, [], []).Number(at, 4)
            == Some(Word(big, a, b, c, d))
  {
    assert data[at..at + 4] == [a, b, c, d];
    Four(a, b, c, d);
  }

  // ---------- an array of one element ----------

  /** What comes before the word in the slot of an array of one element. */
  function Front(big: bool, type_: Byte): (front: Bytes)
    ensures |front| == 24
  {
    if big then [0x42, 0x59, 0, 7, 0, 0, 0, 0, 0, 0, 0, 0, 0, 0, 0, 16, 0xC0, 0, 0, 1, type_, 0, 0, 0]
    else [0x59, 0x42, 7, 0, 0, 0, 0, 0, 0, 0, 0, 0, 16, 0, 0, 0, 0xC0, 1, 0, 0, type_, 0, 0, 0]
  }

  /** A document that is an array of one element: its type, the word in its slot, and what may be behind it. */
  function Sample(big: bool, type_: Byte, word: Bytes, more: Bytes): Bytes {
    Front(big, type_) + word + more
  }

  lemma FrontBytes(big: bool, type_: Byte)
    ensures var data := Front(big, type_);
            && data[0] == Magic(big)[0] && data[1] == Magic(big)[1] && data[2] == (if big then 0 else 7) && data[3] == (if big then 7 else 0)
            && (forall i :: 4 <= i < 12 ==> data[i] == 0) && data[13] == 0 && data[14] == 0
            && data[12] == (if big then 0 else 16) && data[15] == (if big then 16 else 0) && data[16] == 0xC0
            && data[17] == (if big then 0 else 1) && data[18] == 0 && data[19] == (if big then 1 else 0) && data[20] == type_
  {
  }

  lemma SampleBytes(big: bool, type_: Byte, word: Bytes, more: Bytes)
    requires |word| == 4
    ensures var data := Sample(big, type_, word, more);
            && |data| == 28 + |more| && data[..24] == Front(big, type_) && data[24..28] == word && data[28..] == more
            && (forall i :: 0 <= i < 24 ==> data[i] == Front(big, type_)[i])
  {
    hide Front;
    var data := Sample(big, type_, word, more);
    assert data[..24] == Front(big, type_) && data[24..28] == word && data[28..] == more;
  }

  lemma OneElement(big: bool, type_: Byte, word: Bytes, more: Bytes)
    requires |word| == 4
    ensures var data := Sample(big, type_, word, more);
            Parse(data) == match Reader(data, big, [], []).Node(type_, NumberAt(big, word), 1)
                           case None => None
                           case Some(node) => Some((Array([node]), Format(7, big)))
  {
    hide NumberAt, Reader.Node, Reader.ArrayAt, Front, Sample;
    var data := Sample(big, type_, word, more);
    SampleBytes(big, type_, word, more);
    FrontBytes(big, type_);
    assert data[..2] == [data[0], data[1]] == Magic(big);
    var reader := Reader(data, big, [], []);
    Two(data[2], data[3]);
    assert data[2..4] == [data[2], data[3]];
    assert reader.Number(2, 2) == Some(7);
    WordAt(data, big, 4, 0, 0, 0, 0);
    WordAt(data, big, 8, 0, 0, 0, 0);
    WordAt(data, big, 12, data[12], 0, 0, data[15]);
    ArrayOfOne(data, big, type_, word);
    RootIsArray(data, big);
  }

  lemma RootIsArray(data: Bytes, big: bool)
    requires |data| > 16 && data[16] == 0xC0
    ensures Reader(data, big, [], []).Node(data[16], 16, 0) == Reader(data, big, [], []).ArrayAt(16, 0)
  {
  }

  lemma ArrayOfOne(data: Bytes, big: bool, type_: Byte, word: Bytes)
    requires |data| >= 28 && |word| == 4 && data[24..28] == word && data[20] == type_
    requires data[16] == 0xC0 && data[17] == (if big then 0 else 1) && data[18] == 0 && data[19] == if big then 1 else 0
    ensures var reader := Reader(data, big, [], []);
            reader.ArrayAt(16, 0) == match reader.Node(type_, NumberAt(big, word), 1) case None => None case Some(node) => Some(Array([node]))
  {
    hide NumberAt, Reader.Node;
    var reader := Reader(data, big, [], []);
    WordAt(data, big, 16, 0xC0, data[17], 0, data[19]);
    assert reader.Count(16, ARRAY) == Some(1);
    assert reader.Number(24, 4) == Some(NumberAt(big, word));
    assert reader.Items(21, 28, 0, 0) == Some([]);
    assert reader.Items(20, 24, 1, 0) == match reader.Node(type_, NumberAt(big, word), 1) case None => None case Some(node) => Some([node] + []);
    assert forall node: Byml :: [node] + [] == [node];
  }

  /** The document an element is in. */
  function Only(big: bool, node: Byml): Option<(Byml, Format)> { Some((Array([node]), Format(7, big))) }

  /** The types whose value is in the slot. */
  lemma InlineSamples()
    ensures Parse(Sample(false, 0xD0, [1, 0, 0, 0], [])) == Only(false, Leaf(Bool(true)))
    ensures Parse(Sample(true, 0xD0, [0, 0, 0, 1], [])) == Only(true, Leaf(Bool(true)))
    ensures Parse(Sample(false, 0xD1, [0xFE, 0xFF, 0xFF, 0xFF], [])) == Only(false, Leaf(Int(-2)))
    ensures Parse(Sample(true, 0xD1, [0xFF, 0xFF, 0xFF, 0xFE], [])) == Only(true, Leaf(Int(-2)))
    ensures Parse(Sample(false, 0xD2, [0, 0, 0x80, 0x3F], [])) == Only(false, Leaf(Float(0x3F80_0000)))
    ensures Parse(Sample(true, 0xD2, [0x3F, 0x80, 0, 0], [])) == Only(true, Leaf(Float(0x3F80_0000)))
    ensures Parse(Sample(false, 0xD3, [4, 3, 2, 1], [])) == Only(false, Leaf(UInt32(0x0102_0304)))
    ensures Parse(Sample(true, 0xD3, [1, 2, 3, 4], [])) == Only(true, Leaf(UInt32(0x0102_0304)))
    ensures Parse(Sample(false, 0xFF, [0, 0, 0, 0], [])) == Only(false, Leaf(Null))
    ensures Parse(Sample(true, 0xFF, [0, 0, 0, 0], [])) == Only(true, Leaf(Null))
    ensures Parse(Sample(false, 0xFE, [2, 0, 0, 0], [])) == Only(false, Marker(Remove))
    ensures Parse(Sample(true, 0xFE, [0, 0, 0, 2], [])) == Only(true, Marker(Remove))
  {
    hide Sample, NumberAt, Parse;
    InlineSample(0xD0, 0, 0, 0, 1);
    InlineSample(0xD1, 0xFF, 0xFF, 0xFF, 0xFE);
    InlineSample(0xD2, 0x3F, 0x80, 0, 0);
    InlineSample(0xD3, 1, 2, 3, 4);
    InlineSample(0xFF, 0, 0, 0, 0);
    InlineSample(0xFE, 0, 0, 0, 2);
  }

  /** What a slot's word says for each of those types. */
  function InSlot(type_: Byte, v: nat): Option<Byml> {
    if type_ == 0xFF then Some(Leaf(Null))
    else if type_ == 0xD0 then Some(Leaf(Bool(v != 0)))
    else if type_ == 0xD1 then Some(Leaf(Int(if v < 0x8000_0000 then v else v - 0x1_0000_0000)))
    else if type_ == 0xD2 then Some(Leaf(Float(v)))
    else if type_ == 0xD3 then Some(Leaf(UInt32(v)))
    else if type_ == 0xFE then (if v == 0 then Some(Marker(Add)) else if v == 1 then Some(Marker(Edit)) else if v == 2 then Some(Marker(Remove)) else None)
    else None
  }

  lemma InlineSample(type_: Byte, a: Byte, b: Byte, c: Byte, d: Byte)
    requires type_ in [0xFF, 0xD0, 0xD1, 0xD2, 0xD3, 0xFE]
    ensures var v := 0x100_0000 * a + 0x1_0000 * b + 256 * c + d;
            var element := InSlot(type_, v);
            && Parse(Sample(true, type_, [a, b, c, d], [])) == (if element.Some? then Only(true, element.value) else None)
            && Parse(Sample(false, type_, [d, c, b, a], [])) == (if element.Some? then Only(false, element.value) else None)
  {
    hide Sample, NumberAt, Parse;
    OneElement(true, type_, [a, b, c, d], []);
    OneElement(false, type_, [d, c, b, a], []);
    Four(a, b, c, d);
    Four(d, c, b, a);
  }

  // ---------- elements behind the array ----------

  lemma Eight(a: Byte, b: Byte, c: Byte, d: Byte, e: Byte, f: Byte, g: Byte, h: Byte)
    ensures NumberAt(false, [h, g, f, e, d, c, b, a]) == NumberAt(true, [a, b, c, d, e, f, g, h])
            == 0x1_0000_0000 * (0x100_0000 * a + 0x1_0000 * b + 256 * c + d) + 0x100_0000 * e + 0x1_0000 * f + 256 * g + h
  {
    Four(a, b, c, d);
    Four(d, c, b, a);
    assert [a, b, c, d, e, f, g, h][..7] == [a, b, c, d, e, f, g] && [a, b, c, d, e, f, g][..6] == [a, b, c, d, e, f];
    assert [a, b, c, d, e, f][..5] == [a, b, c, d, e] && [a, b, c, d, e][..4] == [a, b, c, d];
    assert BigValue([a, b, c, d, e]) == 256 * BigValue([a, b, c, d]) + e;
    assert BigValue([a, b, c, d, e, f]) == 256 * BigValue([a, b, c, d, e]) + f;
    assert BigValue([a, b, c, d, e, f, g]) == 256 * BigValue([a, b, c, d, e, f]) + g;
    assert [h, g, f, e, d, c, b, a][1..] == [g, f, e, d, c, b, a] && [g, f, e, d, c, b, a][1..] == [f, e, d, c, b, a];
    assert [f, e, d, c, b, a][1..] == [e, d, c, b, a] && [e, d, c, b, a][1..] == [d, c, b, a];
    assert LittleValue([e, d, c, b, a]) == e + 256 * LittleValue([d, c, b, a]);
    assert LittleValue([f, e, d, c, b, a]) == f + 256 * LittleValue([e, d, c, b, a]);
    assert LittleValue([g, f, e, d, c, b, a]) == g + 256 * LittleValue([f, e, d, c, b, a]);
  }

  /** The word in the slot says the element is right behind the array. */
  function Behind(big: bool): (word: Bytes)
    ensures |word| == 4
  {
    if big then [0, 0, 0, 28] else [28, 0, 0, 0]
  }

  lemma BehindIs(big: bool)
    ensures NumberAt(big, Behind(big)) == 28
  {
    Four(0, 0, 0, 28);
    Four(28, 0, 0, 0);
  }

  /** An element behind the array is read at its offset. */
  lemma BehindRead(big: bool, type_: Byte, more: Bytes)
    ensures var data := Sample(big, type_, Behind(big), more);
            && |data| == 28 + |more| && data[28..] == more
            && Parse(data) == match Reader(data, big, [], []).Node(type_, 28, 1) case None => None case Some(node) => Only(big, node)
  {
    hide Sample, NumberAt, Parse, Reader.Node;
    OneElement(big, type_, Behind(big), more);
    BehindIs(big);
    SampleBytes(big, type_, Behind(big), more);
  }

  /** A word behind the array. */
  lemma WordBehind(data: Bytes, big: bool, more: Bytes, k: nat)
    requires |data| == 28 + |more| && data[28..] == more && k + 4 <= |more|
    ensures Reader(data, big, [], []).Number(28 + k, 4)
            == Some(Word(big, more[k], more[k + 1], more[k + 2], more[k + 3]))
  {
    assert data[28..][k] == data[28 + k] && data[28..][k + 1] == data[28 + k + 1] && data[28..][k + 2] == data[28 + k + 2]
           && data[28..][k + 3] == data[28 + k + 3];
    WordAt(data, big, 28 + k, more[k], more[k + 1], more[k + 2], more[k + 3]);
  }

  lemma BytesBehind(data: Bytes, big: bool, more: Bytes, k: nat, bytes: seq<nat>)
    requires |data| == 28 + |more| && data[28..] == more && |more| == k + 2 && bytes == [more[k] as nat, more[k + 1] as nat]
    ensures Reader(data, big, [], []).Slice(28 + k, 2) == Some(bytes)
  {
    assert data[28..][k] == data[28 + k] && data[28..][k + 1] == data[28 + k + 1];
    assert seq(2, i requires 0 <= i < 2 => data[28 + k + i] as nat) == bytes;
  }

  function Wide(type_: Byte, v: nat): Option<Byml> {
    if type_ == 0xD4 then Some(Leaf(Int64(if v < 0x8000_0000_0000_0000 then v else v - 0x1_0000_0000_0000_0000)))
    else if type_ == 0xD5 then Some(Leaf(UInt64(v)))
    else if type_ == 0xD6 then Some(Leaf(Double(v)))
    else None
  }

  /** Wide numbers, highest byte first and lowest first. */
  lemma WideSample(type_: Byte, a: Byte, b: Byte, c: Byte, d: Byte, e: Byte, f: Byte, g: Byte, h: Byte)
    requires type_ in [0xD4, 0xD5, 0xD6]
    ensures var v := 0x1_0000_0000 * (0x100_0000 * a + 0x1_0000 * b + 256 * c + d) + 0x100_0000 * e + 0x1_0000 * f + 256 * g + h;
            && Parse(Sample(true, type_, [0, 0, 0, 28], [a, b, c, d, e, f, g, h])) == Only(true, Wide(type_, v).value)
            && Parse(Sample(false, type_, [28, 0, 0, 0], [h, g, f, e, d, c, b, a])) == Only(false, Wide(type_, v).value)
  {
    hide Sample, NumberAt, Parse;
    var high, low := [a, b, c, d, e, f, g, h], [h, g, f, e, d, c, b, a];
    BehindRead(true, type_, high);
    BehindRead(false, type_, low);
    Eight(a, b, c, d, e, f, g, h);
    assert Sample(true, type_, Behind(true), high)[28..36] == high;
    assert Sample(false, type_, Behind(false), low)[28..36] == low;
  }

  /** Binary: its size and then its bytes; aligned binary has its alignment between them. */
  lemma BinarySamples()
    ensures Parse(Sample(false, 0xA1, [28, 0, 0, 0], [2, 0, 0, 0, 7, 9])) == Only(false, Leaf(Binary([7, 9])))
    ensures Parse(Sample(true, 0xA1, [0, 0, 0, 28], [0, 0, 0, 2, 7, 9])) == Only(true, Leaf(Binary([7, 9])))
    ensures Parse(Sample(false, 0xA2, [28, 0, 0, 0], [2, 0, 0, 0, 8, 0, 0, 0, 7, 9])) == Only(false, Leaf(BinaryAligned([7, 9], 8)))
    ensures Parse(Sample(true, 0xA2, [0, 0, 0, 28], [0, 0, 0, 2, 0, 0, 0, 8, 7, 9])) == Only(true, Leaf(BinaryAligned([7, 9], 8)))
  {
    hide Sample, Parse, NumberAt;
    BinarySample(false, [2, 0, 0, 0]);
    BinarySample(true, [0, 0, 0, 2]);
    AlignedSample(false, [2, 0, 0, 0], [8, 0, 0, 0]);
    AlignedSample(true, [0, 0, 0, 2], [0, 0, 0, 8]);
    assert [2, 0, 0, 0] + [7, 9] == [2, 0, 0, 0, 7, 9] && [0, 0, 0, 2] + [7, 9] == [0, 0, 0, 2, 7, 9];
    assert [2, 0, 0, 0] + [8, 0, 0, 0] + [7, 9] == [2, 0, 0, 0, 8, 0, 0, 0, 7, 9];
    assert [0, 0, 0, 2] + [0, 0, 0, 8] + [7, 9] == [0, 0, 0, 2, 0, 0, 0, 8, 7, 9];
  }

  lemma BinarySample(big: bool, size: Bytes)
    requires size == if big then [0, 0, 0, 2] else [2, 0, 0, 0]
    ensures Parse(Sample(big, 0xA1, Behind(big), size + [7, 9])) == Only(big, Leaf(Binary([7, 9])))
  {
    hide Sample, Parse, NumberAt;
    var data := Sample(big, 0xA1, Behind(big), size + [7, 9]);
    BehindRead(big, 0xA1, size + [7, 9]);
    WordBehind(data, big, size + [7, 9], 0);
    BytesBehind(data, big, size + [7, 9], 4, [7, 9]);
  }

  lemma AlignedSample(big: bool, size: Bytes, alignment: Bytes)
    requires size == (if big then [0, 0, 0, 2] else [2, 0, 0, 0]) && alignment == if big then [0, 0, 0, 8] else [8, 0, 0, 0]
    ensures Parse(Sample(big, 0xA2, Behind(big), size + alignment + [7, 9])) == Only(big, Leaf(BinaryAligned([7, 9], 8)))
  {
    hide Sample, Parse, NumberAt;
    var data := Sample(big, 0xA2, Behind(big), size + alignment + [7, 9]);
    BehindRead(big, 0xA2, size + alignment + [7, 9]);
    WordBehind(data, big, size + alignment + [7, 9], 0);
    WordBehind(data, big, size + alignment + [7, 9], 4);
    BytesBehind(data, big, size + alignment + [7, 9], 8, [7, 9]);
  }

  /** Containers with nothing in them. */
  lemma EmptySample(big: bool, type_: Byte)
    requires type_ in [0xC0, 0xC1, 0x20, 0x21, 0xFD]
    ensures Parse(Sample(big, type_, Behind(big), [type_, 0, 0, 0]))
            == Only(big, if type_ == 0xC0 then Array([]) else if type_ == 0xC1 then Map(Named, map[]) else if type_ == 0x20 then Map(Hashed32, map[])
                         else if type_ == 0x21 then Map(Hashed64, map[]) else ArrayLog([]))
  {
    hide Sample, Parse, NumberAt;
    var data := Sample(big, type_, Behind(big), [type_, 0, 0, 0]);
    BehindRead(big, type_, [type_, 0, 0, 0]);
    WordBehind(data, big, [type_, 0, 0, 0], 0);
    assert Reader(data, big, [], []).Count(28, type_) == Some(0);
  }

  function HashedBytes(big: bool): (bytes: Bytes)
    ensures |bytes| == 16
  {
    if big then [0x20, 0, 0, 1, 1, 2, 3, 4, 0, 0, 0, 5, 0xD3, 0, 0, 0] else [0x20, 1, 0, 0, 4, 3, 2, 1, 5, 0, 0, 0, 0xD3, 0, 0, 0]
  }

  lemma HashedValues(big: bool)
    ensures var more := HashedBytes(big);
            && Word(big, more[0], more[1], more[2], more[3]) == (if big then 0x2000_0001 else 0x120)
            && Word(big, more[4], more[5], more[6], more[7]) == 0x0102_0304 && Word(big, more[8], more[9], more[10], more[11]) == 5
            && more[12] == 0xD3
  {
  }

  lemma HashedWords(data: Bytes, big: bool)
    requires |data| == 44 && data[28..] == HashedBytes(big)
    ensures var reader := Reader(data, big, [], []);
            && reader.Number(28, 4) == Some(if big then 0x2000_0001 else 0x120) && reader.Number(32, 4) == Some(0x0102_0304)
            && reader.Number(36, 4) == Some(5) && data[40] == 0xD3
  {
    hide NumberAt, HashedBytes, Word;
    HashedValues(big);
    WordBehind(data, big, HashedBytes(big), 0);
    WordBehind(data, big, HashedBytes(big), 4);
    WordBehind(data, big, HashedBytes(big), 8);
    assert data[28..][12] == data[40];
  }

  /** A map by 32 bit hash: hashes and slots, then types. */
  lemma HashedSample(big: bool)
    ensures Parse(Sample(big, 0x20, Behind(big), HashedBytes(big))) == Only(big, Map(Hashed32, map[Hash(0x0102_0304) := Leaf(UInt32(5))]))
  {
    hide Sample, Parse, NumberAt, HashedBytes, Reader.Number, Reader.HashedEntries;
    var data := Sample(big, 0x20, Behind(big), HashedBytes(big));
    var reader := Reader(data, big, [], []);
    BehindRead(big, 0x20, HashedBytes(big));
    HashedWords(data, big);
    assert reader.Count(28, HASH_MAP32) == Some(1);
    assert reader.Node(0xD3, 5, 2) == Some(Leaf(UInt32(5)));
    OneHashed(reader, 32, 40, map[][Hash(0x0102_0304) := Leaf(UInt32(5))]);
  }

  lemma OneHashed(reader: Reader, at: nat, types: nat, entries: map<Key, Byml>)
    requires reader.Number(at, 4) == Some(0x0102_0304) && reader.Number(at + 4, 4) == Some(5) && reader.Byte(types) == Some(0xD3)
    requires reader.Node(0xD3, 5, 2) == Some(Leaf(UInt32(5))) && entries == map[][Hash(0x0102_0304) := Leaf(UInt32(5))]
    ensures reader.HashedEntries(at, 4, types, 1, 1, map[]) == Some(entries)
  {
    hide NumberAt, Reader.Node, Reader.Number;
    assert reader.HashedEntries(at + 8, 4, types + 1, 0, 1, entries) == Some(entries);
  }

  function LogBytes(big: bool): (bytes: Bytes)
    ensures |bytes| == 28
  {
    if big then [0xFD, 0, 0, 1, 0, 0, 0, 3, 0, 0, 0, 1, 0, 0, 0, 5, 0, 0, 0, 7, 0, 0, 0, 0, 0xD1, 0xD3, 0, 0]
    else [0xFD, 1, 0, 0, 3, 0, 0, 0, 1, 0, 0, 0, 5, 0, 0, 0, 7, 0, 0, 0, 0, 0, 0, 0, 0xD1, 0xD3, 0, 0]
  }

  lemma LogValues(big: bool)
    ensures var more := LogBytes(big);
            && Word(big, more[0], more[1], more[2], more[3]) == (if big then 0xFD00_0001 else 0x1FD)
            && Word(big, more[4], more[5], more[6], more[7]) == 3 && Word(big, more[8], more[9], more[10], more[11]) == 1
  {
  }

  lemma LogRest(big: bool)
    ensures var more := LogBytes(big);
            && Word(big, more[12], more[13], more[14], more[15]) == 5 && Word(big, more[16], more[17], more[18], more[19]) == 7
            && more[24] == 0xD1 && more[25] == 0xD3 && more[26] == 0
  {
  }

  lemma LogWords(data: Bytes, big: bool)
    requires |data| == 56 && data[28..] == LogBytes(big)
    ensures var reader := Reader(data, big, [], []);
            && reader.Number(28, 4) == Some(if big then 0xFD00_0001 else 0x1FD) && reader.Number(32, 4) == Some(3)
            && reader.Number(36, 4) == Some(1) && reader.Number(40, 4) == Some(5) && reader.Number(44, 4) == Some(7)
            && data[52] == 0xD1 && data[53] == 0xD3 && data[54] == 0
  {
    hide NumberAt, LogBytes, Word;
    LogValues(big);
    LogRest(big);
    WordBehind(data, big, LogBytes(big), 0);
    WordBehind(data, big, LogBytes(big), 4);
    WordBehind(data, big, LogBytes(big), 8);
    WordBehind(data, big, LogBytes(big), 12);
    WordBehind(data, big, LogBytes(big), 16);
    assert data[28..][24] == data[52] && data[28..][25] == data[53] && data[28..][26] == data[54];
  }

  /** A list of array changes: index, kind, node and keys of each, then types. */
  lemma LogSample(big: bool)
    ensures Parse(Sample(big, 0xFD, Behind(big), LogBytes(big)))
            == Only(big, ArrayLog([ArrayChange(3, Edit, Leaf(Int(5)), RowKey(Some(Leaf(UInt32(7))), None))]))
  {
    hide Sample, Parse, NumberAt, LogBytes, Reader.Number, Reader.Changes;
    var data := Sample(big, 0xFD, Behind(big), LogBytes(big));
    var reader := Reader(data, big, [], []);
    BehindRead(big, 0xFD, LogBytes(big));
    LogWords(data, big);
    assert reader.Count(28, ARRAY_CHANGELOG) == Some(1);
    OneChange(reader);
  }

  lemma OneChange(reader: Reader)
    requires |reader.data| == 56 && reader.data[52] == 0xD1 && reader.data[53] == 0xD3 && reader.data[54] == 0
    requires reader.Number(32, 4) == Some(3) && reader.Number(36, 4) == Some(1) && reader.Number(40, 4) == Some(5) && reader.Number(44, 4) == Some(7)
    ensures reader.Changes(32, 52, 1, 1) == Some([ArrayChange(3, Edit, Leaf(Int(5)), RowKey(Some(Leaf(UInt32(7))), None))])
  {
    hide NumberAt, Reader.Number;
    var change := ArrayChange(3, Edit, Leaf(Int(5)), RowKey(Some(Leaf(UInt32(7))), None));
    assert reader.KeyAt(0xD3, 44, 1) == Some(Some(Leaf(UInt32(7))));
    assert reader.KeyAt(0, 48, 1) == Some(None);
    assert reader.Node(0xD1, 5, 2) == Some(Leaf(Int(5)));
    assert reader.ChangeAt(32, 52, 1) == Some(change);
    assert reader.Changes(52, 56, 0, 1) == Some([]);
    assert [change] + [] == [change];
  }

  // ---------- names and texts ----------

  /** A table of one text of one letter. */
  function OneText(big: bool, letter: Byte): (bytes: Bytes)
    ensures |bytes| == 16
  {
    (if big then [0xC2, 0, 0, 1, 0, 0, 0, 12, 0, 0, 0, 14] else [0xC2, 1, 0, 0, 12, 0, 0, 0, 14, 0, 0, 0]) + [letter, 0, 0, 0]
  }

  function NamedHead(big: bool): (bytes: Bytes)
    ensures |bytes| == 16
  {
    if big then [0x42, 0x59, 0, 7, 0, 0, 0, 16, 0, 0, 0, 32, 0, 0, 0, 48] else [0x59, 0x42, 7, 0, 16, 0, 0, 0, 32, 0, 0, 0, 48, 0, 0, 0]
  }

  function NamedTail(big: bool): (bytes: Bytes)
    ensures |bytes| == 12
  {
    if big then [0xC1, 0, 0, 1, 0, 0, 0, 0xA0, 0, 0, 0, 0] else [0xC1, 1, 0, 0, 0, 0, 0, 0xA0, 0, 0, 0, 0]
  }

  /** A map by name with a text in it: header, names, texts, map. */
  function NamedBytes(big: bool): (bytes: Bytes)
    ensures |bytes| == 60
  {
    NamedHead(big) + OneText(big, 'k' as Byte) + OneText(big, 's' as Byte) + NamedTail(big)
  }

  lemma TextTable(data: Bytes, big: bool, at: nat, letter: Byte)
    requires 0 < at && at + 16 <= |data| && data[at..at + 16] == OneText(big, letter) && letter != 0
    ensures ReadTable(data, big, at) == Some([[letter as char]])
  {
    hide NumberAt;
    var table := data[at..at + 16];
    assert forall i :: 0 <= i < 16 ==> data[at + i] == table[i];
    TableWords(data, big, at, letter);
    var text := data[at + 12..at + 14];
    assert text == [letter, 0];
    OneLetter(letter);
    assert ReadText(data, big, at, at + 4) == Some([letter as char]);
    assert ReadTexts(data, big, at, at + 8, 0) == Some([]);
    assert [[letter as char]] + [] == [[letter as char]];
  }

  lemma OneTextValues(big: bool, letter: Byte)
    ensures var table := OneText(big, letter);
            && Word(big, table[0], table[1], table[2], table[3]) == (if big then 0xC200_0001 else 0x1C2)
            && Word(big, table[4], table[5], table[6], table[7]) == 12 && Word(big, table[8], table[9], table[10], table[11]) == 14
            && table[12] == letter && table[13] == 0
  {
  }

  lemma TableWords(data: Bytes, big: bool, at: nat, letter: Byte)
    requires at + 16 <= |data| && forall i :: 0 <= i < 16 ==> data[at + i] == OneText(big, letter)[i]
    ensures var reader := Reader(data, big, [], []);
            reader.Count(at, STRING_TABLE) == Some(1) && reader.Number(at + 4, 4) == Some(12) && reader.Number(at + 8, 4) == Some(14)
    ensures data[at + 12] == letter && data[at + 13] == 0
  {
    hide NumberAt, OneText, Word;
    var table := OneText(big, letter);
    OneTextValues(big, letter);
    WordAt(data, big, at, table[0], table[1], table[2], table[3]);
    WordAt(data, big, at + 4, table[4], table[5], table[6], table[7]);
    WordAt(data, big, at + 8, table[8], table[9], table[10], table[11]);
  }

  lemma OneLetter(letter: Byte)
    requires letter != 0
    ensures TextFrom(Stripped([letter, 0])) == [letter as char]
  {
    assert [letter, 0][..1] == [letter];
  }

  lemma NamedParts(big: bool)
    ensures var data := NamedBytes(big);
            && (forall i :: 0 <= i < 16 ==> data[i] == NamedHead(big)[i])
            && data[16..32] == OneText(big, 'k' as Byte) && data[32..48] == OneText(big, 's' as Byte)
            && (forall i :: 0 <= i < 12 ==> data[48 + i] == NamedTail(big)[i])
  {
    hide OneText, NamedHead, NamedTail;
  }

  lemma HeadValues(big: bool)
    ensures var head := NamedHead(big);
            && [head[0], head[1]] == Magic(big) && [head[2], head[3]] == (if big then [0, 7] else [7, 0])
            && Word(big, head[4], head[5], head[6], head[7]) == 16 && Word(big, head[8], head[9], head[10], head[11]) == 32
            && Word(big, head[12], head[13], head[14], head[15]) == 48
  {
  }

  lemma NamedHeader(data: Bytes, big: bool)
    requires |data| == 60 && forall i :: 0 <= i < 16 ==> data[i] == NamedHead(big)[i]
    ensures data[..2] == Magic(big)
    ensures var reader := Reader(data, big, [], []);
            reader.Number(2, 2) == Some(7) && reader.Number(4, 4) == Some(16) && reader.Number(8, 4) == Some(32) && reader.Number(12, 4) == Some(48)
  {
    hide NumberAt, NamedHead, Word;
    var head := NamedHead(big);
    HeadValues(big);
    assert data[2..4] == [head[2], head[3]] && data[..2] == [head[0], head[1]];
    Two(head[2], head[3]);
    WordAt(data, big, 4, head[4], head[5], head[6], head[7]);
    WordAt(data, big, 8, head[8], head[9], head[10], head[11]);
    WordAt(data, big, 12, head[12], head[13], head[14], head[15]);
  }

  lemma TailValues(big: bool)
    ensures var tail := NamedTail(big);
            && tail[0] == 0xC1 && Word(big, tail[0], tail[1], tail[2], tail[3]) == (if big then 0xC100_0001 else 0x1C1)
            && Word(big, tail[4], tail[5], tail[6], tail[7]) == (if big then 0xA0 else 0xA000_0000)
            && Word(big, tail[8], tail[9], tail[10], tail[11]) == 0
  {
  }

  lemma NamedRoot(data: Bytes, big: bool)
    requires |data| == 60 && forall i :: 0 <= i < 12 ==> data[48 + i] == NamedTail(big)[i]
    ensures data[48] == 0xC1
    ensures Reader(data, big, ["k"], ["s"]).NamedAt(48, 0) == Some(Map(Named, map[Name("k") := Leaf(Text("s"))]))
  {
    hide NumberAt, NamedTail, Word, Reader.NamedAt;
    var tail := NamedTail(big);
    TailValues(big);
    assert data[48 + 0] == tail[0];
    WordAt(data, big, 48, tail[0], tail[1], tail[2], tail[3]);
    WordAt(data, big, 52, tail[4], tail[5], tail[6], tail[7]);
    WordAt(data, big, 56, tail[8], tail[9], tail[10], tail[11]);
    SameNumber(data, big, 48);
    SameNumber(data, big, 52);
    SameNumber(data, big, 56);
    OneNamed(Reader(data, big, ["k"], ["s"]));
  }

  lemma SameNumber(data: Bytes, big: bool, at: nat)
    ensures Reader(data, big, ["k"], ["s"]).Number(at, 4) == Reader(data, big, [], []).Number(at, 4)
  {
  }

  lemma OneNamed(reader: Reader)
    requires reader.Number(48, 4) == Some(if reader.big then 0xC100_0001 else 0x1C1)
    requires reader.Number(52, 4) == Some(if reader.big then 0xA0 else 0xA000_0000) && reader.Number(56, 4) == Some(0)
    requires reader.keys == ["k"] && reader.strings == ["s"]
    ensures reader.NamedAt(48, 0) == Some(Map(Named, map[Name("k") := Leaf(Text("s"))]))
  {
    hide NumberAt, Reader.Number;
    var entries := map[][Name("k") := Leaf(Text("s"))];
    assert reader.Count(48, MAP) == Some(1);
    assert reader.KeyAndType(52) == Some((0, 0xA0));
    assert reader.Node(0xA0, 0, 1) == Some(Leaf(Text("s")));
    assert reader.NamedEntries(60, 0, 0, entries) == Some(entries);
    assert reader.NamedEntries(52, 1, 0, map[]) == Some(entries);
  }

  /** A map by name with a text in it. */
  lemma NamedSample(big: bool)
    ensures Parse(NamedBytes(big)) == Some((Map(Named, map[Name("k") := Leaf(Text("s"))]), Format(7, big)))
  {
    hide NamedBytes, OneText, ReadTable, NumberAt, Reader.NamedAt, Reader.Number;
    var data := NamedBytes(big);
    NamedParts(big);
    NamedHeader(data, big);
    NamedRoot(data, big);
    TextTable(data, big, 16, 'k' as Byte);
    TextTable(data, big, 32, 's' as Byte);
    assert ['k'] == "k" && ['s'] == "s";
    assert Reader(data, big, ["k"], ["s"]).Node(0xC1, 48, 0) == Reader(data, big, ["k"], ["s"]).NamedAt(48, 0);
  }
}
