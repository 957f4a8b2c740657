/** A whole document: header, tables, root; written, and read back. */
module BymlDocument {
  import opened Documents
  import opened BymlFormat
  import opened BymlTables
  import opened BymlWriter
  import opened BymlReading
  import opened BymlSharing

  datatype Format = Format(version: nat, big: bool)

  const HEADER_SIZE := 16
  const MAGIC_LITTLE: Bytes := [0x59, 0x42]
  const MAGIC_BIG: Bytes := [0x42, 0x59]

  function Magic(big: bool): Bytes { if big then MAGIC_BIG else MAGIC_LITTLE }

  // ---------- reading ----------

  function Parse(data: Bytes): Option<(Byml, Format)> {
    if |data| < 2 || (data[..2] != MAGIC_LITTLE && data[..2] != MAGIC_BIG) then None
    else
      var big := data[..2] == MAGIC_BIG;
      match Reader(data, big, [], []).Number(2, 2)
      case None => None
      case Some(version) =>
        if version < 2 || version > 7 then None
        else match ParseRoot(data, big)
          case None => None
          case Some(root) => Some((root, Format(version, big)))
  }

  function ParseRoot(data: Bytes, big: bool): Option<Byml> {
    var plain := Reader(data, big, [], []);
    match (plain.Number(4, 4), plain.Number(8, 4), plain.Number(12, 4))
    case (Some(keyTable), Some(stringTable), Some(root)) =>
      (match (ReadTable(data, big, keyTable), ReadTable(data, big, stringTable))
       case (Some(keys), Some(strings)) =>
         if root == 0 then Some(Leaf(Null))
         else if root >= |data| then None
         else Reader(data, big, keys, strings).Node(data[root], root, 0)
       case _ => None)
    case _ => None
  }

  // ---------- the tables of a document ----------

  /** The names of the entries of its maps. */
  function Names(node: Byml): set<string> {
    match node
    case Array(items) => set i, t | 0 <= i < |items| && t in Names(items[i]) :: t
    case Map(kind, entries) =>
      (if kind == Named then set k | k in entries :: TextOf(k) else {}) + set k, t | k in entries && t in Names(entries[k]) :: t
    case ArrayLog(changes) => set i, t | 0 <= i < |changes| && t in RowNames(changes[i]) :: t
    case _ => {}
  }

  function RowNames(change: ArrayChange): set<string> {
    Names(change.node) + KeyNames(change.key.primary) + KeyNames(change.key.secondary)
  }

  function KeyNames(key: Option<Byml>): set<string> { if key.Some? then Names(key.value) else {} }

  /** The texts among its values. */
  function Texts(node: Byml): set<string> {
    match node
    case Leaf(Text(text)) => {text}
    case Array(items) => set i, t | 0 <= i < |items| && t in Texts(items[i]) :: t
    case Map(_, entries) => set k, t | k in entries && t in Texts(entries[k]) :: t
    case ArrayLog(changes) => set i, t | 0 <= i < |changes| && t in RowTexts(changes[i]) :: t
    case _ => {}
  }

  function RowTexts(change: ArrayChange): set<string> {
    Texts(change.node) + KeyTexts(change.key.primary) + KeyTexts(change.key.secondary)
  }

  function KeyTexts(key: Option<Byml>): set<string> { if key.Some? then Texts(key.value) else {} }

  function Indices(table: seq<string>): map<string, nat> {
    if table == [] then map[] else Indices(table[..|table| - 1])[table[|table| - 1] := |table| - 1]
  }

  lemma {:induction false} IndicesBack(table: seq<string>, t: string)
    ensures t in Indices(table) <==> t in table
    ensures t in table ==> Indices(table)[t] < |table| && table[Indices(table)[t]] == t
    decreases |table|
  {
    if table != [] {
      IndicesBack(table[..|table| - 1], t);
      assert table == table[..|table| - 1] + [table[|table| - 1]];
    }
  }

  lemma NumberedByTable(table: seq<string>, limit: nat)
    requires |table| <= limit
    ensures Numbered(Indices(table), table, limit)
  {
    forall t | t in Indices(table)
      ensures Indices(table)[t] < |table| && table[Indices(table)[t]] == t
    {
      IndicesBack(table, t);
    }
  }

  ghost predicate Covers(layout: Layout, names: set<string>, texts: set<string>) {
    (forall t :: t in names ==> t in layout.keys) && forall t :: t in texts ==> t in layout.strings
  }

  lemma {:induction false} Covered(layout: Layout, node: Byml)
    requires Covers(layout, Names(node), Texts(node))
    ensures InTables(layout, node)
  {
    match node
    case Array(items) =>
      forall i | 0 <= i < |items| ensures InTables(layout, items[i]) { Covered(layout, items[i]); }
    case Map(kind, entries) =>
      forall k | k in entries
        ensures (kind == Named ==> TextOf(k) in layout.keys) && InTables(layout, entries[k])
      {
        if kind == Named { assert TextOf(k) in Names(node); }
        Covered(layout, entries[k]);
      }
    case ArrayLog(changes) =>
      forall i | 0 <= i < |changes|
        ensures RowInTables(layout, changes[i])
      {
        CoveredRow(layout, changes[i]);
      }
    case _ =>
  }

  ghost predicate RowInTables(layout: Layout, change: ArrayChange) {
    InTables(layout, change.node) && KeyInTables(layout, change.key.primary) && KeyInTables(layout, change.key.secondary)
  }

  ghost predicate KeyInTables(layout: Layout, key: Option<Byml>) { key.Some? ==> InTables(layout, key.value) }

  lemma {:induction false} CoveredRow(layout: Layout, change: ArrayChange)
    requires Covers(layout, RowNames(change), RowTexts(change))
    ensures RowInTables(layout, change)
  {
    Covered(layout, change.node);
    CoveredKey(layout, change.key.primary);
    CoveredKey(layout, change.key.secondary);
  }

  lemma {:induction false} CoveredKey(layout: Layout, key: Option<Byml>)
    requires Covers(layout, KeyNames(key), KeyTexts(key))
    ensures KeyInTables(layout, key)
  {
    if key.Some? { Covered(layout, key.value); }
  }

  ghost predicate AllPlain(texts: set<string>) { forall t :: t in texts ==> Plain(t) }

  lemma {:induction false} PlainTables(node: Byml, levels: nat)
    requires Fits(node, levels)
    ensures AllPlain(Names(node)) && AllPlain(Texts(node))
  {
    match node
    case Array(items) =>
      forall i | 0 <= i < |items| ensures AllPlain(Names(items[i])) && AllPlain(Texts(items[i])) { PlainTables(items[i], levels - 1); }
    case Map(kind, entries) =>
      forall k | k in entries
        ensures AllPlain(Names(entries[k])) && AllPlain(Texts(entries[k])) && (kind == Named ==> Plain(TextOf(k)))
      {
        PlainTables(entries[k], levels - 1);
        assert KeyFits(kind, k);
      }
    case ArrayLog(changes) =>
      forall i | 0 <= i < |changes| ensures AllPlain(RowNames(changes[i])) && AllPlain(RowTexts(changes[i])) { PlainRow(changes[i], levels - 1); }
    case _ =>
  }

  lemma {:induction false} PlainRow(change: ArrayChange, levels: nat)
    requires Fits(change.node, levels) && (change.key.primary.Some? ==> Fits(change.key.primary.value, levels))
    requires change.key.secondary.Some? ==> Fits(change.key.secondary.value, levels)
    ensures AllPlain(RowNames(change)) && AllPlain(RowTexts(change))
  {
    PlainTables(change.node, levels);
    if change.key.primary.Some? { PlainTables(change.key.primary.value, levels); }
    if change.key.secondary.Some? { PlainTables(change.key.secondary.value, levels); }
  }

  // ---------- the header ----------

  function Head(format: Format, keyTable: nat, stringTable: nat, root: nat): (bytes: Bytes)
    ensures |bytes| == 16
  {
    Magic(format.big) + Number(format.big, format.version, 2) + Number(format.big, keyTable, 4) + Number(format.big, stringTable, 4)
    + Number(format.big, root, 4)
  }

  lemma HeadBack(data: Bytes, format: Format, keyTable: nat, stringTable: nat, root: nat)
    requires Holds(data, 0, Head(format, keyTable, stringTable, root))
    requires format.version < 0x1_0000 && keyTable < WORD && stringTable < WORD && root < WORD
    ensures |data| >= 16 && data[..2] == Magic(format.big)
    ensures var reader := Reader(data, format.big, [], []);
            reader.Number(2, 2) == Some(format.version) && reader.Number(4, 4) == Some(keyTable)
            && reader.Number(8, 4) == Some(stringTable) && reader.Number(12, 4) == Some(root)
  {
    hide Number, NumberAt, Reader.Number;
    var big := format.big;
    var a, b, c, d, e := Magic(big), Number(big, format.version, 2), Number(big, keyTable, 4), Number(big, stringTable, 4), Number(big, root, 4);
    HoldsSplit(data, 0, a + b + c + d, e);
    HoldsFour(data, 0, a, b, c, d);
    HoldsSplit(data, 0, a + b + c, d);
    Powers();
    NumberHeld(data, big, [], [], 2, format.version, 2);
    NumberHeld(data, big, [], [], 4, keyTable, 4);
    NumberHeld(data, big, [], [], 8, stringTable, 4);
    NumberHeld(data, big, [], [], 12, root, 4);
  }

  /** The first byte of a container is its type, in either byte order. */
  lemma TypeFirst(big: bool, type_: Byte, count: nat)
    requires count < COUNTS
    ensures Header(big, type_, count)[0] == type_
  {
    hide Big, Little;
    if big {
      BigFirst(type_ * 0x100_0000 + count, type_, count);
    } else {
      LittleFirst(count * 256 + type_, type_, count);
    }
  }

  lemma LittleFirst(v: nat, type_: Byte, count: nat)
    requires v == count * 256 + type_
    ensures Little(v, 4)[0] == type_
  {
  }

  lemma BigFirst(v: nat, type_: Byte, count: nat)
    requires v == type_ * 0x100_0000 + count && count < COUNTS
    ensures Big(v, 4)[0] == type_
  {
    var a := v / 256;
    var b := a / 256;
    assert a == type_ * 0x1_0000 + count / 256;
    assert b == type_ * 256 + count / 256 / 256;
    assert b / 256 == type_;
    assert Big(v, 4)[..3] == Big(a, 3) && Big(a, 3)[..2] == Big(b, 2) && Big(b, 2)[..1] == Big(b / 256, 1);
    assert Big(b / 256, 1) == [type_ % 256];
  }

  lemma RootType(layout: Layout, reader: Reader, offsets: Offsets, root: Byml, at: nat)
    requires Opened(layout, reader, offsets) && Readable(layout, root, 0) && root.IsContainer() && ContentAt(layout, reader.data, {}, offsets, root, at)
    ensures at < |reader.data| && reader.data[at] == NodeType(root)
  {
    hide Header, Filled, Template, AllWritten, ContentAt, FilledPiece, Number, Numbered, Ordered;
    BodyFilled(layout, reader, offsets, root, at);
    var header := Header(layout.big, NodeType(root), Count(root));
    TemplateHead(layout, root);
    var pieces := Template(layout, root);
    FilledFirst(layout, pieces, offsets, reader.data, at);
    RawPiece(layout, header, offsets);
    TypeFirst(layout.big, NodeType(root), Count(root));
    assert reader.data[at..at + 4][0] == reader.data[at];
  }

  function Count(node: Byml): nat {
    match node
    case Array(items) => |items|
    case Map(_, entries) => |entries|
    case ArrayLog(changes) => |changes|
    case _ => 0
  }

  lemma TemplateHead(layout: Layout, node: Byml)
    requires node.IsContainer()
    ensures Template(layout, node) != [] && Template(layout, node)[0] == Raw(Header(layout.big, NodeType(node), Count(node)))
  {
    hide Header, NamedPieces, HashedPieces, LogPieces, Slots, Types, LogTypes, Padding;
  }

  // ---------- writing ----------

  /** Within the format's limits. */
  predicate Within(root: Byml, format: Format) {
    Fits(root, MAX_DEPTH) && |Names(root)| < COUNTS && |Texts(root)| < COUNTS && 2 <= format.version <= 7
  }

  predicate Storable(root: Byml, format: Format) { root.IsContainer() && Within(root, format) }

  /** A binary root or one that is a wide number. */
  predicate IsSpecial(root: Byml) { root.Leaf? && !Inline(root) }

  /** The first byte a binary or wide number root is written with: of its length, or of the number. */
  function FirstByte(big: bool, root: Byml): Byte
    requires IsSpecial(root)
  {
    match root.value
    case Binary(bytes) => FirstOf(big, |bytes|, 4)
    case BinaryAligned(bytes, _) => FirstOf(big, |bytes|, 4)
    case Int64(v) => FirstOf(big, if -WORD * WORD <= v then Unsigned(v, WORD * WORD) else 0, 8)
    case UInt64(v) => FirstOf(big, v, 8)
    case Double(bits) => FirstOf(big, bits, 8)
  }

  function FirstOf(big: bool, v: nat, n: nat): Byte
    requires n > 0
  {
    Number(big, v, n)[0]
  }

  /** The documents that come back: a container, whose first byte is its type, or anything else that happens to start with
      its own type. */
  predicate ReadsBack(root: Byml, big: bool) {
    root.IsContainer() || (IsSpecial(root) && FirstByte(big, root) == NodeType(root))
  }

  /** A finished file: header, tables and root where they should be, every other node at its offset. */
  ghost predicate Finished(layout: Layout, out: Bytes, format: Format, keys: seq<string>, strings: seq<string>, offsets: Offsets, root: Byml,
                           keyTable: nat, stringTable: nat, rootAt: nat) {
    && layout.big == format.big && Holds(out, 0, Head(format, keyTable, stringTable, rootAt))
    && TableThere(out, format.big, keyTable, keys) && TableThere(out, format.big, stringTable, strings)
    && AllWritten(layout, out, {}, offsets) && rootAt > 0
    && (root.IsContainer() ==> ContentAt(layout, out, {}, offsets, root, rootAt))
    && (IsSpecial(root) ==> Holds(out, rootAt, Special(layout, root)))
    && (Inline(root) ==> rootAt == |out|)
  }

  ghost predicate TableThere(out: Bytes, big: bool, at: nat, texts: seq<string>) {
    if texts == [] then at == 0 else at > 0 && Holds(out, at, Table(big, texts))
  }

  /** What was written is what is parsed. */
  lemma ParseBack(layout: Layout, out: Bytes, format: Format, keys: seq<string>, strings: seq<string>, offsets: Offsets, root: Byml,
                  keyTable: nat, stringTable: nat, rootAt: nat)
    requires Finished(layout, out, format, keys, strings, offsets, root, keyTable, stringTable, rootAt) && |out| < WORD && Storable(root, format)
    requires Lists(keys, Names(root)) && Lists(strings, Texts(root)) && Ordered(layout)
    requires layout.keys == Indices(keys) && layout.strings == Indices(strings)
    ensures Parse(out) == Some((root, format))
    ensures Opened(layout, Reader(out, format.big, keys, strings), offsets) && Readable(layout, root, 0)
  {
    hide Number, NumberAt, Reader.Number, Reader.Node, ReadTable, Table, Holds, Header, Names, Texts, Fits, AllWritten, ContentAt, Head;
    var reader := Reader(out, format.big, keys, strings);
    BothTables(out, format.big, keys, strings, root, keyTable, stringTable);
    NumberedByTable(keys, COUNTS);
    NumberedByTable(strings, WORD);
    AllCovered(layout, root, keys, strings);
    RootType(layout, reader, offsets, root, rootAt);
    ContainerBack(layout, reader, offsets, root, rootAt, 0);
    HeadBack(out, format, keyTable, stringTable, rootAt);
  }

  lemma AllCovered(layout: Layout, root: Byml, keys: seq<string>, strings: seq<string>)
    requires Lists(keys, Names(root)) && Lists(strings, Texts(root)) && layout.keys == Indices(keys) && layout.strings == Indices(strings)
    ensures InTables(layout, root)
  {
    hide Names, Texts, Indices;
    forall t ensures t in Names(root) ==> t in layout.keys { IndicesBack(keys, t); }
    forall t ensures t in Texts(root) ==> t in layout.strings { IndicesBack(strings, t); }
    Covered(layout, root);
  }

  lemma BothTables(out: Bytes, big: bool, keys: seq<string>, strings: seq<string>, root: Byml, keyTable: nat, stringTable: nat)
    requires |out| < WORD && Fits(root, MAX_DEPTH) && |Names(root)| < COUNTS && |Texts(root)| < COUNTS
    requires Lists(keys, Names(root)) && Lists(strings, Texts(root))
    requires TableThere(out, big, keyTable, keys) && TableThere(out, big, stringTable, strings)
    ensures ReadTable(out, big, keyTable) == Some(keys) && ReadTable(out, big, stringTable) == Some(strings)
    ensures keyTable < WORD && stringTable < WORD
  {
    hide Names, Texts, Fits, Table, ReadTable, Plain;
    PlainTables(root, MAX_DEPTH);
    forall i | 0 <= i < |keys| ensures Plain(keys[i]) { assert keys[i] in Names(root); }
    forall i | 0 <= i < |strings| ensures Plain(strings[i]) { assert strings[i] in Texts(root); }
    TableBack(out, big, keyTable, keys);
    TableBack(out, big, stringTable, strings);
  }

  /** A document without tables says so in its header. */
  lemma NoTables(layout: Layout, out: Bytes, format: Format, keys: seq<string>, strings: seq<string>, offsets: Offsets, root: Byml,
                 keyTable: nat, stringTable: nat, rootAt: nat)
    requires Finished(layout, out, format, keys, strings, offsets, root, keyTable, stringTable, rootAt) && |out| < WORD && Within(root, format)
    requires Lists(keys, Names(root)) && Lists(strings, Texts(root))
    ensures keyTable < WORD && stringTable < WORD
  {
    hide Names, Texts, Fits, AllWritten, ContentAt, Head, Holds, TableThere;
    BothTables(out, format.big, keys, strings, root, keyTable, stringTable);
  }

  /** A root that would fit in a slot is not written at all, and the file cannot be parsed. */
  lemma InlineLost(layout: Layout, out: Bytes, format: Format, keys: seq<string>, strings: seq<string>, offsets: Offsets, root: Byml,
                   keyTable: nat, stringTable: nat, rootAt: nat)
    requires Finished(layout, out, format, keys, strings, offsets, root, keyTable, stringTable, rootAt) && |out| < WORD && Inline(root)
    requires keyTable < WORD && stringTable < WORD && format.version < 0x1_0000
    ensures Parse(out) == None
  {
    hide Number, NumberAt, Reader.Number, Reader.Node, ReadTable, Table, Holds, Header, AllWritten, ContentAt, Head;
    HeadBack(out, format, keyTable, stringTable, rootAt);
  }

  // ---------- roots that are not containers ----------

  lemma SpecialStarts(layout: Layout, root: Byml)
    requires IsSpecial(root)
    ensures |Special(layout, root)| > 0 && Special(layout, root)[0] == FirstByte(layout.big, root)
  {
    hide Number, AsBytes, Zeros, Padding;
    NotEmpty(layout, root);
  }

  /** A node is read as the type asked for, or as nothing at all. */
  lemma ReadAs(reader: Reader, type_: Byte, at: nat, depth: nat)
    requires reader.Node(type_, at, depth).Some?
    ensures NodeType(reader.Node(type_, at, depth).value) == type_ || reader.Node(type_, at, depth) == Some(Leaf(Null))
  {
    hide Reader.Number, Reader.Slice, Reader.Items, Reader.Count;
  }

  /** A binary or wide number root comes back exactly when its first byte is its type. */
  lemma SpecialRootBackIff(layout: Layout, reader: Reader, root: Byml, at: nat)
    requires IsSpecial(root) && ScalarFits(root.value) && reader.big == layout.big && |reader.data| < WORD
    requires Holds(reader.data, at, Special(layout, root))
    ensures at < |reader.data|
    ensures reader.Node(reader.data[at], at, 0) == Some(root) <==> FirstByte(layout.big, root) == NodeType(root)
  {
    hide Special, Number, Reader.Node, FirstByte;
    SpecialStarts(layout, root);
    assert reader.data[at] == FirstByte(layout.big, root) by { FirstHeld(reader.data, at, Special(layout, root)); }
    SpecialBack(layout, reader, root, at, 0);
    if reader.Node(reader.data[at], at, 0).Some? {
      ReadAs(reader, reader.data[at], at, 0);
    }
  }

  lemma FirstHeld(data: Bytes, at: nat, bytes: Bytes)
    requires Holds(data, at, bytes) && bytes != []
    ensures at < |data| && data[at] == bytes[0]
  {
    assert data[at..at + |bytes|][0] == data[at];
  }

  lemma SpecialParsedIff(layout: Layout, out: Bytes, format: Format, keys: seq<string>, strings: seq<string>, offsets: Offsets, root: Byml,
                         keyTable: nat, stringTable: nat, rootAt: nat)
    requires Finished(layout, out, format, keys, strings, offsets, root, keyTable, stringTable, rootAt) && |out| < WORD
    requires IsSpecial(root) && Within(root, format) && Lists(keys, Names(root)) && Lists(strings, Texts(root))
    ensures Parse(out) == Some((root, format)) <==> FirstByte(format.big, root) == NodeType(root)
  {
    hide Number, NumberAt, Reader.Number, Reader.Node, ReadTable, Table, Holds, Special, Names, Texts, Fits, AllWritten, ContentAt, Head,
         FirstByte;
    BothTables(out, format.big, keys, strings, root, keyTable, stringTable);
    LeafFits(root);
    SpecialRootBackIff(layout, Reader(out, format.big, keys, strings), root, rootAt);
    HeadBack(out, format, keyTable, stringTable, rootAt);
  }

  lemma LeafFits(root: Byml)
    requires root.Leaf? && Fits(root, MAX_DEPTH)
    ensures ScalarFits(root.value)
  {
  }

  /** Any root within the limits comes back exactly when its first byte is its type. */
  lemma ParsedIff(layout: Layout, out: Bytes, format: Format, keys: seq<string>, strings: seq<string>, offsets: Offsets, root: Byml,
                  keyTable: nat, stringTable: nat, rootAt: nat)
    requires Finished(layout, out, format, keys, strings, offsets, root, keyTable, stringTable, rootAt) && |out| < WORD && Within(root, format)
    requires Lists(keys, Names(root)) && Lists(strings, Texts(root)) && Ordered(layout)
    requires layout.keys == Indices(keys) && layout.strings == Indices(strings)
    ensures Parse(out) == Some((root, format)) <==> ReadsBack(root, format.big)
  {
    hide Finished, Parse, Names, Texts, Fits, Indices, FirstByte, TableThere;
    if root.IsContainer() {
      ParseBack(layout, out, format, keys, strings, offsets, root, keyTable, stringTable, rootAt);
    } else if IsSpecial(root) {
      SpecialParsedIff(layout, out, format, keys, strings, offsets, root, keyTable, stringTable, rootAt);
    } else {
      NoTables(layout, out, format, keys, strings, offsets, root, keyTable, stringTable, rootAt);
      InlineLost(layout, out, format, keys, strings, offsets, root, keyTable, stringTable, rootAt);
    }
  }

  /** The number zero as a root, in either byte order, is read back as null. */
  lemma ZeroRootLost(layout: Layout, out: Bytes, format: Format, keys: seq<string>, strings: seq<string>, offsets: Offsets,
                     keyTable: nat, stringTable: nat, rootAt: nat)
    requires var root := Leaf(UInt64(0));
             && Finished(layout, out, format, keys, strings, offsets, root, keyTable, stringTable, rootAt) && |out| < WORD
             && Within(root, format) && Lists(keys, Names(root)) && Lists(strings, Texts(root))
    ensures Parse(out) == Some((Leaf(Null), format))
  {
    hide Number, NumberAt, Reader.Number, ReadTable, Table, Holds, Special, Names, Texts, Fits, AllWritten, ContentAt, Head, FirstByte;
    var root := Leaf(UInt64(0));
    BothTables(out, format.big, keys, strings, root, keyTable, stringTable);
    SpecialStarts(layout, root);
    FirstHeld(out, rootAt, Special(layout, root));
    ZeroStarts(format.big);
    HeadBack(out, format, keyTable, stringTable, rootAt);
  }

  lemma ZeroStarts(big: bool)
    ensures FirstByte(big, Leaf(UInt64(0))) == NONE
  {
    if big {
      FirstOfBig(0, 8);
    }
  }

  /** A wide number that happens to start with its own type comes back. */
  lemma LuckyRootBack()
    ensures ReadsBack(Leaf(Int64(0xD4)), false) && !ReadsBack(Leaf(Int64(0xD4)), true)
  {
    FirstOfBig(0xD4, 8);
  }

  lemma {:induction false} FirstOfBig(v: nat, n: nat)
    requires n > 1 && v < 256
    ensures FirstOf(true, v, n) == 0
  {
    assert v / 256 == 0;
    if n == 2 {
      assert Big(v, 2) == Big(0, 1) + [v % 256] && Big(0, 1) == Big(0, 0) + [0];
    } else {
      FirstOfBig(0, n - 1);
      assert Big(v, n) == Big(0, n - 1) + [v % 256];
    }
  }

  lemma HoldsAfter(out: Bytes, more: Bytes, at: nat, bytes: Bytes)
    requires Holds(out, at, bytes) && at >= 16 && |more| >= |out| && more[16..|out|] == out[16..]
    ensures Holds(more, at, bytes)
  {
    forall i | at <= i < at + |bytes|
      ensures more[i] == out[i]
    {
      assert more[16..|out|][i - 16] == out[16..][i - 16];
    }
    assert more[at..at + |bytes|] == out[at..at + |bytes|];
  }

  lemma FourWords(out: Bytes, a: Bytes, b: Bytes, c: Bytes, d: Bytes)
    requires |out| >= 16 && |a| == |b| == |c| == |d| == 4
    ensures Patched(Patched(Patched(Patched(out, 0, a), 4, b), 8, c), 12, d) == a + b + c + d + out[16..]
  {
    assert Patched(out, 0, a) == a + out[4..];
    assert Patched(a + out[4..], 4, b) == a + b + out[8..];
    assert Patched(a + b + out[8..], 8, c) == a + b + c + out[12..];
    assert Patched(a + b + c + out[12..], 12, d) == a + b + c + d + out[16..];
  }

  /** One word of the header; the root stays as it is. */
  method PutWord(writer: Writer, slot: nat, word: Bytes, ghost root: Byml, ghost rootAt: nat)
    requires writer.Valid() && slot in writer.pending && |word| == 4
    requires root.IsContainer() ==> ContentAt(writer.layout, writer.out, writer.pending, writer.offsets, root, rootAt)
    modifies writer`out, writer`pending
    ensures writer.Valid() && writer.pending == old(writer.pending) - {slot} && slot + 4 <= |old(writer.out)|
    ensures writer.out == Patched(old(writer.out), slot, word)
    ensures root.IsContainer() ==> ContentAt(writer.layout, writer.out, writer.pending, writer.offsets, root, rootAt)
  {
    ghost var out, pending := writer.out, writer.pending;
    writer.Put(slot, word);
    if root.IsContainer() {
      StillAfterPatch(writer.layout, out, pending, writer.offsets, slot, word, root, rootAt);
    }
  }

  method PutHeader(writer: Writer, format: Format, keyTable: nat, stringTable: nat, rootAt: nat, ghost root: Byml)
    requires writer.Valid() && writer.pending == {0, 4, 8, 12}
    requires root.IsContainer() ==> ContentAt(writer.layout, writer.out, writer.pending, writer.offsets, root, rootAt)
    modifies writer`out, writer`pending
    ensures writer.Valid() && writer.pending == {} && |old(writer.out)| >= 16
    ensures writer.out == Head(format, keyTable, stringTable, rootAt) + old(writer.out)[16..]
    ensures root.IsContainer() ==> ContentAt(writer.layout, writer.out, {}, writer.offsets, root, rootAt)
  {
    hide ContentAt, AllWritten, Number, Patched;
    var big := format.big;
    var first := Magic(big) + Number(big, format.version, 2);
    var second, third, fourth := Number(big, keyTable, 4), Number(big, stringTable, 4), Number(big, rootAt, 4);
    ghost var out := writer.out;
    PutWord(writer, 0, first, root, rootAt);
    PutWord(writer, 4, second, root, rootAt);
    PutWord(writer, 8, third, root, rootAt);
    PutWord(writer, 12, fourth, root, rootAt);
    assert writer.pending == {};
    FourWords(out, first, second, third, fourth);
  }

  /** The document's bytes; what it holds comes back from them.  The ghost result is where each node is. */
  method Write(root: Byml, format: Format, order: set<Key> -> seq<Key>, sorted: set<string> -> seq<string>, hash: Byml -> nat)
    returns (out: Bytes, ghost layout: Layout, ghost offsets: Offsets, ghost rootAt: nat)
    requires Aligned(root)
    requires forall s: set<Key> :: Lists(order(s), s)
    requires forall s: set<string> :: Lists(sorted(s), s)
    ensures Within(root, format) && |out| < WORD ==> (Parse(out) == Some((root, format)) <==> ReadsBack(root, format.big))
    ensures Inline(root) && |out| < WORD && format.version < 0x1_0000 ==> Parse(out) == None
    ensures layout.big == format.big && layout.order == order && OnlyParts(map[], offsets, root)
    ensures root.IsContainer() ==> Written(layout, out, offsets, root, rootAt) && OneEach(offsets)
    ensures Storable(root, format) && |out| < WORD ==>
              Opened(layout, Reader(out, format.big, sorted(Names(root)), sorted(Texts(root))), offsets) && Readable(layout, root, 0)
  {
    hide Names, Texts, Fits, ContentAt, AllWritten, Chained, Recorded, Number, Head, Table, Holds, Parse, FirstByte, Special, Indices,
         InTables, Aligned;
    var keys, strings := sorted(Names(root)), sorted(Texts(root));
    var full := Layout(format.big, order, Indices(keys), Indices(strings));
    layout := full;
    var keyTable, stringTable;
    out, keyTable, stringTable := WriteTables(format.big, keys, strings);
    var position := |out|;
    rootAt := position;
    ghost var before := out;
    var writer := new Writer(full, hash, out);
    WriteRoot(writer, root);
    ghost var unheaded := writer.out;
    PutHeader(writer, format, keyTable, stringTable, position, root);
    out, offsets := writer.out, writer.offsets;
    Finish(layout, before, unheaded, out, format, keys, strings, offsets, root, keyTable, stringTable, rootAt);
  }

  method WriteTables(big: bool, keys: seq<string>, strings: seq<string>) returns (out: Bytes, keyTable: nat, stringTable: nat)
    ensures |out| >= 16 && |out| % 4 == 0 && keyTable <= |out| && stringTable <= |out|
    ensures TableThere(out, big, keyTable, keys) && TableThere(out, big, stringTable, strings)
    ensures (keys != [] ==> keyTable >= 16) && (strings != [] ==> stringTable >= 16)
  {
    hide Table, Holds;
    var start := Zeros(HEADER_SIZE);
    out, keyTable := WriteTable(start, big, keys);
    TableSize(big, keys);
    TableSize(big, strings);
    TableAppended(start, big, keys);
    ghost var before := out;
    out, stringTable := WriteTable(out, big, strings);
    TableAppended(before, big, strings);
    if keys != [] { HoldsLonger(before, out, keyTable, Table(big, keys)); }
  }

  lemma TableAppended(out: Bytes, big: bool, texts: seq<string>)
    ensures Holds(out + Table(big, texts), |out|, Table(big, texts))
  {
    hide Table;
  }

  lemma HoldsLonger(out: Bytes, more: Bytes, at: nat, bytes: Bytes)
    requires Holds(out, at, bytes) && out <= more
    ensures Holds(more, at, bytes)
  {
  }

  method WriteRoot(writer: Writer, root: Byml)
    requires writer.Valid() && Aligned(root) && |writer.out| % 4 == 0
    requires writer.pending == {0, 4, 8, 12} && writer.offsets == map[]
    modifies writer
    ensures writer.Valid() && writer.pending == {0, 4, 8, 12} && old(writer.out) <= writer.out
    ensures OnlyParts(map[], writer.offsets, root) && (Inline(root) ==> writer.out == old(writer.out))
    ensures IsSpecial(root) ==> writer.out == old(writer.out) + Special(writer.layout, root)
    ensures root.IsContainer() ==> ContentAt(writer.layout, writer.out, writer.pending, writer.offsets, root, |old(writer.out)|)
  {
    if root.IsContainer() {
      writer.WriteContainer(root);
    } else if !Inline(root) {
      writer.WriteSpecial(root);
    }
  }

  lemma Finish(layout: Layout, before: Bytes, unheaded: Bytes, out: Bytes, format: Format, keys: seq<string>, strings: seq<string>, offsets: Offsets,
               root: Byml, keyTable: nat, stringTable: nat, rootAt: nat)
    requires |before| >= 16 && before <= unheaded && out == Head(format, keyTable, stringTable, rootAt) + unheaded[16..]
    requires TableThere(before, format.big, keyTable, keys) && TableThere(before, format.big, stringTable, strings)
    requires (keys != [] ==> keyTable >= 16) && (strings != [] ==> stringTable >= 16) && keyTable <= |before| && stringTable <= |before|
    requires layout.big == format.big && layout.keys == Indices(keys) && layout.strings == Indices(strings) && Ordered(layout)
    requires Lists(keys, Names(root)) && Lists(strings, Texts(root)) && AllWritten(layout, out, {}, offsets) && rootAt == |before|
    requires root.IsContainer() ==> ContentAt(layout, out, {}, offsets, root, rootAt)
    requires (Inline(root) ==> unheaded == before) && (IsSpecial(root) ==> unheaded == before + Special(layout, root))
    ensures Within(root, format) && |out| < WORD ==> (Parse(out) == Some((root, format)) <==> ReadsBack(root, format.big))
    ensures Storable(root, format) && |out| < WORD ==>
              Opened(layout, Reader(out, format.big, keys, strings), offsets) && Readable(layout, root, 0)
    ensures Inline(root) && |out| < WORD && format.version < 0x1_0000 ==> Parse(out) == None
  {
    hide Number, Table, Holds, Names, Texts, Fits, AllWritten, ContentAt, Head, Parse, Indices, Special, FirstByte;
    TablesStay(before, unheaded, out, Head(format, keyTable, stringTable, rootAt), format.big, keyTable, keys);
    TablesStay(before, unheaded, out, Head(format, keyTable, stringTable, rootAt), format.big, stringTable, strings);
    HeadThere(Head(format, keyTable, stringTable, rootAt), unheaded[16..]);
    if IsSpecial(root) { RootStays(before, Special(layout, root), Head(format, keyTable, stringTable, rootAt)); }
    assert Finished(layout, out, format, keys, strings, offsets, root, keyTable, stringTable, rootAt);
    if |out| < WORD {
      if Within(root, format) {
        ParsedIff(layout, out, format, keys, strings, offsets, root, keyTable, stringTable, rootAt);
      }
      if Storable(root, format) {
        ParseBack(layout, out, format, keys, strings, offsets, root, keyTable, stringTable, rootAt);
      }
      if Inline(root) && format.version < 0x1_0000 {
        InlineLost(layout, out, format, keys, strings, offsets, root, keyTable, stringTable, rootAt);
      }
    }
  }

  lemma HeadThere(head: Bytes, rest: Bytes)
    ensures Holds(head + rest, 0, head)
  {
  }

  lemma RootStays(before: Bytes, root: Bytes, head: Bytes)
    requires |before| >= 16 && |head| == 16
    ensures Holds(head + (before + root)[16..], |before|, root)
  {
    var out := head + (before + root)[16..];
    assert out[|before|..|before| + |root|] == root;
  }

  lemma TablesStay(before: Bytes, unheaded: Bytes, out: Bytes, head: Bytes, big: bool, at: nat, texts: seq<string>)
    requires |before| >= 16 && before <= unheaded && |head| == 16 && out == head + unheaded[16..]
    requires TableThere(before, big, at, texts) && (texts != [] ==> at >= 16)
    ensures TableThere(out, big, at, texts)
  {
    hide Table;
    if texts != [] {
      assert out[16..|before|] == before[16..];
      HoldsAfter(before, out, at, Table(big, texts));
    }
  }
}
