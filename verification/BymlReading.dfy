/** Reading back what the writer laid out: every node is found again at its offset. */
module BymlReading {
  import opened Documents
  import opened BymlFormat
  import opened BymlTables
  import opened BymlWriter

  // ---------- the documents the format can hold ----------

  predicate ScalarFits(value: Scalar) {
    match value
    case Null => true
    case Text(text) => Plain(text)
    case Binary(bytes) => BytesFit(bytes)
    case BinaryAligned(bytes, alignment) => BytesFit(bytes) && alignment < WORD / 2
    case Bool(_) => true
    case Int(v) => 0 - WORD / 2 <= v && v < WORD / 2
    case Float(bits) => bits < WORD
    case UInt32(v) => v < WORD
    case Int64(v) => 0 - WORD * WORD / 2 <= v && v < WORD * WORD / 2
    case UInt64(v) => v < WORD * WORD
    case Double(bits) => bits < WORD * WORD
  }

  predicate BytesFit(bytes: seq<nat>) { forall i :: 0 <= i < |bytes| ==> bytes[i] < 256 }

  predicate KeyFits(kind: Kind, key: Key) {
    match kind
    case Named => key.Name? && Plain(key.text)
    case Hashed32 => key.Hash? && key.value < WORD
    case Hashed64 => key.Hash? && key.value < WORD * WORD
  }

  /** The format's limits: the ranges of numbers, fewer than 2^24 entries to a container, and nesting. */
  predicate Fits(node: Byml, levels: nat)
  {
    match node
    case Leaf(value) => ScalarFits(value)
    case Marker(_) => true
    case Array(items) => |items| < COUNTS && forall i :: 0 <= i < |items| ==> levels > 0 && Fits(items[i], levels - 1)
    case Map(kind, entries) =>
      |entries| < COUNTS && forall k :: k in entries ==> KeyFits(kind, k) && levels > 0 && Fits(entries[k], levels - 1)
    case ArrayLog(changes) =>
      |changes| < COUNTS
      && forall i :: 0 <= i < |changes| ==>
        levels > 0 && Fits(changes[i].node, levels - 1)
        && (changes[i].key.primary.Some? ==> Fits(changes[i].key.primary.value, levels - 1))
        && (changes[i].key.secondary.Some? ==> Fits(changes[i].key.secondary.value, levels - 1))
        && 0 - WORD / 2 <= changes[i].index && changes[i].index < WORD / 2
  }

  /** Every text of a document is in the string table, every name in the key table. */
  ghost predicate InTables(layout: Layout, node: Byml) {
    match node
    case Leaf(Text(text)) => text in layout.strings
    case Array(items) => forall i :: 0 <= i < |items| ==> InTables(layout, items[i])
    case Map(kind, entries) =>
      forall k :: k in entries ==> (kind == Named ==> TextOf(k) in layout.keys) && InTables(layout, entries[k])
    case ArrayLog(changes) =>
      forall i :: 0 <= i < |changes| ==>
        InTables(layout, changes[i].node) && (changes[i].key.primary.Some? ==> InTables(layout, changes[i].key.primary.value))
        && (changes[i].key.secondary.Some? ==> InTables(layout, changes[i].key.secondary.value))
    case _ => true
  }

  // ---------- what the reader knows ----------

  ghost predicate Ordered(layout: Layout) {
    forall s: set<Key> :: Lists(layout.order(s), s)
  }

  ghost predicate Numbered(numbers: map<string, nat>, table: seq<string>, limit: nat) {
    |table| <= limit && forall t :: t in numbers ==> numbers[t] < |table| && table[numbers[t]] == t
  }

  /** A reader of a document whose nodes are all written. */
  ghost predicate Opened(layout: Layout, reader: Reader, offsets: Offsets) {
    && reader.big == layout.big && |reader.data| < WORD && Ordered(layout)
    && Numbered(layout.keys, reader.keys, COUNTS) && Numbered(layout.strings, reader.strings, WORD)
    && AllWritten(layout, reader.data, {}, offsets)
  }

  ghost predicate Back(layout: Layout, reader: Reader, offsets: Offsets, child: Byml, depth: nat) {
    && SlotValue(layout, offsets, child) < WORD
    && reader.Node(NodeType(child), SlotValue(layout, offsets, child), depth) == Some(child)
  }

  // ---------- bodies with every slot filled ----------

  function Filled(layout: Layout, pieces: seq<Piece>, offsets: Offsets): Bytes {
    if pieces == [] then [] else FilledPiece(layout, pieces[0], offsets) + Filled(layout, pieces[1..], offsets)
  }

  function FilledPiece(layout: Layout, piece: Piece, offsets: Offsets): Bytes {
    match piece
    case Raw(bytes) => bytes
    case Slot(child) => Number(layout.big, SlotValue(layout, offsets, child), 4)
  }

  lemma {:induction false} FilledIsRender(layout: Layout, pieces: seq<Piece>, offsets: Offsets, at: nat, filled: nat)
    requires filled >= |Open(pieces, at)|
    ensures Render(layout, pieces, offsets, filled) == Filled(layout, pieces, offsets)
    decreases |pieces|
  {
    hide Number, InlineValue;
    if pieces != [] {
      match pieces[0]
      case Raw(bytes) => FilledIsRender(layout, pieces[1..], offsets, at + |bytes|, filled);
      case Slot(child) => FilledIsRender(layout, pieces[1..], offsets, at + 4, if Inline(child) then filled else filled - 1);
    }
  }

  lemma {:induction false} FilledSplit(layout: Layout, a: seq<Piece>, b: seq<Piece>, offsets: Offsets)
    ensures Filled(layout, a + b, offsets) == Filled(layout, a, offsets) + Filled(layout, b, offsets)
  {
    hide FilledPiece;
    if a == [] {
      assert a + b == b;
    } else {
      assert (a + b)[1..] == a[1..] + b;
      FilledSplit(layout, a[1..], b, offsets);
    }
  }

  lemma FilledOne(layout: Layout, piece: Piece, offsets: Offsets)
    ensures Filled(layout, [piece], offsets) == FilledPiece(layout, piece, offsets)
  {
    hide FilledPiece;
    assert [piece][1..] == [];
  }

  lemma FilledFirst(layout: Layout, pieces: seq<Piece>, offsets: Offsets, data: Bytes, at: nat)
    requires pieces != [] && Holds(data, at, Filled(layout, pieces, offsets))
    ensures Holds(data, at, FilledPiece(layout, pieces[0], offsets))
    ensures Holds(data, at + |FilledPiece(layout, pieces[0], offsets)|, Filled(layout, pieces[1..], offsets))
  {
    hide FilledPiece, Holds;
    HoldsSplit(data, at, FilledPiece(layout, pieces[0], offsets), Filled(layout, pieces[1..], offsets));
  }

  lemma SlotHeld(layout: Layout, reader: Reader, offsets: Offsets, child: Byml, at: nat)
    requires reader.big == layout.big && SlotValue(layout, offsets, child) < WORD
    requires Holds(reader.data, at, FilledPiece(layout, Slot(child), offsets))
    ensures reader.Number(at, 4) == Some(SlotValue(layout, offsets, child))
  {
    hide SlotValue, Number, NumberAt;
    Powers();
    NumberHeld(reader.data, reader.big, reader.keys, reader.strings, at, SlotValue(layout, offsets, child), 4);
  }

  lemma KeyAndTypeHeld(reader: Reader, at: nat, index: nat, type_: Byte)
    requires Holds(reader.data, at, KeyAndType(reader.big, index, type_)) && index < COUNTS
    ensures reader.KeyAndType(at) == Some((index, type_))
  {
    hide Number, NumberAt, Reader.Number;
    Powers();
    var v := if reader.big then index * 256 + type_ else index + type_ * 0x100_0000;
    NumberHeld(reader.data, reader.big, reader.keys, reader.strings, at, v, 4);
  }

  // ---------- arrays ----------

  lemma TypesFirst(items: seq<Byml>, data: Bytes, at: nat)
    requires items != [] && Holds(data, at, Types(items))
    ensures at < |data| && data[at] == NodeType(items[0]) && Holds(data, at + 1, Types(items[1..]))
  {
    hide NodeType;
    assert Types(items) == [NodeType(items[0])] + Types(items[1..]);
    HoldsSplit(data, at, [NodeType(items[0])], Types(items[1..]));
    assert data[at..at + 1][0] == data[at];
  }

  lemma {:induction false} ItemsBack(layout: Layout, reader: Reader, offsets: Offsets, items: seq<Byml>, types: nat, values: nat, depth: nat)
    requires depth <= MAX_DEPTH && reader.big == layout.big
    requires Holds(reader.data, types, Types(items)) && Holds(reader.data, values, Filled(layout, Slots(items), offsets))
    requires forall i :: 0 <= i < |items| ==> Back(layout, reader, offsets, items[i], depth + 1)
    ensures reader.Items(types, values, |items|, depth) == Some(items)
    decreases |items|
  {
    hide Number, NumberAt, Reader.Number, Reader.Node, SlotValue, NodeType, Types, FilledPiece, Filled, Holds;
    if items != [] {
      var first, rest := items[0], items[1..];
      assert Slots(items)[1..] == Slots(rest);
      TypesFirst(items, reader.data, types);
      FilledFirst(layout, Slots(items), offsets, reader.data, values);
      assert Back(layout, reader, offsets, first, depth + 1);
      SlotHeld(layout, reader, offsets, first, values);
      SlotSize(layout, first, offsets);
      ItemsBack(layout, reader, offsets, rest, types + 1, values + 4, depth);
      assert [first] + rest == items;
    }
  }

  lemma SlotSize(layout: Layout, child: Byml, offsets: Offsets)
    ensures |FilledPiece(layout, Slot(child), offsets)| == 4
  {
  }

  lemma ArrayBack(layout: Layout, reader: Reader, offsets: Offsets, items: seq<Byml>, at: nat, depth: nat)
    requires depth <= MAX_DEPTH && reader.big == layout.big && |items| < COUNTS
    requires Holds(reader.data, at, Filled(layout, Template(layout, Array(items)), offsets))
    requires forall i :: 0 <= i < |items| ==> Back(layout, reader, offsets, items[i], depth + 1)
    ensures reader.ArrayAt(at, depth) == Some(Array(items))
  {
    hide Number, NumberAt, Reader.Number, Reader.Node, SlotValue, NodeType, FilledPiece, Filled, Holds, Header, Reader.Items, Reader.Count, Padding;
    var header, types, zeros := Raw(Header(layout.big, ARRAY, |items|)), Raw(Types(items)), Raw(Zeros(Padding(|items|)));
    var pieces := Template(layout, Array(items));
    FilledFirst(layout, pieces, offsets, reader.data, at);
    RawPiece(layout, header.bytes, offsets);
    RawPiece(layout, types.bytes, offsets);
    RawPiece(layout, zeros.bytes, offsets);
    assert pieces[1..] == [types, zeros] + Slots(items);
    FilledFirst(layout, pieces[1..], offsets, reader.data, at + 4);
    assert pieces[1..][1..] == [zeros] + Slots(items);
    FilledFirst(layout, pieces[1..][1..], offsets, reader.data, at + 4 + |items|);
    assert pieces[1..][1..][1..] == Slots(items);
    CountHeld(reader, at, ARRAY, |items|);
    ItemsBack(layout, reader, offsets, items, at + 4, at + 4 + |items| + Padding(|items|), depth);
    Inside(reader.data, at + 4, types.bytes);
  }

  lemma RawPiece(layout: Layout, bytes: Bytes, offsets: Offsets)
    ensures FilledPiece(layout, Raw(bytes), offsets) == bytes
  {
  }

  lemma Inside(data: Bytes, at: nat, bytes: Bytes)
    requires Holds(data, at, bytes)
    ensures at + |bytes| <= |data|
  {
  }

  // ---------- maps by name ----------

  function Gather(node: Byml, keys: seq<Key>, so_far: map<Key, Byml>): map<Key, Byml>
    requires node.Map?
  {
    if keys == [] then so_far else Gather(node, keys[1..], so_far[keys[0] := ValueOf(node, keys[0])])
  }

  lemma {:induction false} Gathered(node: Byml, keys: seq<Key>, so_far: map<Key, Byml>, k: Key)
    requires node.Map?
    ensures k in Gather(node, keys, so_far) <==> k in so_far || k in keys
    ensures k in keys ==> Gather(node, keys, so_far)[k] == ValueOf(node, k)
    ensures k !in keys && k in so_far ==> Gather(node, keys, so_far)[k] == so_far[k]
    decreases |keys|
  {
    if keys != [] {
      Gathered(node, keys[1..], so_far[keys[0] := ValueOf(node, keys[0])], k);
    }
  }

  /** Each entry once, in any order, is the map. */
  lemma GatheredAll(node: Byml, keys: seq<Key>)
    requires node.Map? && Lists(keys, node.entries.Keys)
    ensures Gather(node, keys, map[]) == node.entries
  {
    forall k
      ensures k in Gather(node, keys, map[]) <==> k in node.entries
      ensures k in node.entries ==> Gather(node, keys, map[])[k] == node.entries[k]
    {
      Gathered(node, keys, map[], k);
    }
  }

  /** The keys of a map are among the names of the table, and its values can be read. */
  ghost predicate NamedReadable(layout: Layout, reader: Reader, offsets: Offsets, node: Byml, keys: seq<Key>, depth: nat)
    requires node.Map?
  {
    forall i :: 0 <= i < |keys| ==>
      keys[i].Name? && keys[i].text in layout.keys && Back(layout, reader, offsets, ValueOf(node, keys[i]), depth)
  }

  lemma {:induction false} NamedBack(layout: Layout, reader: Reader, offsets: Offsets, node: Byml, keys: seq<Key>, at: nat, depth: nat,
                                     so_far: map<Key, Byml>)
    requires node.Map? && depth <= MAX_DEPTH && reader.big == layout.big && Numbered(layout.keys, reader.keys, COUNTS)
    requires Holds(reader.data, at, Filled(layout, NamedPieces(layout, node, keys), offsets))
    requires NamedReadable(layout, reader, offsets, node, keys, depth + 1)
    ensures reader.NamedEntries(at, |keys|, depth, so_far) == Some(Gather(node, keys, so_far))
    decreases |keys|
  {
    hide Number, NumberAt, Reader.Number, Reader.Node, Reader.KeyAndType, SlotValue, NodeType, FilledPiece, Filled, Holds, ValueOf, KeyAndType;
    if keys != [] {
      var value, rest := ValueOf(node, keys[0]), keys[1..];
      var pieces := NamedPieces(layout, node, keys);
      assert Back(layout, reader, offsets, value, depth + 1);
      var index := layout.keys[keys[0].text];
      var entry := KeyAndType(layout.big, index, NodeType(value));
      assert pieces[0] == Raw(entry) && pieces[1..][0] == Slot(value) && pieces[1..][1..] == NamedPieces(layout, node, rest);
      RawPiece(layout, entry, offsets);
      FilledFirst(layout, pieces, offsets, reader.data, at);
      KeyAndTypeHeld(reader, at, index, NodeType(value));
      FilledFirst(layout, pieces[1..], offsets, reader.data, at + 4);
      SlotHeld(layout, reader, offsets, value, at + 4);
      SlotSize(layout, value, offsets);
      NamedBack(layout, reader, offsets, node, rest, at + 8, depth, so_far[keys[0] := value]);
    }
  }

  lemma NamedMapBack(layout: Layout, reader: Reader, offsets: Offsets, node: Byml, at: nat, depth: nat)
    requires node.Map? && node.kind == Named && depth <= MAX_DEPTH && reader.big == layout.big && |node.entries| < COUNTS
    requires Ordered(layout) && Numbered(layout.keys, reader.keys, COUNTS)
    requires Holds(reader.data, at, Filled(layout, Template(layout, node), offsets))
    requires NamedReadable(layout, reader, offsets, node, Keys(layout, node), depth + 1)
    ensures reader.NamedAt(at, depth) == Some(node)
  {
    hide Number, NumberAt, Reader.Number, Reader.Node, Reader.NamedEntries, Reader.Count, SlotValue, FilledPiece, Filled, Holds, Header, NamedReadable,
         NamedPieces, Gather;
    var keys := Keys(layout, node);
    var pieces, header := Template(layout, node), Header(layout.big, MAP, |node.entries|);
    NamedTemplate(layout, node);
    assert Lists(keys, node.entries.Keys);
    RawPiece(layout, header, offsets);
    FilledFirst(layout, pieces, offsets, reader.data, at);
    assert pieces[1..] == NamedPieces(layout, node, keys);
    CountHeld(reader, at, MAP, |node.entries|);
    NamedBack(layout, reader, offsets, node, keys, at + 4, depth, map[]);
    GatheredAll(node, keys);
  }

  // ---------- maps by hash ----------

  ghost predicate HashedReadable(layout: Layout, reader: Reader, offsets: Offsets, node: Byml, keys: seq<Key>, width: nat, depth: nat)
    requires node.Map?
  {
    forall i :: 0 <= i < |keys| ==>
      keys[i].Hash? && keys[i].value < Power(width) && Back(layout, reader, offsets, ValueOf(node, keys[i]), depth)
  }

  lemma {:induction false} HashedBack(layout: Layout, reader: Reader, offsets: Offsets, node: Byml, keys: seq<Key>, width: nat, at: nat, types: nat,
                                      depth: nat, so_far: map<Key, Byml>)
    requires node.Map? && depth <= MAX_DEPTH && reader.big == layout.big
    requires Holds(reader.data, at, Filled(layout, HashedPieces(layout, node, keys, width), offsets))
    requires Holds(reader.data, types, Types(ValuesOf(node, keys)))
    requires HashedReadable(layout, reader, offsets, node, keys, width, depth + 1)
    ensures reader.HashedEntries(at, width, types, |keys|, depth, so_far) == Some(Gather(node, keys, so_far))
    decreases |keys|
  {
    hide Number, NumberAt, Reader.Number, Reader.Node, SlotValue, NodeType, FilledPiece, Filled, Holds, ValueOf, Types, Power;
    if keys != [] {
      var value, rest := ValueOf(node, keys[0]), keys[1..];
      var pieces := HashedPieces(layout, node, keys, width);
      assert Back(layout, reader, offsets, value, depth + 1);
      var entry := Number(layout.big, keys[0].value, width);
      assert pieces[0] == Raw(entry) && pieces[1..][0] == Slot(value) && pieces[1..][1..] == HashedPieces(layout, node, rest, width);
      RawPiece(layout, entry, offsets);
      FilledFirst(layout, pieces, offsets, reader.data, at);
      NumberHeld(reader.data, reader.big, reader.keys, reader.strings, at, keys[0].value, width);
      FilledFirst(layout, pieces[1..], offsets, reader.data, at + width);
      SlotHeld(layout, reader, offsets, value, at + width);
      SlotSize(layout, value, offsets);
      assert ValuesOf(node, keys)[1..] == ValuesOf(node, rest);
      TypesFirst(ValuesOf(node, keys), reader.data, types);
      HashedBack(layout, reader, offsets, node, rest, width, at + width + 4, types + 1, depth, so_far[keys[0] := value]);
    }
  }

  lemma HashedMapBack(layout: Layout, reader: Reader, offsets: Offsets, node: Byml, at: nat, depth: nat)
    requires node.Map? && node.kind != Named && depth <= MAX_DEPTH && reader.big == layout.big && |node.entries| < COUNTS
    requires Ordered(layout)
    requires Holds(reader.data, at, Filled(layout, Template(layout, node), offsets))
    requires HashedReadable(layout, reader, offsets, node, Keys(layout, node), Width(node.kind), depth + 1)
    ensures reader.HashedAt(node.kind, at, depth) == Some(node)
  {
    hide Number, NumberAt, Reader.Number, Reader.Node, Reader.HashedEntries, Reader.Count, SlotValue, FilledPiece, Filled, Holds, Header, HashedReadable,
         HashedPieces, Gather, Types, Padding;
    var keys, width := Keys(layout, node), Width(node.kind);
    var header, types, zeros := Header(layout.big, NodeType(node), |node.entries|), Types(ValuesOf(node, keys)), Zeros(Padding(|keys|));
    var entries := HashedPieces(layout, node, keys, width);
    assert Lists(keys, node.entries.Keys);
    HashedParts(layout, reader.data, offsets, header, entries, types, zeros, at);
    HashedFilledSize(layout, node, keys, width, offsets);
    CountHeld(reader, at, NodeType(node), |node.entries|);
    HashedBack(layout, reader, offsets, node, keys, width, at + 4, at + 4 + |keys| * (width + 4), depth, map[]);
    GatheredAll(node, keys);
  }

  lemma HashedParts(layout: Layout, data: Bytes, offsets: Offsets, header: Bytes, entries: seq<Piece>, types: Bytes, zeros: Bytes, at: nat)
    requires Holds(data, at, Filled(layout, [Raw(header)] + entries + [Raw(types), Raw(zeros)], offsets))
    ensures Holds(data, at, header) && Holds(data, at + |header|, Filled(layout, entries, offsets))
    ensures Holds(data, at + |header| + |Filled(layout, entries, offsets)|, types)
  {
    hide Holds, Filled, FilledPiece;
    var body := Filled(layout, entries, offsets);
    FilledSplit(layout, [Raw(header)] + entries, [Raw(types), Raw(zeros)], offsets);
    FilledSplit(layout, [Raw(header)], entries, offsets);
    FilledRaws(layout, header, [], offsets);
    FilledRaws(layout, types, zeros, offsets);
    HoldsSplit(data, at, header + body, types + zeros);
    HoldsSplit(data, at, header, body);
    HoldsSplit(data, at + |header + body|, types, zeros);
  }

  lemma FilledRaws(layout: Layout, a: Bytes, b: Bytes, offsets: Offsets)
    ensures Filled(layout, [Raw(a)], offsets) == a && Filled(layout, [Raw(a), Raw(b)], offsets) == a + b
  {
    FilledOne(layout, Raw(a), offsets);
    FilledOne(layout, Raw(b), offsets);
    assert [Raw(a), Raw(b)] == [Raw(a)] + [Raw(b)];
    FilledSplit(layout, [Raw(a)], [Raw(b)], offsets);
  }

  lemma {:induction false} HashedFilledSize(layout: Layout, node: Byml, keys: seq<Key>, width: nat, offsets: Offsets)
    requires node.Map?
    ensures |Filled(layout, HashedPieces(layout, node, keys, width), offsets)| == |keys| * (width + 4)
    decreases |keys|
  {
    hide Number, SlotValue, ValueOf;
    if keys != [] {
      var pieces := HashedPieces(layout, node, keys, width);
      assert pieces[1..][1..] == HashedPieces(layout, node, keys[1..], width);
      HashedFilledSize(layout, node, keys[1..], width, offsets);
      assert |keys| * (width + 4) == |keys[1..]| * (width + 4) + (width + 4);
    }
  }

  // ---------- array changelogs ----------

  ghost predicate KeyReadable(layout: Layout, reader: Reader, offsets: Offsets, key: Option<Byml>, depth: nat) {
    key.Some? ==> Back(layout, reader, offsets, key.value, depth)
  }

  ghost predicate ChangeReadable(layout: Layout, reader: Reader, offsets: Offsets, change: ArrayChange, depth: nat) {
    && Back(layout, reader, offsets, change.node, depth)
    && KeyReadable(layout, reader, offsets, change.key.primary, depth) && KeyReadable(layout, reader, offsets, change.key.secondary, depth)
    && 0 - WORD / 2 <= change.index && change.index < WORD / 2
  }

  lemma KeyBack(layout: Layout, reader: Reader, offsets: Offsets, key: Option<Byml>, at: nat, depth: nat)
    requires depth <= MAX_DEPTH && reader.big == layout.big && KeyReadable(layout, reader, offsets, key, depth + 1)
    requires Holds(reader.data, at, FilledPiece(layout, KeyPiece(key), offsets))
    ensures reader.KeyAt(KeyType(key), at, depth) == Some(key)
  {
    hide Number, NumberAt, Reader.Number, Reader.Node, SlotValue, FilledPiece, Holds;
    if key.Some? {
      SlotHeld(layout, reader, offsets, key.value, at);
      assert NodeType(key.value) != NONE;
    }
  }

  lemma ChangeParts(layout: Layout, data: Bytes, offsets: Offsets, change: ArrayChange, at: nat)
    requires Holds(data, at, Filled(layout, ChangePieces(layout, change), offsets))
    ensures Holds(data, at, Number(layout.big, RawIndex(change), 4)) && Holds(data, at + 4, Number(layout.big, RawChange(change.change), 4))
    ensures Holds(data, at + 8, FilledPiece(layout, Slot(change.node), offsets))
    ensures Holds(data, at + 12, FilledPiece(layout, KeyPiece(change.key.primary), offsets))
    ensures Holds(data, at + 16, FilledPiece(layout, KeyPiece(change.key.secondary), offsets))
  {
    hide Number, Filled, Holds, FilledPiece;
    var pieces := ChangePieces(layout, change);
    RawPiece(layout, Number(layout.big, RawIndex(change), 4), offsets);
    RawPiece(layout, Number(layout.big, RawChange(change.change), 4), offsets);
    SlotSize(layout, change.node, offsets);
    KeyPieceSize(layout, change.key.primary, offsets);
    FilledFirst(layout, pieces, offsets, data, at);
    FilledFirst(layout, pieces[1..], offsets, data, at + 4);
    FilledFirst(layout, pieces[1..][1..], offsets, data, at + 8);
    FilledFirst(layout, pieces[1..][1..][1..], offsets, data, at + 12);
    FilledFirst(layout, pieces[1..][1..][1..][1..], offsets, data, at + 16);
  }

  function RawIndex(change: ArrayChange): nat { if -WORD <= change.index then Unsigned(change.index, WORD) else 0 }

  lemma KeyPieceSize(layout: Layout, key: Option<Byml>, offsets: Offsets)
    ensures |FilledPiece(layout, KeyPiece(key), offsets)| == 4
  {
  }

  lemma ChangeBack(layout: Layout, reader: Reader, offsets: Offsets, change: ArrayChange, at: nat, types: nat, depth: nat)
    requires depth <= MAX_DEPTH && reader.big == layout.big && ChangeReadable(layout, reader, offsets, change, depth + 1)
    requires Holds(reader.data, at, Filled(layout, ChangePieces(layout, change), offsets))
    requires Holds(reader.data, types, ChangeTypes(change))
    ensures reader.ChangeAt(at, types, depth) == Some(change)
  {
    hide Number, NumberAt, Reader.Number, Reader.Node, Reader.KeyAt, SlotValue, NodeType, Filled, FilledPiece, Holds, KeyType, KeyReadable;
    ChangeParts(layout, reader.data, offsets, change, at);
    FourTypes(reader.data, types, change);
    Powers();
    NumberHeld(reader.data, reader.big, reader.keys, reader.strings, at, RawIndex(change), 4);
    NumberHeld(reader.data, reader.big, reader.keys, reader.strings, at + 4, RawChange(change.change), 4);
    SlotHeld(layout, reader, offsets, change.node, at + 8);
    KeyBack(layout, reader, offsets, change.key.primary, at + 12, depth);
    KeyBack(layout, reader, offsets, change.key.secondary, at + 16, depth);
    assert RowKey(change.key.primary, change.key.secondary) == change.key;
  }

  lemma FourTypes(data: Bytes, at: nat, change: ArrayChange)
    requires Holds(data, at, ChangeTypes(change))
    ensures at + 4 <= |data| && data[at] == NodeType(change.node)
    ensures data[at + 1] == KeyType(change.key.primary) && data[at + 2] == KeyType(change.key.secondary)
  {
    hide NodeType, KeyType;
    var types := data[at..at + 4];
    assert types[0] == data[at] && types[1] == data[at + 1] && types[2] == data[at + 2];
  }

  lemma {:induction false} ChangesBack(layout: Layout, reader: Reader, offsets: Offsets, changes: seq<ArrayChange>, at: nat, types: nat, depth: nat)
    requires depth <= MAX_DEPTH && reader.big == layout.big
    requires forall i :: 0 <= i < |changes| ==> ChangeReadable(layout, reader, offsets, changes[i], depth + 1)
    requires Holds(reader.data, at, Filled(layout, LogPieces(layout, changes), offsets)) && Holds(reader.data, types, LogTypes(changes))
    ensures reader.Changes(at, types, |changes|, depth) == Some(changes)
    decreases |changes|
  {
    hide Number, NumberAt, Reader.Number, Reader.Node, Reader.ChangeAt, SlotValue, NodeType, Filled, FilledPiece, Holds, KeyType, ChangeReadable,
         ChangePieces;
    if changes != [] {
      var first, rest := changes[0], changes[1..];
      FilledSplit(layout, ChangePieces(layout, first), LogPieces(layout, rest), offsets);
      ChangeFilledSize(layout, first, offsets);
      HoldsSplit(reader.data, at, Filled(layout, ChangePieces(layout, first), offsets), Filled(layout, LogPieces(layout, rest), offsets));
      HoldsSplit(reader.data, types, ChangeTypes(first), LogTypes(rest));
      ChangeBack(layout, reader, offsets, first, at, types, depth);
      ChangesBack(layout, reader, offsets, rest, at + 20, types + 4, depth);
      assert [first] + rest == changes;
    }
  }

  lemma ChangeFilledSize(layout: Layout, change: ArrayChange, offsets: Offsets)
    ensures |Filled(layout, ChangePieces(layout, change), offsets)| == 20
  {
    ChangeSize(layout, change);
    FilledIsRender(layout, ChangePieces(layout, change), offsets, 0, |Open(ChangePieces(layout, change), 0)|);
    RenderLength(layout, ChangePieces(layout, change), map[], 0, offsets, |Open(ChangePieces(layout, change), 0)|);
  }

  lemma {:induction false} LogFilledSize(layout: Layout, changes: seq<ArrayChange>, offsets: Offsets)
    ensures |Filled(layout, LogPieces(layout, changes), offsets)| == 20 * |changes|
  {
    hide Number, SlotValue, ChangePieces, Filled;
    if changes != [] {
      FilledSplit(layout, ChangePieces(layout, changes[0]), LogPieces(layout, changes[1..]), offsets);
      ChangeFilledSize(layout, changes[0], offsets);
      LogFilledSize(layout, changes[1..], offsets);
    } else {
      FilledNone(layout, offsets);
    }
  }

  lemma FilledNone(layout: Layout, offsets: Offsets)
    ensures Filled(layout, [], offsets) == []
  {
  }

  lemma LogBack(layout: Layout, reader: Reader, offsets: Offsets, changes: seq<ArrayChange>, at: nat, depth: nat)
    requires depth <= MAX_DEPTH && reader.big == layout.big && |changes| < COUNTS
    requires forall i :: 0 <= i < |changes| ==> ChangeReadable(layout, reader, offsets, changes[i], depth + 1)
    requires Holds(reader.data, at, Filled(layout, Template(layout, ArrayLog(changes)), offsets))
    ensures reader.LogAt(at, depth) == Some(ArrayLog(changes))
  {
    hide Number, NumberAt, Reader.Number, Reader.Node, Reader.Changes, Reader.Count, SlotValue, Filled, FilledPiece, Holds, ChangeReadable, Header,
         LogPieces, LogTypes;
    var header, entries, types := Header(layout.big, ARRAY_CHANGELOG, |changes|), LogPieces(layout, changes), LogTypes(changes);
    LogParts(layout, reader.data, offsets, header, entries, types, at);
    LogFilledSize(layout, changes, offsets);
    CountHeld(reader, at, ARRAY_CHANGELOG, |changes|);
    ChangesBack(layout, reader, offsets, changes, at + 4, at + 4 + |changes| * 20, depth);
  }

  lemma LogParts(layout: Layout, data: Bytes, offsets: Offsets, header: Bytes, entries: seq<Piece>, types: Bytes, at: nat)
    requires Holds(data, at, Filled(layout, [Raw(header)] + entries + [Raw(types)], offsets))
    ensures Holds(data, at, header) && Holds(data, at + |header|, Filled(layout, entries, offsets))
    ensures Holds(data, at + |header| + |Filled(layout, entries, offsets)|, types)
  {
    hide Holds, Filled, FilledPiece;
    var body := Filled(layout, entries, offsets);
    FilledSplit(layout, [Raw(header)] + entries, [Raw(types)], offsets);
    FilledSplit(layout, [Raw(header)], entries, offsets);
    FilledRaws(layout, header, [], offsets);
    FilledRaws(layout, types, [], offsets);
    HoldsSplit(data, at, header + body, types);
    HoldsSplit(data, at, header, body);
  }

  // ---------- leaves ----------

  lemma InlineBack(layout: Layout, reader: Reader, node: Byml, depth: nat)
    requires depth <= MAX_DEPTH && Inline(node) && Fits(node, MAX_DEPTH - depth) && InTables(layout, node)
    requires Numbered(layout.strings, reader.strings, WORD)
    ensures InlineValue(layout, node) < WORD
    ensures reader.Node(NodeType(node), InlineValue(layout, node), depth) == Some(node)
  {
    hide NumberAt, Reader.Number, Reader.ArrayAt, Reader.NamedAt, Reader.HashedAt, Reader.LogAt;
  }

  lemma BytesHeld(reader: Reader, at: nat, bytes: seq<nat>)
    requires BytesFit(bytes) && Holds(reader.data, at, AsBytes(bytes))
    ensures reader.Slice(at, |bytes|) == Some(bytes)
  {
    var data := reader.data;
    forall i | 0 <= i < |bytes|
      ensures data[at + i] == bytes[i]
    {
      assert data[at..at + |bytes|][i] == AsBytes(bytes)[i];
    }
    assert seq(|bytes|, i requires 0 <= i < |bytes| => data[at + i] as nat) == bytes;
  }

  lemma WideBack(reader: Reader, at: nat, v: nat)
    requires v < WORD * WORD && Holds(reader.data, at, Number(reader.big, v, 8))
    ensures reader.Number(at, 8) == Some(v)
  {
    hide Number, NumberAt, Reader.Number;
    Powers();
    NumberHeld(reader.data, reader.big, reader.keys, reader.strings, at, v, 8);
  }

  lemma BinaryBack(layout: Layout, reader: Reader, bytes: seq<nat>, at: nat, depth: nat)
    requires depth <= MAX_DEPTH && reader.big == layout.big && BytesFit(bytes) && |reader.data| < WORD
    requires Holds(reader.data, at, Special(layout, Leaf(Binary(bytes))))
    ensures reader.Node(BINARY, at, depth) == Some(Leaf(Binary(bytes)))
  {
    hide Number, NumberAt, Reader.Number, Reader.Slice, Padding;
    Powers();
    var data, size := AsBytes(bytes), Number(layout.big, |bytes|, 4);
    HoldsSplit(reader.data, at, size + data, Zeros(Padding(|data|)));
    HoldsSplit(reader.data, at, size, data);
    NumberHeld(reader.data, reader.big, reader.keys, reader.strings, at, |bytes|, 4);
    BytesHeld(reader, at + 4, bytes);
  }

  lemma AlignedBack(layout: Layout, reader: Reader, bytes: seq<nat>, alignment: nat, at: nat, depth: nat)
    requires depth <= MAX_DEPTH && reader.big == layout.big && BytesFit(bytes) && |reader.data| < WORD && alignment < WORD
    requires Holds(reader.data, at, Special(layout, Leaf(BinaryAligned(bytes, alignment))))
    ensures reader.Node(BINARY_ALIGNED, at, depth) == Some(Leaf(BinaryAligned(bytes, alignment)))
  {
    hide Number, NumberAt, Reader.Number, Reader.Slice;
    Powers();
    var data, size, boundary := AsBytes(bytes), Number(layout.big, |bytes|, 4), Number(layout.big, alignment, 4);
    HoldsSplit(reader.data, at, size + boundary, data);
    HoldsSplit(reader.data, at, size, boundary);
    NumberHeld(reader.data, reader.big, reader.keys, reader.strings, at, |bytes|, 4);
    NumberHeld(reader.data, reader.big, reader.keys, reader.strings, at + 4, alignment, 4);
    BytesHeld(reader, at + 8, bytes);
  }

  lemma SpecialBack(layout: Layout, reader: Reader, node: Byml, at: nat, depth: nat)
    requires node.Leaf? && !Inline(node) && ScalarFits(node.value) && depth <= MAX_DEPTH && reader.big == layout.big && |reader.data| < WORD
    requires Holds(reader.data, at, Special(layout, node))
    ensures reader.Node(NodeType(node), at, depth) == Some(node)
  {
    hide Number, NumberAt, Reader.Number, Reader.Slice, Holds;
    match node.value
    case Binary(bytes) => BinaryBack(layout, reader, bytes, at, depth);
    case BinaryAligned(bytes, alignment) => AlignedBack(layout, reader, bytes, alignment, at, depth);
    case Int64(v) => WideBack(reader, at, Unsigned(v, WORD * WORD));
    case UInt64(v) => WideBack(reader, at, v);
    case Double(bits) => WideBack(reader, at, bits);
  }

  // ---------- any node ----------

  /** What reading a node needs: its bytes at its offset, or its value in the slot. */
  ghost predicate Placed(layout: Layout, reader: Reader, offsets: Offsets, node: Byml, at: nat) {
    if Inline(node) then at == InlineValue(layout, node) else ContentAt(layout, reader.data, {}, offsets, node, at)
  }

  ghost predicate Readable(layout: Layout, node: Byml, depth: nat) {
    depth <= MAX_DEPTH && Fits(node, MAX_DEPTH - depth) && InTables(layout, node)
  }

  lemma {:induction false} SlotIsOpen(pieces: seq<Piece>, at: nat, child: Byml) returns (k: nat)
    requires Slot(child) in pieces && !Inline(child)
    ensures k < |Open(pieces, at)| && Open(pieces, at)[k].1 == child
    decreases |pieces|
  {
    match pieces[0]
    case Raw(bytes) =>
      k := SlotIsOpen(pieces[1..], at + |bytes|, child);
    case Slot(first) =>
      if first == child {
        k := 0;
      } else {
        k := SlotIsOpen(pieces[1..], at + 4, child);
        if !Inline(first) { k := k + 1; }
      }
  }

  lemma ItemInSlot(layout: Layout, node: Byml, i: nat)
    requires node.Array? && i < |node.items|
    ensures Slot(node.items[i]) in Template(layout, node)
  {
    assert Slots(node.items)[i] == Slot(node.items[i]);
    assert Slot(node.items[i]) in Slots(node.items);
  }

  lemma ValueInSlot(layout: Layout, node: Byml, k: Key)
    requires node.Map? && k in node.entries && Ordered(layout)
    ensures Slot(node.entries[k]) in Template(layout, node)
  {
    var keys := Keys(layout, node);
    assert Lists(keys, node.entries.Keys);
    if node.kind == Named {
      AmongNamed(layout, node, keys, k);
      NamedTemplate(layout, node);
    } else {
      AmongHashed(layout, node, keys, Width(node.kind), k);
      assert Slot(node.entries[k]) in HashedPieces(layout, node, keys, Width(node.kind));
    }
  }

  lemma {:induction false} AmongNamed(layout: Layout, node: Byml, keys: seq<Key>, k: Key)
    requires node.Map? && k in keys && k in node.entries
    ensures Slot(node.entries[k]) in NamedPieces(layout, node, keys)
    decreases |keys|
  {
    if keys[0] != k { AmongNamed(layout, node, keys[1..], k); }
  }

  lemma {:induction false} AmongHashed(layout: Layout, node: Byml, keys: seq<Key>, width: nat, k: Key)
    requires node.Map? && k in keys && k in node.entries
    ensures Slot(node.entries[k]) in HashedPieces(layout, node, keys, width)
    decreases |keys|
  {
    if keys[0] != k { AmongHashed(layout, node, keys[1..], width, k); }
  }

  lemma ChangeInSlots(layout: Layout, node: Byml, i: nat)
    requires node.ArrayLog? && i < |node.changes|
    ensures forall piece :: piece in ChangePieces(layout, node.changes[i]) ==> piece in Template(layout, node)
  {
    hide ChangePieces;
    AmongChanges(layout, node.changes, i);
  }

  lemma {:induction false} AmongChanges(layout: Layout, changes: seq<ArrayChange>, i: nat)
    requires i < |changes|
    ensures forall piece :: piece in ChangePieces(layout, changes[i]) ==> piece in LogPieces(layout, changes)
  {
    hide ChangePieces;
    if i > 0 { AmongChanges(layout, changes[1..], i - 1); }
  }

  lemma ItemReadable(layout: Layout, node: Byml, i: nat, depth: nat)
    requires Readable(layout, node, depth) && node.Array? && i < |node.items|
    ensures Readable(layout, node.items[i], depth + 1)
  {
  }

  lemma ValueReadable(layout: Layout, node: Byml, k: Key, depth: nat)
    requires Readable(layout, node, depth) && node.Map? && k in node.entries
    ensures Readable(layout, node.entries[k], depth + 1)
  {
  }

  lemma RowReadable(layout: Layout, node: Byml, i: nat, depth: nat)
    requires Readable(layout, node, depth) && node.ArrayLog? && i < |node.changes|
    ensures Readable(layout, node.changes[i].node, depth + 1)
    ensures node.changes[i].key.primary.Some? ==> Readable(layout, node.changes[i].key.primary.value, depth + 1)
    ensures node.changes[i].key.secondary.Some? ==> Readable(layout, node.changes[i].key.secondary.value, depth + 1)
    ensures 0 - WORD / 2 <= node.changes[i].index && node.changes[i].index < WORD / 2
  {
  }

  /** A container's bytes are its pieces with every slot filled. */
  lemma BodyFilled(layout: Layout, reader: Reader, offsets: Offsets, node: Byml, at: nat)
    requires Opened(layout, reader, offsets) && node.IsContainer() && ContentAt(layout, reader.data, {}, offsets, node, at)
    ensures Holds(reader.data, at, Filled(layout, Template(layout, node), offsets)) && at < WORD
  {
    hide AllWritten, Template, Filled, Solid, Render;
    var pieces := Template(layout, node);
    FilledIsRender(layout, pieces, offsets, 0, |Open(pieces, 0)|);
    StartsWithHeader(layout, node, offsets);
  }

  lemma StartsWithHeader(layout: Layout, node: Byml, offsets: Offsets)
    requires node.IsContainer()
    ensures |Filled(layout, Template(layout, node), offsets)| > 0
  {
    hide Header, SlotValue, NamedPieces, HashedPieces, LogPieces, Slots, Types, LogTypes;
    assert Template(layout, node) != [] && Template(layout, node)[0].Raw? && |Template(layout, node)[0].bytes| == 4;
  }

  /** A child of a written container is found through its slot. */
  lemma {:induction false} ChildBack(layout: Layout, reader: Reader, offsets: Offsets, node: Byml, child: Byml, at: nat, depth: nat)
    requires Opened(layout, reader, offsets) && node.IsContainer() && ContentAt(layout, reader.data, {}, offsets, node, at)
    requires Slot(child) in Template(layout, node) && Readable(layout, child, depth + 1)
    ensures Back(layout, reader, offsets, child, depth + 1)
    decreases node, 0
  {
    hide Reader.Node, Reader.Number, Number, NumberAt, InlineValue, Template, Open, Content, Readable, Solid;
    if Inline(child) {
      assert Readable(layout, child, depth + 1);
      InlineChildBack(layout, reader, child, depth + 1);
    } else {
      var k := SlotIsOpen(Template(layout, node), 0, child);
      assert child in offsets;
      TemplateSlots(layout, node, child);
      NodeBack(layout, reader, offsets, child, offsets[child], depth + 1);
    }
  }

  lemma InlineChildBack(layout: Layout, reader: Reader, child: Byml, depth: nat)
    requires Inline(child) && Readable(layout, child, depth) && Numbered(layout.strings, reader.strings, WORD)
    ensures InlineValue(layout, child) < WORD && reader.Node(NodeType(child), InlineValue(layout, child), depth) == Some(child)
  {
    hide Reader.Node, InlineValue;
    InlineBack(layout, reader, child, depth);
  }

  lemma {:induction false} RowBack(layout: Layout, reader: Reader, offsets: Offsets, node: Byml, i: nat, at: nat, depth: nat)
    requires Opened(layout, reader, offsets) && Readable(layout, node, depth) && node.ArrayLog? && i < |node.changes|
    requires ContentAt(layout, reader.data, {}, offsets, node, at)
    ensures ChangeReadable(layout, reader, offsets, node.changes[i], depth + 1)
    decreases node, 1
  {
    hide Opened, Readable, ContentAt, Back, Template;
    var change := node.changes[i];
    RowReadable(layout, node, i, depth);
    ChangeInSlots(layout, node, i);
    var pieces := ChangePieces(layout, change);
    assert pieces[2] in pieces && pieces[3] in pieces && pieces[4] in pieces;
    ChildBack(layout, reader, offsets, node, change.node, at, depth);
    if change.key.primary.Some? {
      ChildBack(layout, reader, offsets, node, change.key.primary.value, at, depth);
    }
    if change.key.secondary.Some? {
      ChildBack(layout, reader, offsets, node, change.key.secondary.value, at, depth);
    }
  }

  lemma MapBack(layout: Layout, reader: Reader, offsets: Offsets, node: Byml, at: nat, depth: nat)
    requires Opened(layout, reader, offsets) && Readable(layout, node, depth) && node.Map?
    requires Holds(reader.data, at, Filled(layout, Template(layout, node), offsets))
    requires forall k :: k in node.entries ==> Back(layout, reader, offsets, node.entries[k], depth + 1)
    ensures reader.Node(NodeType(node), at, depth) == Some(node)
  {
    hide Reader.Number, Number, NumberAt, Template, Filled, Back, AllWritten, Holds, Reader.NamedAt, Reader.HashedAt, Reader.ArrayAt, Reader.LogAt;
    var keys := Keys(layout, node);
    assert Lists(keys, node.entries.Keys);
    Powers();
    forall i | 0 <= i < |keys|
      ensures keys[i] in node.entries && KeyFits(node.kind, keys[i]) && (node.kind == Named ==> TextOf(keys[i]) in layout.keys)
      ensures Back(layout, reader, offsets, ValueOf(node, keys[i]), depth + 1)
    {
      assert keys[i] in keys;
    }
    if node.kind == Named {
      NamedMapBack(layout, reader, offsets, node, at, depth);
    } else {
      HashedMapBack(layout, reader, offsets, node, at, depth);
    }
  }

  /** A node read at the offset the writer gave it is the node that was written. */
  lemma {:induction false} NodeBack(layout: Layout, reader: Reader, offsets: Offsets, node: Byml, at: nat, depth: nat)
    requires Opened(layout, reader, offsets) && Readable(layout, node, depth) && Placed(layout, reader, offsets, node, at)
    ensures at < WORD && reader.Node(NodeType(node), at, depth) == Some(node)
    decreases node, 3
  {
    hide Number, NumberAt, Reader.Number, Reader.ArrayAt, Reader.NamedAt, Reader.HashedAt, Reader.LogAt, Render, Open, Filled, InlineValue, Special, AllWritten,
         Solid;
    if Inline(node) {
      InlineBack(layout, reader, node, depth);
    } else if node.IsContainer() {
      ContainerBack(layout, reader, offsets, node, at, depth);
    } else {
      assert Holds(reader.data, at, Special(layout, node));
      SpecialBack(layout, reader, node, at, depth);
      NotEmpty(layout, node);
    }
  }

  lemma NotEmpty(layout: Layout, node: Byml)
    requires !Inline(node) && node.Leaf?
    ensures |Special(layout, node)| > 0
  {
    hide Number;
  }

  lemma {:induction false} ContainerBack(layout: Layout, reader: Reader, offsets: Offsets, node: Byml, at: nat, depth: nat)
    requires Opened(layout, reader, offsets) && Readable(layout, node, depth) && node.IsContainer()
    requires ContentAt(layout, reader.data, {}, offsets, node, at)
    ensures at < WORD && reader.Node(NodeType(node), at, depth) == Some(node)
    decreases node, 2
  {
    hide Number, NumberAt, Reader.Number, Reader.ArrayAt, Reader.NamedAt, Reader.HashedAt, Reader.LogAt, Filled, InlineValue, Special, AllWritten, Back,
         Template, NamedReadable, HashedReadable, ChangeReadable, Holds, ContentAt;
    BodyFilled(layout, reader, offsets, node, at);
    if node.Array? {
      forall i | 0 <= i < |node.items|
        ensures Back(layout, reader, offsets, node.items[i], depth + 1)
      {
        ItemReadable(layout, node, i, depth);
        ItemInSlot(layout, node, i);
        ChildBack(layout, reader, offsets, node, node.items[i], at, depth);
      }
      ArrayBack(layout, reader, offsets, node.items, at, depth);
    } else if node.ArrayLog? {
      forall i | 0 <= i < |node.changes|
        ensures ChangeReadable(layout, reader, offsets, node.changes[i], depth + 1)
      {
        RowBack(layout, reader, offsets, node, i, at, depth);
      }
      LogBack(layout, reader, offsets, node.changes, at, depth);
    } else {
      forall k | k in node.entries
        ensures Back(layout, reader, offsets, node.entries[k], depth + 1)
      {
        ValueReadable(layout, node, k, depth);
        ValueInSlot(layout, node, k);
        ChildBack(layout, reader, offsets, node, node.entries[k], at, depth);
      }
      MapBack(layout, reader, offsets, node, at, depth);
    }
  }
}
