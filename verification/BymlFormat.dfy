/** The binary form of BYML documents: what a container's bytes are once its children have offsets, and
    how a node is read back.  Text is its UTF-8 bytes, a byte a character. */
module BymlFormat {
  import opened Documents

  type Byte = n: nat | n < 256 witness 0

  type Bytes = seq<Byte>

  const WORD := 0x1_0000_0000

  // ---------- numbers ----------

  function Power(n: nat): (p: nat)
    ensures p > 0
  {
    if n == 0 then 1 else 256 * Power(n - 1)
  }

  /** The low `n` bytes of a number, the lowest first. */
  function Little(v: nat, n: nat): (bytes: Bytes)
    ensures |bytes| == n
  {
    if n == 0 then [] else [v % 256] + Little(v / 256, n - 1)
  }

  function Big(v: nat, n: nat): (bytes: Bytes)
    ensures |bytes| == n
  {
    if n == 0 then [] else Big(v / 256, n - 1) + [v % 256]
  }

  function LittleValue(bytes: Bytes): nat {
    if bytes == [] then 0 else bytes[0] + 256 * LittleValue(bytes[1..])
  }

  function BigValue(bytes: Bytes): nat {
    if bytes == [] then 0 else 256 * BigValue(bytes[..|bytes| - 1]) + bytes[|bytes| - 1]
  }

  function Number(big: bool, v: nat, n: nat): (bytes: Bytes)
    ensures |bytes| == n
  {
    if big then Big(v, n) else Little(v, n)
  }

  function NumberAt(big: bool, bytes: Bytes): nat {
    if big then BigValue(bytes) else LittleValue(bytes)
  }

  lemma {:induction false} LittleBack(v: nat, n: nat)
    requires v < Power(n)
    ensures LittleValue(Little(v, n)) == v
  {
    if n > 0 {
      LittleBack(v / 256, n - 1);
      assert Little(v, n)[1..] == Little(v / 256, n - 1);
    }
  }

  lemma {:induction false} BigBack(v: nat, n: nat)
    requires v < Power(n)
    ensures BigValue(Big(v, n)) == v
  {
    if n > 0 {
      BigBack(v / 256, n - 1);
      assert Big(v, n)[..n - 1] == Big(v / 256, n - 1);
    }
  }

  lemma NumberBack(big: bool, v: nat, n: nat)
    requires v < Power(n)
    ensures NumberAt(big, Number(big, v, n)) == v
  {
    LittleBack(v, n);
    BigBack(v, n);
  }

  lemma Powers()
    ensures Power(2) == 0x1_0000 && Power(4) == WORD && Power(8) == WORD * WORD
  {
    assert Power(3) == 256 * Power(2);
    assert Power(5) == 256 * Power(4);
    assert Power(6) == 256 * Power(5);
    assert Power(7) == 256 * Power(6);
  }

  /** A signed number as the unsigned one with the same bits, and back. */
  function Unsigned(v: int, modulus: nat): nat
    requires 0 - modulus <= v
  {
    if v < 0 then v + modulus else v
  }

  function Signed(v: nat, modulus: nat): int {
    if 2 * v < modulus then v else v - modulus
  }

  // ---------- node types ----------

  const NONE: Byte := 0x00
  const HASH_MAP32: Byte := 0x20
  const HASH_MAP64: Byte := 0x21
  const STRING: Byte := 0xA0
  const BINARY: Byte := 0xA1
  const BINARY_ALIGNED: Byte := 0xA2
  const ARRAY: Byte := 0xC0
  const MAP: Byte := 0xC1
  const STRING_TABLE: Byte := 0xC2
  const BOOL: Byte := 0xD0
  const INT: Byte := 0xD1
  const FLOAT: Byte := 0xD2
  const UINT32: Byte := 0xD3
  const INT64: Byte := 0xD4
  const UINT64: Byte := 0xD5
  const DOUBLE: Byte := 0xD6
  const ARRAY_CHANGELOG: Byte := 0xFD
  const CHANGELOG: Byte := 0xFE
  const NULL_NODE: Byte := 0xFF

  function NodeType(node: Byml): Byte {
    match node
    case Leaf(Null) => NULL_NODE
    case Leaf(Text(_)) => STRING
    case Leaf(Binary(_)) => BINARY
    case Leaf(BinaryAligned(_, _)) => BINARY_ALIGNED
    case Leaf(Bool(_)) => BOOL
    case Leaf(Int(_)) => INT
    case Leaf(Float(_)) => FLOAT
    case Leaf(UInt32(_)) => UINT32
    case Leaf(Int64(_)) => INT64
    case Leaf(UInt64(_)) => UINT64
    case Leaf(Double(_)) => DOUBLE
    case Marker(_) => CHANGELOG
    case Array(_) => ARRAY
    case Map(Named, _) => MAP
    case Map(Hashed32, _) => HASH_MAP32
    case Map(Hashed64, _) => HASH_MAP64
    case ArrayLog(_) => ARRAY_CHANGELOG
  }

  /** Nodes whose value fits in their parent's slot. */
  predicate Inline(node: Byml) {
    match node
    case Leaf(value) => value.Null? || value.Text? || value.Bool? || value.Int? || value.Float? || value.UInt32?
    case Marker(_) => true
    case _ => false
  }

  function RawChange(change: ChangeType): nat {
    match change case Add => 0 case Edit => 1 case Remove => 2
  }

  function ChangeOf(raw: nat): Option<ChangeType> {
    if raw == 0 then Some(Add) else if raw == 1 then Some(Edit) else if raw == 2 then Some(Remove) else None
  }

  // ---------- what a container's bytes are ----------

  /** How a document is laid out: the byte order, the order entries of maps go in, and the tables. */
  datatype Layout = Layout(big: bool, order: set<Key> -> seq<Key>, keys: map<string, nat>, strings: map<string, nat>)

  function IndexOf(table: map<string, nat>, text: string): nat { if text in table then table[text] else 0 }

  function InlineValue(layout: Layout, node: Byml): nat {
    match node
    case Leaf(Text(text)) => IndexOf(layout.strings, text)
    case Leaf(Bool(flag)) => if flag then 1 else 0
    case Leaf(Int(v)) => if -WORD <= v then Unsigned(v, WORD) else 0
    case Leaf(Float(bits)) => bits
    case Leaf(UInt32(v)) => v
    case Marker(change) => RawChange(change)
    case _ => 0
  }

  function Header(big: bool, type_: Byte, count: nat): (bytes: Bytes)
    ensures |bytes| == 4
  {
    Number(big, if big then type_ * 0x100_0000 + count else count * 256 + type_, 4)
  }

  function KeyAndType(big: bool, index: nat, type_: Byte): (bytes: Bytes)
    ensures |bytes| == 4
  {
    Number(big, if big then index * 256 + type_ else index + type_ * 0x100_0000, 4)
  }

  function Padding(n: nat): nat { if n % 4 == 0 then 0 else 4 - n % 4 }

  function Zeros(n: nat): (zeros: Bytes)
    ensures |zeros| == n
  {
    seq(n, _ => 0)
  }

  /** A container's body is made of fixed bytes and of slots for its children. */
  datatype Piece = Raw(bytes: Bytes) | Slot(child: Byml)

  function Slots(nodes: seq<Byml>): seq<Piece> {
    seq(|nodes|, i requires 0 <= i < |nodes| => Slot(nodes[i]))
  }

  function Types(nodes: seq<Byml>): Bytes {
    seq(|nodes|, i requires 0 <= i < |nodes| => NodeType(nodes[i]))
  }

  function Width(kind: Kind): nat { if kind == Hashed64 then 8 else 4 }

  function Keys(layout: Layout, node: Byml): seq<Key>
    requires node.Map?
  {
    layout.order(node.entries.Keys)
  }

  function ValueOf(node: Byml, key: Key): Byml
    requires node.Map?
  {
    if key in node.entries then node.entries[key] else Leaf(Null)
  }

  function ValuesOf(node: Byml, keys: seq<Key>): seq<Byml>
    requires node.Map?
  {
    seq(|keys|, i requires 0 <= i < |keys| => ValueOf(node, keys[i]))
  }

  function HashOf(key: Key): nat { if key.Hash? then key.value else 0 }

  function TextOf(key: Key): string { if key.Name? then key.text else "" }

  function NamedPieces(layout: Layout, node: Byml, keys: seq<Key>): seq<Piece>
    requires node.Map?
  {
    if keys == [] then []
    else
      var value := ValueOf(node, keys[0]);
      [Raw(KeyAndType(layout.big, IndexOf(layout.keys, TextOf(keys[0])), NodeType(value))), Slot(value)]
      + NamedPieces(layout, node, keys[1..])
  }

  function HashedPieces(layout: Layout, node: Byml, keys: seq<Key>, width: nat): seq<Piece>
    requires node.Map?
  {
    if keys == [] then []
    else
      [Raw(Number(layout.big, HashOf(keys[0]), width)), Slot(ValueOf(node, keys[0]))] + HashedPieces(layout, node, keys[1..], width)
  }

  function KeyPiece(key: Option<Byml>): Piece {
    match key case None => Raw(Zeros(4)) case Some(node) => Slot(node)
  }

  function KeyType(key: Option<Byml>): Byte {
    match key case None => NONE case Some(node) => NodeType(node)
  }

  function ChangePieces(layout: Layout, change: ArrayChange): seq<Piece> {
    [Raw(Number(layout.big, if -WORD <= change.index then Unsigned(change.index, WORD) else 0, 4)),
     Raw(Number(layout.big, RawChange(change.change), 4)),
     Slot(change.node), KeyPiece(change.key.primary), KeyPiece(change.key.secondary)]
  }

  function LogPieces(layout: Layout, changes: seq<ArrayChange>): seq<Piece> {
    if changes == [] then [] else ChangePieces(layout, changes[0]) + LogPieces(layout, changes[1..])
  }

  function ChangeTypes(change: ArrayChange): Bytes {
    [NodeType(change.node), KeyType(change.key.primary), KeyType(change.key.secondary), NONE]
  }

  function LogTypes(changes: seq<ArrayChange>): Bytes {
    if changes == [] then [] else ChangeTypes(changes[0]) + LogTypes(changes[1..])
  }

  /** The pieces of a container's body, in order. */
  function Template(layout: Layout, node: Byml): seq<Piece>
    requires node.IsContainer()
  {
    match node
    case Array(items) =>
      [Raw(Header(layout.big, ARRAY, |items|)), Raw(Types(items)), Raw(Zeros(Padding(|items|)))] + Slots(items)
    case Map(Named, entries) =>
      [Raw(Header(layout.big, MAP, |entries|))] + NamedPieces(layout, node, Keys(layout, node))
    case Map(kind, entries) =>
      var keys := Keys(layout, node);
      [Raw(Header(layout.big, NodeType(node), |entries|))]
      + HashedPieces(layout, node, keys, Width(kind))
      + [Raw(Types(ValuesOf(node, keys))), Raw(Zeros(Padding(|keys|)))]
    case ArrayLog(changes) =>
      [Raw(Header(layout.big, ARRAY_CHANGELOG, |changes|))] + LogPieces(layout, changes) + [Raw(LogTypes(changes))]
  }

  /** Which node is at which offset. */
  type Offsets = map<Byml, nat>

  function OffsetOf(offsets: Offsets, node: Byml): nat { if node in offsets then offsets[node] else 0 }

  /** What goes into a child's slot. */
  function SlotValue(layout: Layout, offsets: Offsets, child: Byml): nat {
    if Inline(child) then InlineValue(layout, child) else OffsetOf(offsets, child)
  }

  /** The bytes of some pieces when the first `filled` slots left open have their offsets. */
  function Render(layout: Layout, pieces: seq<Piece>, offsets: Offsets, filled: nat): Bytes {
    if pieces == [] then []
    else match pieces[0]
      case Raw(bytes) => bytes + Render(layout, pieces[1..], offsets, filled)
      case Slot(child) =>
        if Inline(child) then Number(layout.big, InlineValue(layout, child), 4) + Render(layout, pieces[1..], offsets, filled)
        else if filled == 0 then Zeros(4) + Render(layout, pieces[1..], offsets, 0)
        else Number(layout.big, OffsetOf(offsets, child), 4) + Render(layout, pieces[1..], offsets, filled - 1)
  }

  /** The slots left open, with their positions. */
  function Open(pieces: seq<Piece>, at: nat): seq<(nat, Byml)> {
    if pieces == [] then []
    else match pieces[0]
      case Raw(bytes) => Open(pieces[1..], at + |bytes|)
      case Slot(child) => (if Inline(child) then [] else [(at, child)]) + Open(pieces[1..], at + 4)
  }

  /** A container's bytes. */
  function Body(layout: Layout, node: Byml, offsets: Offsets): Bytes
    requires node.IsContainer()
  {
    var pieces := Template(layout, node);
    Render(layout, pieces, offsets, |Open(pieces, 0)|)
  }

  /** The bytes of a node that is neither a container nor fits in a slot. */
  function Special(layout: Layout, node: Byml): Bytes {
    match node
    case Leaf(Binary(bytes)) =>
      var data := AsBytes(bytes);
      Number(layout.big, |bytes|, 4) + data + Zeros(Padding(|data|))
    case Leaf(BinaryAligned(bytes, alignment)) =>
      Number(layout.big, |bytes|, 4) + Number(layout.big, alignment, 4) + AsBytes(bytes)
    case Leaf(Int64(v)) => Number(layout.big, if -WORD * WORD <= v then Unsigned(v, WORD * WORD) else 0, 8)
    case Leaf(UInt64(v)) => Number(layout.big, v, 8)
    case Leaf(Double(bits)) => Number(layout.big, bits, 8)
    case _ => []
  }

  function AsBytes(values: seq<nat>): Bytes {
    seq(|values|, i requires 0 <= i < |values| => values[i] % 256)
  }

  /** What a node written on its own consists of. */
  function Content(layout: Layout, node: Byml, offsets: Offsets): Bytes {
    if node.IsContainer() then Body(layout, node, offsets) else Special(layout, node)
  }

  // ---------- reading ----------

  const MAX_DEPTH := 128

  datatype Reader = Reader(data: Bytes, big: bool, keys: seq<string>, strings: seq<string>)
  {
    function Number(at: nat, n: nat): Option<nat> {
      if at + n <= |data| then Some(NumberAt(big, data[at..at + n])) else None
    }

    function Byte(at: nat): Option<Byte> {
      if at < |data| then Some(data[at]) else None
    }

    function Slice(at: nat, n: nat): Option<seq<nat>> {
      if at + n <= |data| then Some(seq(n, i requires 0 <= i < n => data[at + i] as nat)) else None
    }

    /** Number of entries, if the container there has the type expected. */
    function Count(at: nat, type_: Byte): Option<nat> {
      match Number(at, 4)
      case None => None
      case Some(v) =>
        if big then if v / 0x100_0000 == type_ then Some(v % 0x100_0000) else None
        else if v % 256 == type_ then Some(v / 256) else None
    }

    function KeyAndType(at: nat): Option<(nat, Byte)> {
      match Number(at, 4)
      case None => None
      case Some(v) =>
        if big then Some((v / 256, v % 256)) else Some((v % 0x100_0000, v / 0x100_0000 % 256))
    }

    function Node(type_: Byte, value: nat, depth: nat): Option<Byml>
      decreases MAX_DEPTH + 1 - depth, 3
    {
      if depth > MAX_DEPTH then None
      else if type_ == NULL_NODE || type_ == NONE then Some(Leaf(Null))
      else if type_ == STRING then if value < |strings| then Some(Leaf(Text(strings[value]))) else None
      else if type_ == BOOL then Some(Leaf(Bool(value != 0)))
      else if type_ == INT then Some(Leaf(Int(Signed(value, WORD))))
      else if type_ == FLOAT then Some(Leaf(Float(value)))
      else if type_ == UINT32 then Some(Leaf(UInt32(value)))
      else if type_ == CHANGELOG then (match ChangeOf(value) case None => None case Some(change) => Some(Marker(change)))
      else if type_ == INT64 then (match Number(value, 8) case None => None case Some(v) => Some(Leaf(Int64(Signed(v, WORD * WORD)))))
      else if type_ == UINT64 then (match Number(value, 8) case None => None case Some(v) => Some(Leaf(UInt64(v))))
      else if type_ == DOUBLE then (match Number(value, 8) case None => None case Some(v) => Some(Leaf(Double(v))))
      else if type_ == BINARY then
        match Number(value, 4)
        case None => None
        case Some(size) => (match Slice(value + 4, size) case None => None case Some(bytes) => Some(Leaf(Binary(bytes))))
      else if type_ == BINARY_ALIGNED then
        match (Number(value, 4), Number(value + 4, 4))
        case (Some(size), Some(alignment)) =>
          (match Slice(value + 8, size) case None => None case Some(bytes) => Some(Leaf(BinaryAligned(bytes, alignment))))
        case _ => None
      else if type_ == ARRAY then ArrayAt(value, depth)
      else if type_ == MAP then NamedAt(value, depth)
      else if type_ == HASH_MAP32 then HashedAt(Hashed32, value, depth)
      else if type_ == HASH_MAP64 then HashedAt(Hashed64, value, depth)
      else if type_ == ARRAY_CHANGELOG then LogAt(value, depth)
      else None
    }

    function ArrayAt(at: nat, depth: nat): Option<Byml>
      requires depth <= MAX_DEPTH
      decreases MAX_DEPTH + 1 - depth, 2
    {
      match Count(at, ARRAY)
      case None => None
      case Some(count) =>
        if at + 4 + count > |data| then None
        else match Items(at + 4, at + 4 + count + Padding(count), count, depth)
          case None => None
          case Some(items) => Some(Array(items))
    }

    /** `count` nodes whose types and values are in two rows. */
    function Items(types: nat, values: nat, count: nat, depth: nat): Option<seq<Byml>>
      requires depth <= MAX_DEPTH
      decreases MAX_DEPTH + 1 - depth, 1, count
    {
      if count == 0 then Some([])
      else
        match (Byte(types), Number(values, 4))
        case (Some(type_), Some(value)) =>
          (match (Node(type_, value, depth + 1), Items(types + 1, values + 4, count - 1, depth))
           case (Some(first), Some(rest)) => Some([first] + rest)
           case _ => None)
        case _ => None
    }

    function NamedAt(at: nat, depth: nat): Option<Byml>
      requires depth <= MAX_DEPTH
      decreases MAX_DEPTH + 1 - depth, 2
    {
      match Count(at, MAP)
      case None => None
      case Some(count) =>
        match NamedEntries(at + 4, count, depth, map[])
        case None => None
        case Some(entries) => Some(Map(Named, entries))
    }

    function NamedEntries(at: nat, count: nat, depth: nat, so_far: map<Key, Byml>): Option<map<Key, Byml>>
      requires depth <= MAX_DEPTH
      decreases MAX_DEPTH + 1 - depth, 1, count
    {
      if count == 0 then Some(so_far)
      else
        match (KeyAndType(at), Number(at + 4, 4))
        case (Some((index, type_)), Some(value)) =>
          if index >= |keys| then None
          else (match Node(type_, value, depth + 1)
            case None => None
            case Some(node) => NamedEntries(at + 8, count - 1, depth, so_far[Name(keys[index]) := node]))
        case _ => None
    }

    function HashedAt(kind: Kind, at: nat, depth: nat): Option<Byml>
      requires depth <= MAX_DEPTH && kind != Named
      decreases MAX_DEPTH + 1 - depth, 2
    {
      var width := Width(kind);
      match Count(at, if kind == Hashed32 then HASH_MAP32 else HASH_MAP64)
      case None => None
      case Some(count) =>
        match HashedEntries(at + 4, width, at + 4 + count * (width + 4), count, depth, map[])
        case None => None
        case Some(entries) => Some(Map(kind, entries))
    }

    function HashedEntries(at: nat, width: nat, types: nat, count: nat, depth: nat, so_far: map<Key, Byml>): Option<map<Key, Byml>>
      requires depth <= MAX_DEPTH
      decreases MAX_DEPTH + 1 - depth, 1, count
    {
      if count == 0 then Some(so_far)
      else
        match (Number(at, width), Number(at + width, 4), Byte(types))
        case (Some(hash), Some(value), Some(type_)) =>
          (match Node(type_, value, depth + 1)
           case None => None
           case Some(node) => HashedEntries(at + width + 4, width, types + 1, count - 1, depth, so_far[Hash(hash) := node]))
        case _ => None
    }

    function LogAt(at: nat, depth: nat): Option<Byml>
      requires depth <= MAX_DEPTH
      decreases MAX_DEPTH + 1 - depth, 2
    {
      match Count(at, ARRAY_CHANGELOG)
      case None => None
      case Some(count) =>
        match Changes(at + 4, at + 4 + count * 20, count, depth)
        case None => None
        case Some(changes) => Some(ArrayLog(changes))
    }

    function KeyAt(type_: Byte, at: nat, depth: nat): Option<Option<Byml>>
      requires depth <= MAX_DEPTH
      decreases MAX_DEPTH + 1 - depth, 0, 0
    {
      if type_ == NONE then Some(None)
      else
        match Number(at, 4)
        case None => None
        case Some(value) => (match Node(type_, value, depth + 1) case None => None case Some(node) => Some(Some(node)))
    }

    function Changes(at: nat, types: nat, count: nat, depth: nat): Option<seq<ArrayChange>>
      requires depth <= MAX_DEPTH
      decreases MAX_DEPTH + 1 - depth, 1, count
    {
      if count == 0 then Some([])
      else
        match ChangeAt(at, types, depth)
        case None => None
        case Some(change) =>
          (match Changes(at + 20, types + 4, count - 1, depth)
           case None => None
           case Some(rest) => Some([change] + rest))
    }

    function ChangeAt(at: nat, types: nat, depth: nat): Option<ArrayChange>
      requires depth <= MAX_DEPTH
      decreases MAX_DEPTH + 1 - depth, 0, 1
    {
      if types + 3 > |data| then None
      else
        match (KeyAt(data[types + 1], at + 12, depth), KeyAt(data[types + 2], at + 16, depth), Number(at, 4), Number(at + 4, 4), Number(at + 8, 4))
        case (Some(primary), Some(secondary), Some(index), Some(raw), Some(value)) =>
          (match (ChangeOf(raw), Node(data[types], value, depth + 1))
           case (Some(change), Some(node)) =>
             Some(ArrayChange(Signed(index, WORD), change, node, RowKey(primary, secondary)))
           case _ => None)
        case _ => None
    }
  }
}
