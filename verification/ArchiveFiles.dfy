/** An archive's bytes, reading them, and rebuilding an archive from what was read. */
module ArchiveFiles {
  import opened Documents
  import opened BymlFormat
  import opened BymlTables
  import opened Alignment
  import opened Archives
  import Conflicts

  // ---------- the bytes ----------

  const SARC: Bytes := [0x53, 0x41, 0x52, 0x43]
  const SFAT: Bytes := [0x53, 0x46, 0x41, 0x54]
  const SFNT: Bytes := [0x53, 0x46, 0x4E, 0x54]

  /** The offset of a name, with the flag that says there is one. */
  function Flagged(offset: nat): nat {
    if offset / NAMED_FLAG % 2 == 1 then offset else offset + NAMED_FLAG
  }

  function NodeEntry(nodes: seq<Node>, i: nat): (bytes: Bytes)
    requires i < |nodes|
    ensures |bytes| == 16
  {
    Number(false, nodes[i].hash, 4) + Number(false, Flagged(NameOffset(nodes, i)), 4)
    + Number(false, Start(nodes, i), 4) + Number(false, End(nodes, i), 4)
  }

  function NodeTable(nodes: seq<Node>, n: nat): (bytes: Bytes)
    requires n <= |nodes|
    ensures |bytes| == 16 * n
  {
    if n == 0 then [] else NodeTable(nodes, n - 1) + NodeEntry(nodes, n - 1)
  }

  function SarcHeader(fileSize: nat, dataOffset: nat): (bytes: Bytes)
    ensures |bytes| == 20
  {
    SARC + Number(false, SARC_HEADER, 2) + Number(false, 0xFEFF, 2) + Number(false, fileSize, 4) + Number(false, dataOffset, 4)
    + Number(false, 0x0100, 2) + Number(false, 0, 2)
  }

  function SfatHeader(count: nat, key: nat): (bytes: Bytes)
    ensures |bytes| == 12
  {
    SFAT + Number(false, SFAT_HEADER, 2) + Number(false, count, 2) + Number(false, key, 4)
  }

  function SfntHeader(): (bytes: Bytes)
    ensures |bytes| == 8
  {
    SFNT + Number(false, SFNT_HEADER, 2) + Number(false, 0, 2)
  }

  predicate Positive(nodes: seq<Node>) { forall i :: 0 <= i < |nodes| ==> nodes[i].alignment > 0 }

  function Headers(nodes: seq<Node>, key: nat): Bytes
    requires Positive(nodes)
  {
    SarcHeader(DataOffset(nodes) + |Blob(nodes)|, DataOffset(nodes)) + SfatHeader(|nodes|, key) + NodeTable(nodes, |nodes|) + SfntHeader()
    + NameTable(nodes)
  }

  function Archive(nodes: seq<Node>, key: nat): Bytes
    requires Positive(nodes)
  {
    Headers(nodes, key) + Zeros(Gap(HeadersSize(nodes), CommonAlignment(nodes))) + Blob(nodes)
  }

  // ---------- reading ----------

  datatype Entry = Entry(name: string, data: Bytes)

  datatype Sarc = Sarc(entries: seq<Entry>, key: nat, minimum: nat)

  predicate MagicAt(data: Bytes, at: nat, magic: Bytes) {
    at + |magic| <= |data| && data[at..at + |magic|] == magic
  }

  function WordAt(data: Bytes, at: nat, n: nat): Option<nat> {
    Reader(data, false, [], []).Number(at, n)
  }

  function CString(data: Bytes, at: nat): Option<string>
    decreases |data| - at
  {
    if at >= |data| then None
    else if data[at] == 0 then Some("")
    else match CString(data, at + 1) case None => None case Some(rest) => Some([data[at] as char] + rest)
  }

  /** One node: its entry, and where its data is. */
  function ParseNode(data: Bytes, node: nat, names: nat, dataOffset: nat): Option<(Entry, nat)> {
    match (WordAt(data, node + 4, 4), WordAt(data, node + 8, 4), WordAt(data, node + 12, 4))
    case (Some(attributes), Some(start), Some(end)) =>
      if attributes / NAMED_FLAG % 2 == 0 then None
      else
        (match CString(data, names + attributes % NAMED_FLAG * 4)
         case None => None
         case Some(name) =>
           if start > end || dataOffset + end > |data| then None
           else Some((Entry(name, data[dataOffset + start..dataOffset + end]), dataOffset + start)))
    case _ => None
  }

  function ParseNodes(data: Bytes, node: nat, left: nat, names: nat, dataOffset: nat, minimum: nat): Option<(seq<Entry>, nat)>
    decreases left
  {
    if left == 0 then Some(([], minimum))
    else
      match ParseNode(data, node, names, dataOffset)
      case None => None
      case Some((entry, start)) => Preceded([entry], ParseNodes(data, node + 16, left - 1, names, dataOffset, Gcd(minimum, start % WORD)))
  }

  function Preceded(entries: seq<Entry>, rest: Option<(seq<Entry>, nat)>): Option<(seq<Entry>, nat)> {
    match rest case None => None case Some((more, minimum)) => Some((entries + more, minimum))
  }

  const MIN_ALIGNMENT := 4

  function ParseArchive(data: Bytes): Option<Sarc> {
    if !MagicAt(data, 0, SARC) then None
    else
      match (WordAt(data, 6, 2), WordAt(data, 0x0C, 4), WordAt(data, 0x1A, 2), WordAt(data, 0x1C, 4))
      case (Some(bom), Some(dataOffset), Some(count), Some(key)) =>
        if bom != 0xFEFF || !MagicAt(data, SARC_HEADER, SFAT) || !MagicAt(data, 0x20 + count * 16, SFNT) then None
        else
          (match ParseNodes(data, 0x20, count, 0x20 + count * 16 + SFNT_HEADER, dataOffset, MIN_ALIGNMENT)
           case None => None
           case Some((entries, minimum)) => Some(Sarc(entries, key, minimum)))
      case _ => None
  }

  lemma PrecededTwice(a: seq<Entry>, b: seq<Entry>, rest: Option<(seq<Entry>, nat)>)
    ensures Preceded(a, Preceded(b, rest)) == Preceded(a + b, rest)
  {
    if rest.Some? { assert a + (b + rest.value.0) == a + b + rest.value.0; }
  }

  /** The loop over the nodes. */
  method ReadNodes(data: Bytes, count: nat, names: nat, dataOffset: nat) returns (r: Option<(seq<Entry>, nat)>)
    ensures r == ParseNodes(data, 0x20, count, names, dataOffset, MIN_ALIGNMENT)
  {
    hide ParseNode;
    var entries: seq<Entry>, minimum: nat, node: nat, left: nat := [], MIN_ALIGNMENT, 0x20, count;
    ghost var all := ParseNodes(data, 0x20, count, names, dataOffset, MIN_ALIGNMENT);
    assert Preceded([], all) == all by { if all.Some? { assert [] + all.value.0 == all.value.0; } }
    while left > 0
      invariant Preceded(entries, ParseNodes(data, node, left, names, dataOffset, minimum)) == all
      decreases left
    {
      var parsed := ParseNode(data, node, names, dataOffset);
      if parsed.None? { return None; }
      var (entry, start) := parsed.value;
      var divisor := FindGcd(minimum, start % WORD);
      PrecededTwice(entries, [entry], ParseNodes(data, node + 16, left - 1, names, dataOffset, divisor));
      entries, minimum, node, left := entries + [entry], divisor, node + 16, left - 1;
    }
    assert ParseNodes(data, node, left, names, dataOffset, minimum) == Some(([], minimum));
    assert entries + [] == entries;
    return Some((entries, minimum));
  }

  // ---------- reading what was built ----------

  /** What an archive's fields can hold. */
  ghost predicate InRange(nodes: seq<Node>, key: nat) {
    && Positive(nodes) && |nodes| < 0x1_0000 && key < WORD && |NameTable(nodes)| <= 4 * NAMED_FLAG && |Archive(nodes, key)| < WORD
    && forall i :: 0 <= i < |nodes| ==> nodes[i].hash < WORD && Named(nodes[i].name)
  }

  /** A name that a zero can end. */
  predicate Named(name: string) { Plain(name) && forall i :: 0 <= i < |name| ==> name[i] as int != 0 }

  function EntriesFrom(nodes: seq<Node>, i: nat): seq<Entry>
    requires i <= |nodes|
    decreases |nodes| - i
  {
    if i == |nodes| then [] else [Entry(nodes[i].name, nodes[i].data)] + EntriesFrom(nodes, i + 1)
  }

  /** The smallest alignment that the offsets from the `i`th on leave. */
  function MinimumFrom(nodes: seq<Node>, dataOffset: nat, i: nat, minimum: nat): nat
    requires i <= |nodes|
    decreases |nodes| - i
  {
    if i == |nodes| then minimum else MinimumFrom(nodes, dataOffset, i + 1, Gcd(minimum, (dataOffset + Start(nodes, i)) % WORD))
  }

  /** Where the parts of a node are. */
  ghost predicate NodeThere(data: Bytes, nodes: seq<Node>, i: nat, names: nat, dataOffset: nat)
    requires i < |nodes|
  {
    && Holds(data, 0x20 + 16 * i, NodeEntry(nodes, i)) && Holds(data, names + 4 * NameOffset(nodes, i), NameBytes(nodes[i].name))
    && Holds(data, dataOffset + Start(nodes, i), nodes[i].data) && NameOffset(nodes, i) < NAMED_FLAG
  }

  lemma HoldsParts(data: Bytes, at: nat, a: Bytes, b: Bytes, c: Bytes)
    requires Holds(data, at, a + b + c)
    ensures Holds(data, at, a) && Holds(data, at + |a|, b) && Holds(data, at + |a| + |b|, c)
  {
    HoldsSplit(data, at, a + b, c);
    HoldsSplit(data, at, a, b);
  }

  lemma {:induction false} EntryThere(data: Bytes, at: nat, nodes: seq<Node>, n: nat, i: nat)
    requires i < n <= |nodes| && Holds(data, at, NodeTable(nodes, n))
    ensures Holds(data, at + 16 * i, NodeEntry(nodes, i))
    decreases n
  {
    hide NodeEntry, Holds;
    HoldsSplit(data, at, NodeTable(nodes, n - 1), NodeEntry(nodes, n - 1));
    if i < n - 1 { EntryThere(data, at, nodes, n - 1, i); }
  }

  lemma {:induction false} NameThere(data: Bytes, at: nat, nodes: seq<Node>, i: nat)
    requires i < |nodes| && Holds(data, at, NameTable(nodes))
    ensures |NameTable(nodes[..i])| % 4 == 0 && |NameTable(nodes[..i])| < |NameTable(nodes)|
    ensures Holds(data, at + 4 * NameOffset(nodes, i), NameBytes(nodes[i].name))
    decreases |nodes|
  {
    hide NameBytes, Holds;
    var n := |nodes| - 1;
    HoldsSplit(data, at, NameTable(nodes[..n]), NameBytes(nodes[n].name));
    if i < n {
      NameThere(data, at, nodes[..n], i);
      assert nodes[..n][..i] == nodes[..i];
    } else {
      FourfoldNames(nodes[..n]);
    }
  }

  lemma {:induction false} FourfoldNames(nodes: seq<Node>)
    ensures |NameTable(nodes)| % 4 == 0
  {
    hide NameBytes;
    if nodes != [] { FourfoldNames(nodes[..|nodes| - 1]); }
  }

  lemma {:induction false} DataThere(data: Bytes, at: nat, nodes: seq<Node>, i: nat)
    requires i < |nodes| && Positive(nodes) && Holds(data, at, Blob(nodes))
    ensures Holds(data, at + Start(nodes, i), nodes[i].data)
    decreases |nodes|
  {
    hide Holds, AlignUp;
    var n := |nodes| - 1;
    var before := Blob(nodes[..n]);
    AlignUpIsLeast(|before|, nodes[n].alignment);
    HoldsParts(data, at, before, Zeros(Gap(|before|, nodes[n].alignment)), nodes[n].data);
    if i < n {
      DataThere(data, at, nodes[..n], i);
      assert nodes[..n][..i] == nodes[..i];
    }
  }

  lemma {:induction false} CStringBack(data: Bytes, at: nat, name: string)
    requires Named(name) && Holds(data, at, BytesOf(name) + [0])
    ensures CString(data, at) == Some(name)
    decreases |name|
  {
    var bytes := BytesOf(name) + [0];
    assert data[at..at + |bytes|][0] == data[at];
    if name != "" {
      assert bytes == [bytes[0]] + (BytesOf(name[1..]) + [0]);
      HoldsSplit(data, at, [bytes[0]], BytesOf(name[1..]) + [0]);
      CStringBack(data, at + 1, name[1..]);
      assert [name[0]] + name[1..] == name;
    }
  }

  lemma NameBack(data: Bytes, at: nat, name: string)
    requires Named(name) && Holds(data, at, NameBytes(name))
    ensures CString(data, at) == Some(name)
  {
    hide CString;
    var text := BytesOf(name) + [0];
    HoldsSplit(data, at, text, Zeros(Padding(|text|)));
    CStringBack(data, at, name);
  }

  lemma FlagBack(offset: nat)
    requires offset < NAMED_FLAG
    ensures Flagged(offset) < WORD && Flagged(offset) / NAMED_FLAG % 2 == 1 && Flagged(offset) % NAMED_FLAG == offset
  {
  }

  lemma NodeBack(data: Bytes, nodes: seq<Node>, i: nat, names: nat, dataOffset: nat)
    requires i < |nodes| && |data| < WORD && Named(nodes[i].name) && NodeThere(data, nodes, i, names, dataOffset)
    ensures ParseNode(data, 0x20 + 16 * i, names, dataOffset) == Some((Entry(nodes[i].name, nodes[i].data), dataOffset + Start(nodes, i)))
  {
    hide Number, NumberAt, Reader.Number, Holds, NameBytes, Flagged, CString, NameOffset, Start;
    var at := 0x20 + 16 * i;
    var hash, attributes, start, end := Number(false, nodes[i].hash, 4), Number(false, Flagged(NameOffset(nodes, i)), 4),
                                        Number(false, Start(nodes, i), 4), Number(false, End(nodes, i), 4);
    HoldsParts(data, at, hash + attributes, start, end);
    HoldsSplit(data, at, hash, attributes);
    FlagBack(NameOffset(nodes, i));
    Powers();
    Fit(data, dataOffset + Start(nodes, i), nodes[i].data);
    NumberHeld(data, false, [], [], at + 4, Flagged(NameOffset(nodes, i)), 4);
    NumberHeld(data, false, [], [], at + 8, Start(nodes, i), 4);
    NumberHeld(data, false, [], [], at + 12, End(nodes, i), 4);
    NameBack(data, names + 4 * NameOffset(nodes, i), nodes[i].name);
  }

  lemma Fit(data: Bytes, at: nat, bytes: Bytes)
    requires Holds(data, at, bytes)
    ensures at + |bytes| <= |data| && data[at..at + |bytes|] == bytes
  {
  }

  lemma {:induction false} NodesBack(data: Bytes, nodes: seq<Node>, i: nat, names: nat, dataOffset: nat, minimum: nat)
    requires i <= |nodes| && |data| < WORD && forall j :: i <= j < |nodes| ==> Named(nodes[j].name) && NodeThere(data, nodes, j, names, dataOffset)
    ensures ParseNodes(data, 0x20 + 16 * i, |nodes| - i, names, dataOffset, minimum)
            == Some((EntriesFrom(nodes, i), MinimumFrom(nodes, dataOffset, i, minimum)))
    decreases |nodes| - i
  {
    hide ParseNode, NodeThere, Named, Start, Gcd;
    if i < |nodes| {
      NodeBack(data, nodes, i, names, dataOffset);
      NodesBack(data, nodes, i + 1, names, dataOffset, Gcd(minimum, (dataOffset + Start(nodes, i)) % WORD));
    }
  }

  lemma HeadersSizeIs(nodes: seq<Node>, key: nat)
    requires Positive(nodes)
    ensures |Headers(nodes, key)| == HeadersSize(nodes)
  {
    hide SarcHeader, SfatHeader, NameTable;
  }

  /** Where the parts of an archive are. */
  lemma PartsThere(nodes: seq<Node>, key: nat)
    requires Positive(nodes)
    ensures var data := Archive(nodes, key);
            && Holds(data, 0, SarcHeader(DataOffset(nodes) + |Blob(nodes)|, DataOffset(nodes))) && Holds(data, 20, SfatHeader(|nodes|, key))
            && Holds(data, 32, NodeTable(nodes, |nodes|)) && Holds(data, 32 + 16 * |nodes|, SfntHeader())
            && Holds(data, 40 + 16 * |nodes|, NameTable(nodes)) && Holds(data, DataOffset(nodes), Blob(nodes))
            && DataOffset(nodes) <= |data|
  {
    hide SarcHeader, SfatHeader, NameTable, Holds, SfntHeader, NodeTable, AlignUp, CommonAlignment, Blob;
    var data := Archive(nodes, key);
    AlignUpIsLeast(HeadersSize(nodes), CommonAlignment(nodes));
    HeadersSizeIs(nodes, key);
    HoldsAll(data);
    var a, b, c, d, e := SarcHeader(DataOffset(nodes) + |Blob(nodes)|, DataOffset(nodes)), SfatHeader(|nodes|, key), NodeTable(nodes, |nodes|),
                         SfntHeader(), NameTable(nodes);
    HoldsParts(data, 0, Headers(nodes, key), Zeros(Gap(HeadersSize(nodes), CommonAlignment(nodes))), Blob(nodes));
    HoldsSplit(data, 0, a + b + c + d, e);
    HoldsFour(data, 0, a, b, c, d);
    HoldsSplit(data, 0, a + b + c, d);
  }

  lemma HoldsAll(data: Bytes)
    ensures Holds(data, 0, data)
  {
  }

  lemma NodesThere(nodes: seq<Node>, key: nat, i: nat)
    requires InRange(nodes, key) && i < |nodes|
    ensures NodeThere(Archive(nodes, key), nodes, i, 40 + 16 * |nodes|, DataOffset(nodes))
  {
    hide Holds, NodeTable, NameTable, Blob, Archive, DataOffset, NameBytes, NodeEntry, Start;
    PartsThere(nodes, key);
    var data := Archive(nodes, key);
    EntryThere(data, 32, nodes, |nodes|, i);
    NameThere(data, 40 + 16 * |nodes|, nodes, i);
    DataThere(data, DataOffset(nodes), nodes, i);
  }

  lemma HeaderBack(data: Bytes, fileSize: nat, dataOffset: nat)
    requires Holds(data, 0, SarcHeader(fileSize, dataOffset)) && dataOffset < WORD
    ensures MagicAt(data, 0, SARC) && WordAt(data, 6, 2) == Some(0xFEFF) && WordAt(data, 0x0C, 4) == Some(dataOffset)
  {
    hide Number, NumberAt, Reader.Number, Holds;
    var a, b, c, d, e, f := Number(false, SARC_HEADER, 2), Number(false, 0xFEFF, 2), Number(false, fileSize, 4), Number(false, dataOffset, 4),
                            Number(false, 0x0100, 2), Number(false, 0, 2);
    HoldsParts(data, 0, SARC + a + b + c + d, e, f);
    HoldsParts(data, 0, SARC + a + b, c, d);
    HoldsParts(data, 0, SARC, a, b);
    Fit(data, 0, SARC);
    Powers();
    NumberHeld(data, false, [], [], 6, 0xFEFF, 2);
    NumberHeld(data, false, [], [], 12, dataOffset, 4);
  }

  lemma SfatBack(data: Bytes, count: nat, key: nat)
    requires Holds(data, 20, SfatHeader(count, key)) && count < 0x1_0000 && key < WORD
    ensures MagicAt(data, SARC_HEADER, SFAT) && WordAt(data, 0x1A, 2) == Some(count) && WordAt(data, 0x1C, 4) == Some(key)
  {
    hide Number, NumberAt, Reader.Number, Holds;
    var a, b, c := Number(false, SFAT_HEADER, 2), Number(false, count, 2), Number(false, key, 4);
    HoldsParts(data, 20, SFAT + a, b, c);
    HoldsSplit(data, 20, SFAT, a);
    Fit(data, 20, SFAT);
    Powers();
    NumberHeld(data, false, [], [], 26, count, 2);
    NumberHeld(data, false, [], [], 28, key, 4);
  }

  lemma SfntBack(data: Bytes, at: nat)
    requires Holds(data, at, SfntHeader())
    ensures MagicAt(data, at, SFNT)
  {
    hide Number, Holds;
    HoldsParts(data, at, SFNT, Number(false, SFNT_HEADER, 2), Number(false, 0, 2));
    Fit(data, at, SFNT);
  }

  /** An archive read back has the files that were put into it, in the order of its table. */
  lemma ArchiveBack(nodes: seq<Node>, key: nat)
    requires InRange(nodes, key)
    ensures ParseArchive(Archive(nodes, key))
            == Some(Sarc(EntriesFrom(nodes, 0), key, MinimumFrom(nodes, DataOffset(nodes), 0, MIN_ALIGNMENT)))
  {
    hide Holds, NodeTable, NameTable, Blob, Archive, DataOffset, SarcHeader, SfatHeader, SfntHeader, WordAt, MagicAt, ParseNodes, NodeThere, Named,
         EntriesFrom, MinimumFrom;
    var data := Archive(nodes, key);
    PartsThere(nodes, key);
    HeaderBack(data, DataOffset(nodes) + |Blob(nodes)|, DataOffset(nodes));
    SfatBack(data, |nodes|, key);
    SfntBack(data, 32 + 16 * |nodes|);
    forall j | 0 <= j < |nodes|
      ensures Named(nodes[j].name) && NodeThere(data, nodes, j, 40 + 16 * |nodes|, DataOffset(nodes))
    {
      NodesThere(nodes, key, j);
    }
    NodesBack(data, nodes, 0, 40 + 16 * |nodes|, DataOffset(nodes), MIN_ALIGNMENT);
  }

  // ---------- the minimum alignment found again ----------

  /** What is found divides four and the place of every file. */
  lemma {:induction false} MinimumDivides(nodes: seq<Node>, dataOffset: nat, i: nat, minimum: nat)
    requires i <= |nodes| && minimum > 0 && forall j :: i <= j < |nodes| ==> dataOffset + Start(nodes, j) < WORD
    ensures var m := MinimumFrom(nodes, dataOffset, i, minimum);
            m > 0 && Divides(m, minimum) && forall j :: i <= j < |nodes| ==> Divides(m, dataOffset + Start(nodes, j))
    decreases |nodes| - i
  {
    hide Gcd, Start, Divides;
    if i < |nodes| {
      var at := dataOffset + Start(nodes, i);
      var g := Gcd(minimum, at);
      GcdPositive(minimum, at);
      GcdDivides(minimum, at);
      MinimumDivides(nodes, dataOffset, i + 1, g);
      var m := MinimumFrom(nodes, dataOffset, i + 1, g);
      DividesThrough(m, g, minimum);
      DividesThrough(m, g, at);
    } else {
      Itself(minimum);
    }
  }

  lemma Itself(n: nat)
    ensures Divides(n, n)
  {
    DividesBy(n, n, 1);
  }

  /** What divides four and the place of every file divides what is found. */
  lemma {:induction false} MinimumGreatest(nodes: seq<Node>, dataOffset: nat, i: nat, minimum: nat, d: nat)
    requires i <= |nodes| && Divides(d, minimum) && forall j :: i <= j < |nodes| ==> dataOffset + Start(nodes, j) < WORD
    requires forall j :: i <= j < |nodes| ==> Divides(d, dataOffset + Start(nodes, j))
    ensures Divides(d, MinimumFrom(nodes, dataOffset, i, minimum))
    decreases |nodes| - i
  {
    hide Gcd, Start, Divides;
    if i < |nodes| {
      var at := dataOffset + Start(nodes, i);
      assert Divides(d, at);
      GcdGreatest(minimum, at, d);
      MinimumGreatest(nodes, dataOffset, i + 1, Gcd(minimum, at), d);
    }
  }

  // ---------- building ----------

  function NameHash(name: string, key: nat): (hash: nat)
    ensures hash < WORD
  {
    if name == "" then 0 else (NameHash(name[..|name| - 1], key) * key + name[|name| - 1] as int) % WORD
  }

  /** How archives are put together: the tables of extensions, and the order of the files of a set, by hash and then name. */
  datatype Rules = Rules(extensions: Extensions, arrange: (set<string>, nat) -> seq<string>)

  ghost predicate Fair(rules: Rules) {
    Sensible(rules.extensions)
    && forall names: set<string>, key: nat :: Lists(rules.arrange(names, key), names) && ByHash(rules.arrange(names, key), key)
  }

  /** The order nodes have: by hash, and by name where two hashes are the same. */
  ghost predicate ByHash(names: seq<string>, key: nat) {
    forall i, j :: 0 <= i < j < |names| ==>
      NameHash(names[i], key) < NameHash(names[j], key)
      || (NameHash(names[i], key) == NameHash(names[j], key) && Conflicts.Less(names[i], names[j]))
  }

  function NodeOf(rules: Rules, files: map<string, Bytes>, name: string, key: nat, minimum: nat): Node
    requires minimum > 0 && Sensible(rules.extensions)
  {
    var data := if name in files then files[name] else [];
    Node(NameHash(name, key), name, data, FileAlignment(rules.extensions, name, data, minimum))
  }

  function NodesOf(rules: Rules, files: map<string, Bytes>, key: nat, minimum: nat): seq<Node>
    requires minimum > 0 && Sensible(rules.extensions)
  {
    var names := rules.arrange(files.Keys, key);
    seq(|names|, i requires 0 <= i < |names| => NodeOf(rules, files, names[i], key, minimum))
  }

  /** The files of an archive that was read. */
  function FilesOf(entries: seq<Entry>): map<string, Bytes> {
    if entries == [] then map[] else FilesOf(entries[..|entries| - 1])[entries[|entries| - 1].name := entries[|entries| - 1].data]
  }

  lemma NodesPositive(rules: Rules, files: map<string, Bytes>, key: nat, minimum: nat)
    requires minimum > 0 && Sensible(rules.extensions)
    ensures Positive(NodesOf(rules, files, key, minimum))
  {
    hide FileAlignment;
    var nodes := NodesOf(rules, files, key, minimum);
    forall i | 0 <= i < |nodes|
      ensures nodes[i].alignment > 0
    {
      FileAlignmentDivides(rules.extensions, nodes[i].name, nodes[i].data, minimum);
    }
  }

  lemma {:induction false} FilesOfEach(entries: seq<Entry>, files: map<string, Bytes>, name: string)
    requires forall i :: 0 <= i < |entries| ==> entries[i].name in files && files[entries[i].name] == entries[i].data
    ensures name in FilesOf(entries) <==> exists i :: 0 <= i < |entries| && entries[i].name == name
    ensures name in FilesOf(entries) ==> name in files && FilesOf(entries)[name] == files[name]
    decreases |entries|
  {
    if entries != [] {
      FilesOfEach(entries[..|entries| - 1], files, name);
    }
  }

  lemma {:induction false} EntryIs(nodes: seq<Node>, i: nat, k: nat)
    requires i <= |nodes|
    ensures |EntriesFrom(nodes, i)| == |nodes| - i
    ensures k < |nodes| - i ==> EntriesFrom(nodes, i)[k] == Entry(nodes[i + k].name, nodes[i + k].data)
    decreases |nodes| - i
  {
    if i < |nodes| { EntryIs(nodes, i + 1, if k > 0 then k - 1 else 0); }
  }

  /** The files come back. */
  lemma FilesBack(rules: Rules, files: map<string, Bytes>, key: nat, minimum: nat)
    requires minimum > 0 && Fair(rules)
    ensures FilesOf(EntriesFrom(NodesOf(rules, files, key, minimum), 0)) == files
  {
    hide FileAlignment, NameHash;
    var nodes, names := NodesOf(rules, files, key, minimum), rules.arrange(files.Keys, key);
    assert Lists(names, files.Keys);
    var entries := EntriesFrom(nodes, 0);
    EntryIs(nodes, 0, 0);
    forall i | 0 <= i < |entries|
      ensures entries[i].name == names[i] && names[i] in files && files[names[i]] == entries[i].data
    {
      EntryIs(nodes, 0, i);
      assert names[i] in names;
    }
    forall name
      ensures name in FilesOf(entries) <==> name in files
      ensures name in files ==> FilesOf(entries)[name] == files[name]
    {
      FilesOfEach(entries, files, name);
      if name in files {
        assert name in names;
        var i :| 0 <= i < |names| && names[i] == name;
        assert entries[i].name == name;
      }
    }
  }

  /** Rebuilding an archive from what was read of it gives the same bytes, although the minimum alignment found may be larger. */
  lemma RebuildSame(rules: Rules, files: map<string, Bytes>, key: nat, minimum: nat)
    requires Fair(rules) && minimum > 0 && Divides(minimum, MIN_ALIGNMENT)
    requires InRange(NodesOf(rules, files, key, minimum), key)
    ensures var nodes := NodesOf(rules, files, key, minimum);
            var sarc := ParseArchive(Archive(nodes, key));
            && sarc.Some? && sarc.value.key == key && FilesOf(sarc.value.entries) == files && sarc.value.minimum > 0
            && Divides(minimum, sarc.value.minimum) && Divides(sarc.value.minimum, MIN_ALIGNMENT)
            && Positive(NodesOf(rules, files, key, sarc.value.minimum))
            && Archive(NodesOf(rules, files, key, sarc.value.minimum), key) == Archive(nodes, key)
  {
    hide Archive, ParseArchive, NodesOf, FilesOf, InRange, MinimumFrom, Start, DataOffset;
    var nodes := NodesOf(rules, files, key, minimum);
    NodesPositive(rules, files, key, minimum);
    var m := MinimumFrom(nodes, DataOffset(nodes), 0, MIN_ALIGNMENT);
    ArchiveBack(nodes, key);
    FilesBack(rules, files, key, minimum);
    MinimumFound(rules, files, key, minimum, nodes, m);
    NodesPositive(rules, files, key, m);
    SameArchive(nodes, NodesOf(rules, files, key, m), key, m);
  }

  lemma MinimumFound(rules: Rules, files: map<string, Bytes>, key: nat, minimum: nat, nodes: seq<Node>, m: nat)
    requires Fair(rules) && minimum > 0 && Divides(minimum, MIN_ALIGNMENT) && nodes == NodesOf(rules, files, key, minimum) && InRange(nodes, key)
    requires m == MinimumFrom(nodes, DataOffset(nodes), 0, MIN_ALIGNMENT)
    ensures m > 0 && Divides(minimum, m) && Divides(m, MIN_ALIGNMENT) && Raised(nodes, NodesOf(rules, files, key, m), m)
    ensures forall i :: 0 <= i < |nodes| ==> Divides(m, DataOffset(nodes) + Start(nodes, i))
  {
    hide Archive, NodesOf, MinimumFrom, Start, DataOffset, NameTable;
    forall i | 0 <= i < |nodes|
      ensures DataOffset(nodes) + Start(nodes, i) < WORD && Divides(minimum, DataOffset(nodes) + Start(nodes, i))
    {
      PlaceFits(nodes, key, i);
      AtMinimum(rules, files, key, minimum, i);
    }
    MinimumDivides(nodes, DataOffset(nodes), 0, MIN_ALIGNMENT);
    MinimumGreatest(nodes, DataOffset(nodes), 0, MIN_ALIGNMENT, minimum);
    AllRaised(rules, files, key, minimum, m);
  }

  lemma PlaceFits(nodes: seq<Node>, key: nat, i: nat)
    requires InRange(nodes, key) && i < |nodes|
    ensures DataOffset(nodes) + Start(nodes, i) < WORD
  {
    hide Archive, Start, DataOffset, NameTable, NodeTable, Blob;
    NodesThere(nodes, key, i);
    Fit(Archive(nodes, key), DataOffset(nodes) + Start(nodes, i), nodes[i].data);
  }

  lemma AtMinimum(rules: Rules, files: map<string, Bytes>, key: nat, minimum: nat, i: nat)
    requires Fair(rules) && minimum > 0 && i < |NodesOf(rules, files, key, minimum)| && Positive(NodesOf(rules, files, key, minimum))
    ensures var nodes := NodesOf(rules, files, key, minimum); Divides(minimum, DataOffset(nodes) + Start(nodes, i))
  {
    hide FileAlignment, DataOffset, Start;
    var nodes := NodesOf(rules, files, key, minimum);
    var a := nodes[i].alignment;
    EveryFileAligned(nodes, i);
    DividesMod(a, DataOffset(nodes) + Start(nodes, i));
    FileAlignmentDivides(rules.extensions, nodes[i].name, nodes[i].data, minimum);
    DividesThrough(minimum, a, DataOffset(nodes) + Start(nodes, i));
  }

  lemma AllRaised(rules: Rules, files: map<string, Bytes>, key: nat, minimum: nat, m: nat)
    requires Fair(rules) && minimum > 0 && m > 0 && Divides(minimum, m)
    ensures Raised(NodesOf(rules, files, key, minimum), NodesOf(rules, files, key, m), m)
  {
    hide FileAlignment;
    NodesPositive(rules, files, key, minimum);
    NodesPositive(rules, files, key, m);
    var a, b := NodesOf(rules, files, key, minimum), NodesOf(rules, files, key, m);
    forall i | 0 <= i < |a|
      ensures RaisedTo(a[i].alignment, b[i].alignment, m)
    {
      CoarserMinimum(rules.extensions, a[i].name, a[i].data, minimum, m, 0);
      forall n: nat | Divides(a[i].alignment, n) && Divides(m, n)
        ensures Divides(b[i].alignment, n)
      {
        CoarserMinimum(rules.extensions, a[i].name, a[i].data, minimum, m, n);
      }
    }
  }

  lemma SameArchive(a: seq<Node>, b: seq<Node>, key: nat, m: nat)
    requires Raised(a, b, m) && Positive(a) && Positive(b) && forall i :: 0 <= i < |a| ==> Divides(m, DataOffset(a) + Start(a, i))
    ensures Archive(a, key) == Archive(b, key)
  {
    hide SarcHeader, SfatHeader, NameTable, SfntHeader, NodeTable, AlignUp, CommonAlignment, Blob;
    StartsMultiple(a, m);
    SameDataOffset(a, b, m);
    SameBlob(a, b, m);
    SameNames(a, b);
    SameTable(a, b, |a|);
    SameGap(a, b);
  }

  lemma SameGap(a: seq<Node>, b: seq<Node>)
    requires Positive(a) && Positive(b) && DataOffset(a) == DataOffset(b) && |a| == |b| && NameTable(a) == NameTable(b)
    ensures Gap(HeadersSize(a), CommonAlignment(a)) == Gap(HeadersSize(b), CommonAlignment(b))
  {
    hide AlignUp, CommonAlignment, NameTable;
  }

  lemma StartsMultiple(a: seq<Node>, m: nat)
    requires m > 0 && Positive(a) && forall i :: 0 <= i < |a| ==> Divides(m, DataOffset(a) + Start(a, i))
    ensures a != [] ==> Divides(m, DataOffset(a))
    ensures forall i :: 0 <= i < |a| ==> Divides(m, Start(a, i))
  {
    hide DataOffset;
    if a != [] {
      assert Divides(m, DataOffset(a) + Start(a, 0));
      FirstAtZero(a);
      forall i | 0 <= i < |a|
        ensures Divides(m, Start(a, i))
      {
        DividesSum(m, DataOffset(a) + Start(a, i), DataOffset(a));
      }
    }
  }

  lemma FirstAtZero(a: seq<Node>)
    requires a != [] && Positive(a)
    ensures Start(a, 0) == 0
  {
    DividesBy(a[0].alignment, 0, 0);
    AlignUpIsLeast(0, a[0].alignment);
    assert a[..0] == [];
  }

  lemma {:induction false} SameTable(a: seq<Node>, b: seq<Node>, n: nat)
    requires SameFiles(a, b) && n <= |a| && forall i :: 0 <= i < |a| ==> Start(a, i) == Start(b, i)
    ensures NodeTable(a, n) == NodeTable(b, n)
  {
    hide Start, NodeEntry;
    if n > 0 {
      SameTable(a, b, n - 1);
      SameEntry(a, b, n - 1);
    }
  }

  lemma SameEntry(a: seq<Node>, b: seq<Node>, i: nat)
    requires SameFiles(a, b) && i < |a| && Start(a, i) == Start(b, i)
    ensures NodeEntry(a, i) == NodeEntry(b, i)
  {
    hide Start, Flagged, NameTable, Number;
    SameNames(a[..i], b[..i]);
    assert NameOffset(a, i) == NameOffset(b, i) && End(a, i) == End(b, i);
  }

  // ---------- the builder ----------

  /** The name table, name by name. */
  method LayOutNames(nodes: seq<Node>) returns (table: Bytes, offsets: seq<nat>)
    ensures table == NameTable(nodes) && |offsets| == |nodes|
    ensures forall i :: 0 <= i < |nodes| ==> offsets[i] == NameOffset(nodes, i)
  {
    table, offsets := [], [];
    var n := 0;
    while n < |nodes|
      invariant 0 <= n <= |nodes| && table == NameTable(nodes[..n]) && |table| % 4 == 0 && |offsets| == n
      invariant forall i :: 0 <= i < n ==> offsets[i] == NameOffset(nodes, i)
    {
      assert nodes[..n + 1][..n] == nodes[..n];
      offsets := offsets + [|table| / 4];
      table := table + PaddedName(nodes[n].name, |table|);
      n := n + 1;
    }
    assert nodes[..n] == nodes;
  }

  /** A name ended and padded for the table it is appended to. */
  function PaddedName(name: string, length: nat): (bytes: Bytes)
    requires length % 4 == 0
    ensures bytes == NameBytes(name)
  {
    var text := BytesOf(name) + [0];
    SamePadding(length, 0, |text|);
    text + Zeros(Padding(length + |text|))
  }

  /** The data, file by file, and where each begins and ends. */
  method LayOutData(nodes: seq<Node>) returns (blob: Bytes, ranges: seq<(nat, nat)>)
    requires Positive(nodes)
    ensures blob == Blob(nodes) && |ranges| == |nodes|
    ensures forall i :: 0 <= i < |nodes| ==> ranges[i] == (Start(nodes, i), End(nodes, i))
  {
    hide AlignUp;
    blob, ranges := [], [];
    var n := 0;
    while n < |nodes|
      invariant 0 <= n <= |nodes| && blob == Blob(nodes[..n]) && |ranges| == n
      invariant forall i :: 0 <= i < n ==> ranges[i] == (Start(nodes, i), End(nodes, i))
    {
      BlobGrows(nodes, n);
      var relative := AlignUp(|blob|, nodes[n].alignment);
      blob := blob + Zeros(relative - |blob|);
      var start := |blob|;
      blob := blob + nodes[n].data;
      ranges := ranges + [(start, |blob|)];
      n := n + 1;
    }
    assert nodes[..n] == nodes;
  }

  method FindCommon(nodes: seq<Node>) returns (alignment: nat)
    requires Positive(nodes)
    ensures alignment == CommonAlignment(nodes)
  {
    hide Lcm;
    alignment := 1;
    var n := 0;
    while n < |nodes|
      invariant 0 <= n <= |nodes| && alignment == CommonAlignment(nodes[..n]) && alignment > 0
    {
      assert nodes[..n + 1][..n] == nodes[..n];
      alignment := Lcm(alignment, nodes[n].alignment);
      n := n + 1;
    }
    assert nodes[..n] == nodes;
  }

  method LayOutNodes(nodes: seq<Node>, offsets: seq<nat>, ranges: seq<(nat, nat)>) returns (table: Bytes)
    requires |offsets| == |ranges| == |nodes|
    requires forall i :: 0 <= i < |nodes| ==> offsets[i] == NameOffset(nodes, i) && ranges[i] == (Start(nodes, i), End(nodes, i))
    ensures table == NodeTable(nodes, |nodes|)
  {
    hide NameOffset, Start, End, Number;
    table := [];
    var n := 0;
    while n < |nodes|
      invariant 0 <= n <= |nodes| && table == NodeTable(nodes, n)
    {
      table := table + (Number(false, nodes[n].hash, 4) + Number(false, Flagged(offsets[n]), 4)
                        + Number(false, ranges[n].0, 4) + Number(false, ranges[n].1, 4));
      n := n + 1;
    }
  }

  class SarcBuilder {
    var files: map<string, Bytes>
    var key: nat
    var minimum: nat

    constructor ()
      ensures files == map[] && key == 0x65 && minimum == MIN_ALIGNMENT
    {
      files, key, minimum := map[], 0x65, MIN_ALIGNMENT;
    }

    /** Every file of an archive that was read, with its hash key and the minimum alignment found. */
    constructor FromSarc(sarc: Sarc)
      ensures files == FilesOf(sarc.entries) && key == sarc.key && minimum == sarc.minimum
    {
      key, minimum := sarc.key, sarc.minimum;
      files := map[];
      new;
      var i := 0;
      while i < |sarc.entries|
        invariant 0 <= i <= |sarc.entries| && files == FilesOf(sarc.entries[..i]) && key == sarc.key && minimum == sarc.minimum
      {
        assert sarc.entries[..i + 1][..i] == sarc.entries[..i];
        Insert(sarc.entries[i].name, sarc.entries[i].data);
        i := i + 1;
      }
      assert sarc.entries[..i] == sarc.entries;
    }

    method Insert(name: string, data: Bytes)
      modifies this`files
      ensures files == old(files)[name := data]
    {
      files := files[name := data];
    }

    method Remove(name: string)
      modifies this`files
      ensures files == old(files) - {name}
    {
      files := files - {name};
    }

    method Build(rules: Rules) returns (out: Bytes)
      requires minimum > 0 && Fair(rules)
      ensures Positive(NodesOf(rules, files, key, minimum)) && out == Archive(NodesOf(rules, files, key, minimum), key)
    {
      hide Number, NameTable, Blob, NodeTable, AlignUp, CommonAlignment, SarcHeader, SfatHeader, SfntHeader;
      NodesPositive(rules, files, key, minimum);
      var nodes := NodesOf(rules, files, key, minimum);
      var names, offsets := LayOutNames(nodes);
      var common := FindCommon(nodes);
      var headersSize := SARC_HEADER + SFAT_HEADER + |nodes| * 16 + SFNT_HEADER + |names|;
      var dataOffset := AlignUp(headersSize, common);
      var blob, ranges := LayOutData(nodes);
      var table := LayOutNodes(nodes, offsets, ranges);
      out := SarcHeader(dataOffset + |blob|, dataOffset) + SfatHeader(|nodes|, key) + table + SfntHeader() + names;
      HeadersSizeIs(nodes, key);
      AlignUpIsLeast(headersSize, common);
      out := out + Zeros(dataOffset - |out|);
      out := out + blob;
    }
  }

  /** A builder seeded with an archive writes that archive. */
  method Rebuild(rules: Rules, builder: SarcBuilder) returns (first: Bytes, second: Bytes)
    requires Fair(rules) && builder.minimum > 0 && Divides(builder.minimum, MIN_ALIGNMENT)
    requires InRange(NodesOf(rules, builder.files, builder.key, builder.minimum), builder.key)
    ensures first == Archive(NodesOf(rules, builder.files, builder.key, builder.minimum), builder.key)
    ensures second == first
  {
    hide Archive, ParseArchive, NodesOf, FilesOf, InRange;
    first := builder.Build(rules);
    RebuildSame(rules, builder.files, builder.key, builder.minimum);
    var sarc := Parse(first);
    var again := new SarcBuilder.FromSarc(sarc.value);
    second := again.Build(rules);
  }

  method Parse(data: Bytes) returns (r: Option<Sarc>)
    ensures r == ParseArchive(data)
  {
    hide MagicAt, WordAt, ParseNodes;
    if !MagicAt(data, 0, SARC) { return None; }
    var bom, dataOffset := WordAt(data, 6, 2), WordAt(data, 0x0C, 4);
    var count, key := WordAt(data, 0x1A, 2), WordAt(data, 0x1C, 4);
    if bom.None? || dataOffset.None? || count.None? || key.None? || bom.value != 0xFEFF { return None; }
    if !MagicAt(data, SARC_HEADER, SFAT) || !MagicAt(data, 0x20 + count.value * 16, SFNT) { return None; }
    var nodes := ReadNodes(data, count.value, 0x20 + count.value * 16 + SFNT_HEADER, dataOffset.value);
    match nodes
    case None => return None;
    case Some((entries, minimum)) => return Some(Sarc(entries, key.value, minimum));
  }
}
