/** SARC archives: where files and names go, and what reading one back finds.  A name is its UTF-8 bytes,
    a byte a character. */
module Archives {
  import opened Documents
  import opened BymlFormat
  import opened BymlTables
  import opened Alignment

  // ---------- alignment of a file ----------

  /** What the tables of extensions say: the alignment of an extension (one if it has none of its own), and
      whether files with it declare one in their header. */
  datatype Extensions = Extensions(alignment: string -> nat, declares: string -> bool)

  ghost predicate Sensible(extensions: Extensions) {
    forall ext :: extensions.alignment(ext) > 0
  }

  function AfterLast(text: string, mark: char): Option<string>
    decreases |text|
  {
    if text == [] then None
    else
      match AfterLast(text[1..], mark)
      case Some(rest) => Some(rest)
      case None => if text[0] == mark then Some(text[1..]) else None
  }

  function Extension(name: string): string {
    var fileName := match AfterLast(name, '/') case Some(rest) => rest case None => name;
    match AfterLast(fileName, '.') case Some(ext) => ext case None => ""
  }

  function Shifted(n: nat): (p: nat)
    ensures p > 0
  {
    if n == 0 then 1 else 2 * Shifted(n - 1)
  }

  /** The alignment a Nintendo binary file declares. */
  function DeclaredAlignment(data: Bytes): (alignment: nat)
    ensures alignment > 0
  {
    if |data| <= 0x20 then 1
    else
      var big := data[0x0C] == 0xFE && data[0x0D] == 0xFF;
      var size := Signed(NumberAt(big, data[0x1C..0x20]), WORD);
      if size != |data| || data[0x0E] > 31 then 1 else Shifted(data[0x0E])
  }

  function FileAlignment(extensions: Extensions, name: string, data: Bytes, minimum: nat): nat
    requires minimum > 0 && Sensible(extensions)
  {
    var ext := Extension(name);
    LcmIsMultiple(minimum, extensions.alignment(ext));
    var result := Lcm(minimum, extensions.alignment(ext));
    if extensions.declares(ext) then Lcm(result, DeclaredAlignment(data)) else result
  }

  lemma FileAlignmentDivides(extensions: Extensions, name: string, data: Bytes, minimum: nat)
    requires minimum > 0 && Sensible(extensions)
    ensures FileAlignment(extensions, name, data, minimum) > 0 && Divides(minimum, FileAlignment(extensions, name, data, minimum))
  {
    hide DeclaredAlignment, Lcm;
    var ext := Extension(name);
    var result := Lcm(minimum, extensions.alignment(ext));
    LcmIsMultiple(minimum, extensions.alignment(ext));
    LcmIsMultiple(result, DeclaredAlignment(data));
    DividesThrough(minimum, result, Lcm(result, DeclaredAlignment(data)));
  }

  /** With a larger minimum the alignment only grows, and not past any common multiple. */
  lemma CoarserMinimum(extensions: Extensions, name: string, data: Bytes, fine: nat, coarse: nat, n: int)
    requires fine > 0 && coarse > 0 && Sensible(extensions) && Divides(fine, coarse)
    ensures Divides(FileAlignment(extensions, name, data, fine), FileAlignment(extensions, name, data, coarse))
    ensures Divides(FileAlignment(extensions, name, data, fine), n) && Divides(coarse, n)
            ==> Divides(FileAlignment(extensions, name, data, coarse), n)
  {
    hide DeclaredAlignment, Lcm, Extension;
    var ext := Extension(name);
    var own, declared := extensions.alignment(ext), DeclaredAlignment(data);
    LcmIsMultiple(fine, own);
    LcmIsMultiple(coarse, own);
    CoarserLcm(fine, coarse, own, n);
    if extensions.declares(ext) {
      LcmIsMultiple(Lcm(fine, own), declared);
      if Divides(Lcm(Lcm(fine, own), declared), n) {
        DividesThrough(Lcm(fine, own), Lcm(Lcm(fine, own), declared), n);
      }
      CoarserLcm(Lcm(fine, own), Lcm(coarse, own), declared, n);
    }
  }

  lemma CoarserLcm(fine: nat, coarse: nat, b: nat, n: int)
    requires fine > 0 && coarse > 0 && b > 0 && Divides(fine, coarse)
    ensures Divides(Lcm(fine, b), Lcm(coarse, b))
    ensures Divides(Lcm(fine, b), n) && Divides(coarse, n) ==> Divides(Lcm(coarse, b), n)
  {
    hide Lcm;
    LcmIsMultiple(fine, b);
    LcmIsMultiple(coarse, b);
    DividesThrough(fine, coarse, Lcm(coarse, b));
    LcmLeast(fine, b, Lcm(coarse, b));
    if Divides(Lcm(fine, b), n) && Divides(coarse, n) {
      DividesThrough(b, Lcm(fine, b), n);
      LcmLeast(coarse, b, n);
    }
  }

  // ---------- where files go ----------

  datatype Node = Node(hash: nat, name: string, data: Bytes, alignment: nat)

  /** The data of the files, each at a multiple of its alignment. */
  function Blob(nodes: seq<Node>): Bytes {
    if nodes == [] then []
    else
      var before := Blob(nodes[..|nodes| - 1]);
      before + Zeros(Gap(|before|, nodes[|nodes| - 1].alignment)) + nodes[|nodes| - 1].data
  }

  function Gap(value: nat, alignment: nat): nat {
    if AlignUp(value, alignment) > value then AlignUp(value, alignment) - value else 0
  }

  function Start(nodes: seq<Node>, i: nat): nat
    requires i < |nodes|
  {
    AlignUp(|Blob(nodes[..i])|, nodes[i].alignment)
  }

  function End(nodes: seq<Node>, i: nat): nat
    requires i < |nodes|
  {
    Start(nodes, i) + |nodes[i].data|
  }

  /** Each name ended by a zero and padded to four bytes. */
  function NameTable(nodes: seq<Node>): Bytes {
    if nodes == [] then []
    else NameTable(nodes[..|nodes| - 1]) + NameBytes(nodes[|nodes| - 1].name)
  }

  function NameBytes(name: string): (bytes: Bytes)
    ensures |bytes| % 4 == 0 && |bytes| > |name|
  {
    var text := BytesOf(name) + [0];
    text + Zeros(Padding(|text|))
  }

  function NameOffset(nodes: seq<Node>, i: nat): nat
    requires i < |nodes|
  {
    |NameTable(nodes[..i])| / 4
  }

  function CommonAlignment(nodes: seq<Node>): (alignment: nat)
    requires forall i :: 0 <= i < |nodes| ==> nodes[i].alignment > 0
    ensures alignment > 0
  {
    if nodes == [] then 1
    else
      var before := CommonAlignment(nodes[..|nodes| - 1]);
      LcmIsMultiple(before, nodes[|nodes| - 1].alignment);
      Lcm(before, nodes[|nodes| - 1].alignment)
  }

  lemma {:induction false} CommonDivides(nodes: seq<Node>, i: nat)
    requires i < |nodes| && forall i :: 0 <= i < |nodes| ==> nodes[i].alignment > 0
    ensures Divides(nodes[i].alignment, CommonAlignment(nodes))
    decreases |nodes|
  {
    hide Lcm;
    var n := |nodes| - 1;
    var before := CommonAlignment(nodes[..n]);
    LcmIsMultiple(before, nodes[n].alignment);
    if i < n {
      CommonDivides(nodes[..n], i);
      DividesThrough(nodes[i].alignment, before, CommonAlignment(nodes));
    }
  }

  const SARC_HEADER := 0x14
  const SFAT_HEADER := 0x0C
  const SFNT_HEADER := 0x08
  const NAMED_FLAG := 0x100_0000

  function HeadersSize(nodes: seq<Node>): nat {
    SARC_HEADER + SFAT_HEADER + |nodes| * 16 + SFNT_HEADER + |NameTable(nodes)|
  }

  function DataOffset(nodes: seq<Node>): nat
    requires forall i :: 0 <= i < |nodes| ==> nodes[i].alignment > 0
  {
    AlignUp(HeadersSize(nodes), CommonAlignment(nodes))
  }

  // ---------- every file on its boundary ----------

  lemma BlobGrows(nodes: seq<Node>, i: nat)
    requires i < |nodes| && nodes[i].alignment > 0
    ensures Blob(nodes[..i + 1]) == Blob(nodes[..i]) + Zeros(Start(nodes, i) - |Blob(nodes[..i])|) + nodes[i].data
    ensures |Blob(nodes[..i])| <= Start(nodes, i) && |Blob(nodes[..i + 1])| == End(nodes, i)
  {
    AlignUpIsLeast(|Blob(nodes[..i])|, nodes[i].alignment);
    assert nodes[..i + 1][..i] == nodes[..i];
  }

  /** The place of a file in the archive is a multiple of its alignment. */
  lemma EveryFileAligned(nodes: seq<Node>, i: nat)
    requires i < |nodes| && forall i :: 0 <= i < |nodes| ==> nodes[i].alignment > 0
    ensures (DataOffset(nodes) + Start(nodes, i)) % nodes[i].alignment == 0
  {
    hide AlignUp, CommonAlignment;
    var a := nodes[i].alignment;
    AlignUpIsLeast(HeadersSize(nodes), CommonAlignment(nodes));
    CommonDivides(nodes, i);
    DividesThrough(a, CommonAlignment(nodes), DataOffset(nodes));
    AlignUpIsLeast(|Blob(nodes[..i])|, a);
    DividesSum(a, DataOffset(nodes), Start(nodes, i));
    DividesMod(a, DataOffset(nodes) + Start(nodes, i));
  }

  // ---------- coarser alignments that are met anyway change nothing ----------

  ghost predicate SameFiles(a: seq<Node>, b: seq<Node>) {
    |a| == |b| && forall i :: 0 <= i < |a| ==> a[i].hash == b[i].hash && a[i].name == b[i].name && a[i].data == b[i].data
  }

  /** Alignments of `b` are those of `a` raised to multiples of `m`. */
  ghost predicate Raised(a: seq<Node>, b: seq<Node>, m: nat) {
    SameFiles(a, b) && m > 0
    && forall i :: 0 <= i < |a| ==> a[i].alignment > 0 && b[i].alignment > 0 && RaisedTo(a[i].alignment, b[i].alignment, m)
  }

  ghost predicate RaisedTo(fine: nat, coarse: nat, m: nat) {
    Divides(fine, coarse) && forall n: nat :: Divides(fine, n) && Divides(m, n) ==> Divides(coarse, n)
  }

  lemma {:induction false} SameBlob(a: seq<Node>, b: seq<Node>, m: nat)
    requires Raised(a, b, m) && forall i :: 0 <= i < |a| ==> Divides(m, Start(a, i))
    ensures Blob(a) == Blob(b) && forall i :: 0 <= i < |a| ==> Start(a, i) == Start(b, i)
    decreases |a|
  {
    hide AlignUp, Start, Blob, Divides;
    if a != [] {
      var n := |a| - 1;
      forall i | 0 <= i < n
        ensures Divides(m, Start(a[..n], i)) && Start(a[..n], i) == Start(a, i) && Start(b[..n], i) == Start(b, i)
      {
        StartOfPrefix(a, n, i);
        StartOfPrefix(b, n, i);
        assert Divides(m, Start(a, i));
      }
      SameBlob(a[..n], b[..n], m);
      SameLast(a, b, m);
    }
  }

  lemma StartOfPrefix(a: seq<Node>, n: nat, i: nat)
    requires i < n <= |a|
    ensures Start(a[..n], i) == Start(a, i)
  {
    assert a[..n][..i] == a[..i];
  }

  lemma SameLast(a: seq<Node>, b: seq<Node>, m: nat)
    requires Raised(a, b, m) && a != [] && Blob(a[..|a| - 1]) == Blob(b[..|b| - 1]) && Divides(m, Start(a, |a| - 1))
    ensures Blob(a) == Blob(b) && Start(a, |a| - 1) == Start(b, |b| - 1)
  {
    hide AlignUp, Divides;
    var n := |a| - 1;
    var size := |Blob(a[..n])|;
    AlignUpIsLeast(size, a[n].alignment);
    assert RaisedTo(a[n].alignment, b[n].alignment, m);
    SameRounding(size, a[n].alignment, b[n].alignment);
  }

  lemma {:induction false} SameNames(a: seq<Node>, b: seq<Node>)
    requires SameFiles(a, b)
    ensures NameTable(a) == NameTable(b)
    decreases |a|
  {
    hide NameBytes;
    if a != [] { SameNames(a[..|a| - 1], b[..|b| - 1]); }
  }

  lemma {:induction false} RaisedCommon(a: seq<Node>, b: seq<Node>, m: nat)
    requires Raised(a, b, m)
    ensures Divides(CommonAlignment(a), CommonAlignment(b))
    ensures forall n: nat :: Divides(CommonAlignment(a), n) && Divides(m, n) ==> Divides(CommonAlignment(b), n)
    decreases |a|
  {
    hide Lcm;
    if a != [] {
      var k := |a| - 1;
      var x, y := a[k].alignment, b[k].alignment;
      RaisedCommon(a[..k], b[..k], m);
      RaisedLcm(CommonAlignment(a[..k]), CommonAlignment(b[..k]), x, y, m);
    } else {
      DividesBy(1, 1, 1);
    }
  }

  lemma RaisedLcm(p: nat, q: nat, x: nat, y: nat, m: nat)
    requires p > 0 && q > 0 && x > 0 && y > 0 && RaisedTo(p, q, m) && RaisedTo(x, y, m)
    ensures RaisedTo(Lcm(p, x), Lcm(q, y), m)
  {
    hide Lcm;
    LcmIsMultiple(p, x);
    LcmIsMultiple(q, y);
    DividesThrough(p, q, Lcm(q, y));
    DividesThrough(x, y, Lcm(q, y));
    LcmLeast(p, x, Lcm(q, y));
    forall n: nat | Divides(Lcm(p, x), n) && Divides(m, n)
      ensures Divides(Lcm(q, y), n)
    {
      DividesThrough(p, Lcm(p, x), n);
      DividesThrough(x, Lcm(p, x), n);
      LcmLeast(q, y, n);
    }
  }

  lemma SameDataOffset(a: seq<Node>, b: seq<Node>, m: nat)
    requires Raised(a, b, m) && (a != [] ==> Divides(m, DataOffset(a)))
    ensures DataOffset(a) == DataOffset(b)
  {
    hide AlignUp;
    SameNames(a, b);
    RaisedCommon(a, b, m);
    AlignUpIsLeast(HeadersSize(a), CommonAlignment(a));
    if a != [] {
      SameRounding(HeadersSize(a), CommonAlignment(a), CommonAlignment(b));
    }
  }
}
