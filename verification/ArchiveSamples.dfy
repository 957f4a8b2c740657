/** An archive of two files and the headers of frames, byte by byte. */
module ArchiveSamples {
  import opened Documents
  import opened BymlFormat
  import opened BymlTables
  import opened Alignment
  import opened Archives
  import opened ArchiveFiles
  import opened StoredFrames

  // ---------- numbers ----------

  lemma LittleStep(a: Byte, rest: nat, n: nat)
    ensures Number(false, a + 256 * rest, n + 1) == [a] + Number(false, rest, n)
  {
    assert (a + 256 * rest) % 256 == a && (a + 256 * rest) / 256 == rest;
  }

  lemma LittleTwo(a: Byte, b: Byte)
    ensures Number(false, a + 256 * b, 2) == [a, b]
  {
    hide Number;
    LittleStep(a, b, 1);
    LittleStep(b, 0, 0);
    var none := Number(false, 0, 0);
    assert [b] + none == [b];
  }

  lemma LittleThree(a: Byte, b: Byte, c: Byte)
    ensures Number(false, a + 256 * b + 0x1_0000 * c, 3) == [a, b, c]
  {
    hide Number;
    LittleStep(a, b + 256 * c, 2);
    LittleTwo(b, c);
  }

  lemma LittleFour(a: Byte, b: Byte, c: Byte, d: Byte)
    ensures Number(false, a + 256 * b + 0x1_0000 * c + 0x100_0000 * d, 4) == [a, b, c, d]
  {
    hide Number;
    LittleStep(a, b + 256 * c + 0x1_0000 * d, 3);
    LittleThree(b, c, d);
  }

  // ---------- an archive ----------

  function TwoFiles(): seq<Node> { [Node(0x1122_3344, "a.b", [7, 8, 9], 4), Node(0x5566_7788, "c", [10], 8)] }

  lemma HeaderBytes()
    ensures SarcHeader(89, 80)
            == [0x53, 0x41, 0x52, 0x43, 0x14, 0, 0xFF, 0xFE, 89, 0, 0, 0, 80, 0, 0, 0, 0, 1, 0, 0]
    ensures SfatHeader(2, 0x65) == [0x53, 0x46, 0x41, 0x54, 0x0C, 0, 2, 0, 0x65, 0, 0, 0]
    ensures SfntHeader() == [0x53, 0x46, 0x4E, 0x54, 8, 0, 0, 0]
  {
    hide Number;
    LittleTwo(0x14, 0);
    LittleTwo(0xFF, 0xFE);
    LittleFour(89, 0, 0, 0);
    LittleFour(80, 0, 0, 0);
    LittleTwo(0, 1);
    LittleTwo(0, 0);
    LittleTwo(0x0C, 0);
    LittleTwo(2, 0);
    LittleFour(0x65, 0, 0, 0);
    LittleTwo(8, 0);
  }

  lemma NamesLaidOut()
    ensures NameTable(TwoFiles()) == [0x61, 0x2E, 0x62, 0, 0x63, 0, 0, 0]
    ensures NameOffset(TwoFiles(), 0) == 0 && NameOffset(TwoFiles(), 1) == 1
  {
    var nodes := TwoFiles();
    assert nodes[..0] == [] && nodes[..1][..0] == [] && nodes[..2] == nodes;
    assert NameBytes("a.b") == [0x61, 0x2E, 0x62, 0];
    assert NameBytes("c") == [0x63, 0, 0, 0];
    assert NameTable(nodes[..1]) == NameTable(nodes[..0]) + NameBytes("a.b");
  }

  lemma DataLaidOut()
    ensures Blob(TwoFiles()) == [7, 8, 9, 0, 0, 0, 0, 0, 10]
    ensures Start(TwoFiles(), 0) == 0 && End(TwoFiles(), 0) == 3 && Start(TwoFiles(), 1) == 8 && End(TwoFiles(), 1) == 9
  {
    var nodes := TwoFiles();
    assert nodes[..0] == [] && nodes[..1][..0] == [] && nodes[..2] == nodes;
    assert Blob(nodes[..1]) == [7, 8, 9];
  }

  lemma SharedBoundary()
    ensures CommonAlignment(TwoFiles()) == 8
  {
    var nodes := TwoFiles();
    assert nodes[..1][..0] == [] && nodes[..2] == nodes;
    assert CommonAlignment(nodes[..0]) == 1;
    assert Gcd(1, 4) == 1 && Gcd(4, 8) == 4 by { assert Gcd(4, 1) == Gcd(1, 0) && Gcd(8, 4) == Gcd(4, 0); }
    assert CommonAlignment(nodes[..1]) == 4;
  }

  lemma FirstNode()
    ensures NodeEntry(TwoFiles(), 0) == [0x44, 0x33, 0x22, 0x11, 0, 0, 0, 1, 0, 0, 0, 0, 3, 0, 0, 0]
  {
    hide Number, NameOffset, Start, End;
    NamesLaidOut();
    DataLaidOut();
    LittleFour(0x44, 0x33, 0x22, 0x11);
    LittleFour(0, 0, 0, 1);
    LittleFour(0, 0, 0, 0);
    LittleFour(3, 0, 0, 0);
  }

  lemma SecondNode()
    ensures NodeEntry(TwoFiles(), 1) == [0x88, 0x77, 0x66, 0x55, 1, 0, 0, 1, 8, 0, 0, 0, 9, 0, 0, 0]
  {
    hide Number, NameOffset, Start, End;
    NamesLaidOut();
    DataLaidOut();
    LittleFour(0x88, 0x77, 0x66, 0x55);
    LittleFour(1, 0, 0, 1);
    LittleFour(8, 0, 0, 0);
    LittleFour(9, 0, 0, 0);
  }

  lemma NodesLaidOut()
    ensures NodeTable(TwoFiles(), 2)
            == [0x44, 0x33, 0x22, 0x11, 0, 0, 0, 1, 0, 0, 0, 0, 3, 0, 0, 0]
               + [0x88, 0x77, 0x66, 0x55, 1, 0, 0, 1, 8, 0, 0, 0, 9, 0, 0, 0]
  {
    hide NodeEntry;
    FirstNode();
    SecondNode();
    var nodes := TwoFiles();
    assert NodeTable(nodes, 0) == [];
    assert NodeTable(nodes, 1) == NodeEntry(nodes, 0);
  }

  lemma ArchiveSample()
    ensures Archive(TwoFiles(), 0x65)
            == [0x53, 0x41, 0x52, 0x43, 0x14, 0, 0xFF, 0xFE, 89, 0, 0, 0, 80, 0, 0, 0, 0, 1, 0, 0]
               + [0x53, 0x46, 0x41, 0x54, 0x0C, 0, 2, 0, 0x65, 0, 0, 0]
               + [0x44, 0x33, 0x22, 0x11, 0, 0, 0, 1, 0, 0, 0, 0, 3, 0, 0, 0]
               + [0x88, 0x77, 0x66, 0x55, 1, 0, 0, 1, 8, 0, 0, 0, 9, 0, 0, 0]
               + [0x53, 0x46, 0x4E, 0x54, 8, 0, 0, 0] + [0x61, 0x2E, 0x62, 0, 0x63, 0, 0, 0]
               + [7, 8, 9, 0, 0, 0, 0, 0, 10]
  {
    hide SarcHeader, SfatHeader, SfntHeader, NodeTable, NameTable, Blob, CommonAlignment;
    var nodes := TwoFiles();
    NamesLaidOut();
    DataLaidOut();
    SharedBoundary();
    assert HeadersSize(nodes) == 80 && DataOffset(nodes) == 80;
    HeaderBytes();
    NodesLaidOut();
  }

  // ---------- frames ----------

  /** The widths of the size field, and the block header. */
  lemma FrameSamples()
    ensures FrameHeader(200) == [0x20, 200] && FrameHeader(0x1234 + 256) == [0x60, 0x34, 0x12]
    ensures FrameHeader(0x1234_5678) == [0xA0, 0x78, 0x56, 0x34, 0x12]
    ensures FrameHeader(0x1_0000_0002) == [0xE0, 2, 0, 0, 0, 1, 0, 0, 0]
    ensures BlockHeader(3, true) == [0x19, 0, 0] && BlockHeader(0x2_0000, false) == [0, 0, 0x10]
    ensures Frame([7, 8, 9]) == [0x28, 0xB5, 0x2F, 0xFD, 0x20, 3, 0x19, 0, 0, 7, 8, 9]
  {
    hide Number;
    LittleOne(200);
    LittleOne(3);
    LittleTwo(0x34, 0x12);
    LittleFour(0x78, 0x56, 0x34, 0x12);
    LittleThree(0x19, 0, 0);
    LittleThree(0, 0, 0x10);
    LittleEight();
  }

  lemma LittleOne(a: Byte)
    ensures Number(false, a, 1) == [a]
  {
    hide Number;
    LittleStep(a, 0, 0);
    var none := Number(false, 0, 0);
    assert [a] + none == [a];
  }

  lemma LittleEight()
    ensures Number(false, 0x1_0000_0002, 8) == [2, 0, 0, 0, 1, 0, 0, 0]
  {
    hide Number;
    LittleStep(2, 0x100_0000, 7);
    LittleStep(0, 0x1_0000, 6);
    LittleStep(0, 0x100, 5);
    LittleStep(0, 1, 4);
    LittleFour(1, 0, 0, 0);
  }

  // ---------- what a file declares ----------

  /** The header of a little-endian binary file: 2 to the power of its byte 14 is its alignment, if the length at 28 is right. */
  function Declaring(shift: Byte, length: Bytes, rest: Bytes): Bytes {
    [0x46, 0x52, 0x45, 0x53, 0x20, 0x20, 0x20, 0x20, 0, 0, 0, 0, 0xFF, 0xFE, shift, 0, 0, 0, 0, 0, 0, 0, 0, 0, 0, 0, 0, 0] + length + rest
  }

  lemma DeclaredSample(shift: Byte, length: nat, rest: Bytes)
    requires length < 0x8000_0000 && rest != []
    ensures DeclaredAlignment(Declaring(shift, Number(false, length, 4), rest))
            == if length == 32 + |rest| && shift <= 31 then Archives.Shifted(shift) else 1
  {
    hide Number, NumberAt, Archives.Shifted;
    var size := Number(false, length, 4);
    var data := Declaring(shift, size, rest);
    Powers();
    NumberBack(false, length, 4);
    DeclaringParts(shift, size, rest);
  }

  lemma DeclaringParts(shift: Byte, length: Bytes, rest: Bytes)
    requires |length| == 4
    ensures var data := Declaring(shift, length, rest);
            |data| == 32 + |rest| && data[0x0C] == 0xFF && data[0x0D] == 0xFE && data[0x0E] == shift && data[0x1C..0x20] == length
  {
  }

  lemma ShiftedSample()
    ensures Archives.Shifted(0) == 1 && Archives.Shifted(3) == 8 && Archives.Shifted(12) == 4096
  {
    assert Archives.Shifted(4) == 16;
    assert Archives.Shifted(8) == 256 by { assert Archives.Shifted(6) == 64; }
    assert Archives.Shifted(10) == 1024;
  }

  lemma {:induction false} AfterLastIs(before: string, rest: string, mark: char)
    requires mark !in rest
    ensures AfterLast(rest, mark) == None && AfterLast(before + [mark] + rest, mark) == Some(rest)
    decreases |before| + |rest|
  {
    if rest != [] { AfterLastIs([], rest[1..], mark); }
    if before == [] {
      assert (before + [mark] + rest)[1..] == rest;
    } else {
      AfterLastIs(before[1..], rest, mark);
      assert (before + [mark] + rest)[1..] == before[1..] + [mark] + rest;
    }
  }

  /** The extension is what follows the last dot of the file's own name, wherever the file is. */
  lemma ExtensionIs(folder: string, stem: string, ext: string)
    requires '/' !in stem && '/' !in ext && '.' !in ext
    ensures Extension(folder + "/" + (stem + "." + ext)) == ext && Extension(stem + "." + ext) == ext
    ensures '.' !in stem ==> Extension(folder + "/" + stem) == "" && Extension(stem) == ""
  {
    hide AfterLast;
    AfterLastIs(folder, stem + "." + ext, '/');
    AfterLastIs(folder, stem, '/');
    AfterLastIs(stem, ext, '.');
    if '.' !in stem { AfterLastIs("", stem, '.'); }
  }
}
