/** Writing a document: a container's bytes first, with room for the offsets of its children; then the
    children, each distinct one once; their offsets are put into the slots when they are known. */
module BymlWriter {
  import opened Documents
  import opened BymlFormat

  // ---------- pieces ----------

  lemma {:induction false} RenderAppend(layout: Layout, pieces: seq<Piece>, piece: Piece, offsets: Offsets)
    ensures Render(layout, pieces + [piece], offsets, 0) == Render(layout, pieces, offsets, 0) + Render(layout, [piece], offsets, 0)
  {
    if pieces == [] {
      assert pieces + [piece] == [piece];
    } else {
      assert (pieces + [piece])[1..] == pieces[1..] + [piece];
      RenderAppend(layout, pieces[1..], piece, offsets);
    }
  }

  lemma OnePiece(layout: Layout, piece: Piece, offsets: Offsets)
    ensures Render(layout, [piece], offsets, 0) == match piece
            case Raw(bytes) => bytes
            case Slot(child) => if Inline(child) then Number(layout.big, InlineValue(layout, child), 4) else Zeros(4)
  {
    assert [piece][1..] == [];
  }

  function PieceSize(piece: Piece): nat {
    match piece
    case Raw(bytes) => |bytes|
    case Slot(_) => 4
  }

  function SizeOf(pieces: seq<Piece>): nat {
    if pieces == [] then 0 else PieceSize(pieces[0]) + SizeOf(pieces[1..])
  }

  lemma {:induction false} RenderSize(layout: Layout, pieces: seq<Piece>, offsets: Offsets, filled: nat)
    ensures |Render(layout, pieces, offsets, filled)| == SizeOf(pieces)
  {
    hide Number, InlineValue;
    if pieces != [] {
      RenderSize(layout, pieces[1..], offsets, filled);
      if filled > 0 { RenderSize(layout, pieces[1..], offsets, filled - 1); }
    }
  }

  lemma {:induction false} OpenAppendAt(pieces: seq<Piece>, piece: Piece, at: nat)
    ensures Open(pieces + [piece], at) == Open(pieces, at) + Open([piece], at + SizeOf(pieces))
  {
    if pieces == [] {
      assert pieces + [piece] == [piece];
    } else {
      assert (pieces + [piece])[1..] == pieces[1..] + [piece];
      OpenAppendAt(pieces[1..], piece, at + PieceSize(pieces[0]));
    }
  }

  lemma OpenAppend(layout: Layout, pieces: seq<Piece>, piece: Piece, at: nat)
    ensures Open(pieces + [piece], at)
            == Open(pieces, at) + Open([piece], at + |Render(layout, pieces, map[], 0)|)
  {
    hide Open, Render;
    RenderSize(layout, pieces, map[], 0);
    OpenAppendAt(pieces, piece, at);
  }

  lemma RenderLength(layout: Layout, pieces: seq<Piece>, a: Offsets, i: nat, b: Offsets, j: nat)
    ensures |Render(layout, pieces, a, i)| == |Render(layout, pieces, b, j)|
  {
    hide Render;
    RenderSize(layout, pieces, a, i);
    RenderSize(layout, pieces, b, j);
  }

  /** Only the offsets of the children whose slots are filled matter. */
  lemma {:induction false} RenderSame(layout: Layout, pieces: seq<Piece>, at: nat, a: Offsets, b: Offsets, filled: nat)
    requires forall k :: 0 <= k < filled && k < |Open(pieces, at)| ==> OffsetOf(a, Open(pieces, at)[k].1) == OffsetOf(b, Open(pieces, at)[k].1)
    ensures Render(layout, pieces, a, filled) == Render(layout, pieces, b, filled)
  {
    if pieces != [] {
      match pieces[0]
      case Raw(bytes) =>
        assert Open(pieces, at) == Open(pieces[1..], at + |bytes|);
        RenderSame(layout, pieces[1..], at + |bytes|, a, b, filled);
      case Slot(child) =>
        var open, rest := Open(pieces, at), Open(pieces[1..], at + 4);
        if Inline(child) {
          assert open == rest;
          RenderSame(layout, pieces[1..], at + 4, a, b, filled);
        } else if filled == 0 {
          RenderSame(layout, pieces[1..], at + 4, a, b, 0);
        } else {
          assert open == [(at, child)] + rest;
          assert OffsetOf(a, open[0].1) == OffsetOf(b, open[0].1);
          forall k | 0 <= k < filled - 1 && k < |rest|
            ensures OffsetOf(a, rest[k].1) == OffsetOf(b, rest[k].1)
          {
            assert rest[k] == open[k + 1];
          }
          RenderSame(layout, pieces[1..], at + 4, a, b, filled - 1);
        }
    }
  }

  function Patched(bytes: Bytes, at: nat, word: Bytes): Bytes
    requires at + |word| <= |bytes|
  {
    bytes[..at] + word + bytes[at + |word|..]
  }

  /** Open slots lie inside the bytes, one after the other. */
  lemma {:induction false} OpenInside(layout: Layout, pieces: seq<Piece>, at: nat, k: nat)
    requires k < |Open(pieces, at)|
    ensures at <= Open(pieces, at)[k].0 && Open(pieces, at)[k].0 + 4 <= at + |Render(layout, pieces, map[], 0)|
    ensures forall j :: k < j < |Open(pieces, at)| ==> Open(pieces, at)[k].0 + 4 <= Open(pieces, at)[j].0
    ensures !Inline(Open(pieces, at)[k].1)
    decreases |pieces|
  {
    match pieces[0]
    case Raw(bytes) => OpenInside(layout, pieces[1..], at + |bytes|, k);
    case Slot(child) =>
      var open, rest := Open(pieces, at), Open(pieces[1..], at + 4);
      if Inline(child) {
        assert open == rest;
        OpenInside(layout, pieces[1..], at + 4, k);
      } else {
        assert open == [(at, child)] + rest;
        if k > 0 {
          OpenInside(layout, pieces[1..], at + 4, k - 1);
        } else {
          forall j | 0 < j < |open|
            ensures at + 4 <= open[j].0
          {
            assert open[j] == rest[j - 1];
            OpenInside(layout, pieces[1..], at + 4, j - 1);
          }
        }
      }
  }

  /** Putting an offset into the next open slot fills one more. */
  lemma {:induction false} FillOne(layout: Layout, pieces: seq<Piece>, at: nat, offsets: Offsets, filled: nat)
    requires filled < |Open(pieces, at)|
    ensures Fills(layout, pieces, at, offsets, filled)
    decreases |pieces|
  {
    match pieces[0]
    case Raw(bytes) =>
      FillOne(layout, pieces[1..], at + |bytes|, offsets, filled);
      FillAfterRaw(layout, pieces, at, offsets, filled);
    case Slot(child) =>
      var rest := Open(pieces[1..], at + 4);
      assert Open(pieces, at) == (if Inline(child) then [] else [(at, child)]) + rest;
      if Inline(child) {
        FillOne(layout, pieces[1..], at + 4, offsets, filled);
        FillAfterInline(layout, pieces, at, offsets, filled);
      } else if filled == 0 {
        PatchFirst(Zeros(4), Render(layout, pieces[1..], offsets, 0), Number(layout.big, OffsetOf(offsets, child), 4));
      } else {
        FillOne(layout, pieces[1..], at + 4, offsets, filled - 1);
        FillAfterSlot(layout, pieces, at, offsets, filled);
      }
  }

  ghost predicate Fills(layout: Layout, pieces: seq<Piece>, at: nat, offsets: Offsets, filled: nat)
    requires filled < |Open(pieces, at)|
  {
    var (pos, child) := Open(pieces, at)[filled];
    var before := Render(layout, pieces, offsets, filled);
    && at <= pos && pos - at + 4 <= |before|
    && Render(layout, pieces, offsets, filled + 1) == Patched(before, pos - at, Number(layout.big, OffsetOf(offsets, child), 4))
  }

  lemma FillAfterRaw(layout: Layout, pieces: seq<Piece>, at: nat, offsets: Offsets, filled: nat)
    requires filled < |Open(pieces, at)| && pieces[0].Raw? && Fills(layout, pieces[1..], at + |pieces[0].bytes|, offsets, filled)
    ensures Fills(layout, pieces, at, offsets, filled)
  {
    var bytes := pieces[0].bytes;
    var (pos, child) := Open(pieces, at)[filled];
    PatchLater(bytes, Render(layout, pieces[1..], offsets, filled), pos - at - |bytes|, Number(layout.big, OffsetOf(offsets, child), 4));
  }

  lemma FillAfterInline(layout: Layout, pieces: seq<Piece>, at: nat, offsets: Offsets, filled: nat)
    requires filled < |Open(pieces, at)| && pieces[0].Slot? && Inline(pieces[0].child)
    requires Open(pieces, at) == Open(pieces[1..], at + 4) && Fills(layout, pieces[1..], at + 4, offsets, filled)
    ensures Fills(layout, pieces, at, offsets, filled)
  {
    var (pos, child) := Open(pieces, at)[filled];
    var first := Number(layout.big, InlineValue(layout, pieces[0].child), 4);
    var rest := Render(layout, pieces[1..], offsets, filled);
    InlineFirst(layout, pieces, offsets, filled);
    InlineFirst(layout, pieces, offsets, filled + 1);
    PatchLater(first, rest, pos - at - 4, Number(layout.big, OffsetOf(offsets, child), 4));
  }

  lemma InlineFirst(layout: Layout, pieces: seq<Piece>, offsets: Offsets, filled: nat)
    requires pieces != [] && pieces[0].Slot? && Inline(pieces[0].child)
    ensures Render(layout, pieces, offsets, filled) == Number(layout.big, InlineValue(layout, pieces[0].child), 4) + Render(layout, pieces[1..], offsets, filled)
  {
  }

  lemma FillAfterSlot(layout: Layout, pieces: seq<Piece>, at: nat, offsets: Offsets, filled: nat)
    requires 0 < filled < |Open(pieces, at)| && pieces[0].Slot? && !Inline(pieces[0].child)
    requires Open(pieces, at) == [(at, pieces[0].child)] + Open(pieces[1..], at + 4)
    requires Fills(layout, pieces[1..], at + 4, offsets, filled - 1)
    ensures Fills(layout, pieces, at, offsets, filled)
  {
    var (pos, child) := Open(pieces, at)[filled];
    assert Open(pieces[1..], at + 4)[filled - 1] == (pos, child);
    PatchLater(Number(layout.big, OffsetOf(offsets, pieces[0].child), 4), Render(layout, pieces[1..], offsets, filled - 1), pos - at - 4,
               Number(layout.big, OffsetOf(offsets, child), 4));
  }

  lemma PatchLater(first: Bytes, rest: Bytes, at: nat, word: Bytes)
    requires at + |word| <= |rest|
    ensures Patched(first + rest, |first| + at, word) == first + Patched(rest, at, word)
  {
  }

  lemma PatchFirst(first: Bytes, rest: Bytes, word: Bytes)
    requires |first| == |word|
    ensures Patched(first + rest, 0, word) == word + rest
  {
  }

  // ---------- what has been written ----------

  /** No slot still open overlaps the bytes from `from` to `to`. */
  ghost predicate Solid(pending: set<nat>, from: nat, to: nat) {
    forall p :: p in pending ==> p + 4 <= from || to <= p
  }

  ghost predicate ChildrenIn(layout: Layout, node: Byml, offsets: Offsets)
    requires node.IsContainer()
  {
    var open := Open(Template(layout, node), 0);
    forall k :: 0 <= k < |open| ==> open[k].1 in offsets
  }

  /** A node's bytes are at an offset, with those of its children where their slots say. */
  ghost predicate ContentAt(layout: Layout, out: Bytes, pending: set<nat>, offsets: Offsets, node: Byml, at: nat) {
    var content := Content(layout, node, offsets);
    && at + |content| <= |out| && out[at..at + |content|] == content && Solid(pending, at, at + |content|)
    && (node.IsContainer() ==> at % 4 == 0 && ChildrenIn(layout, node, offsets))
    && OnBoundary(node, at)
  }

  /** The data of aligned binary, after its 8 byte header, is on the boundary asked for. */
  predicate OnBoundary(node: Byml, at: nat) {
    match node
    case Leaf(BinaryAligned(_, alignment)) => alignment > 0 ==> (at + 8) % alignment == 0
    case _ => true
  }

  ghost predicate AllWritten(layout: Layout, out: Bytes, pending: set<nat>, offsets: Offsets) {
    forall node :: node in offsets ==> !Inline(node) && ContentAt(layout, out, pending, offsets, node, offsets[node])
  }

  ghost predicate Extends(offsets: Offsets, more: Offsets) {
    forall node :: node in offsets ==> node in more && more[node] == offsets[node]
  }

  /** Knowing more offsets changes nobody's bytes. */
  lemma ContentSame(layout: Layout, node: Byml, offsets: Offsets, more: Offsets)
    requires Extends(offsets, more) && (node.IsContainer() ==> ChildrenIn(layout, node, offsets))
    ensures Content(layout, node, more) == Content(layout, node, offsets)
    ensures node.IsContainer() ==> ChildrenIn(layout, node, more)
  {
    if node.IsContainer() {
      var pieces := Template(layout, node);
      var open := Open(pieces, 0);
      forall k | 0 <= k < |open|
        ensures OffsetOf(offsets, open[k].1) == OffsetOf(more, open[k].1) && open[k].1 in more
      {
        assert open[k].1 in offsets;
      }
      RenderSame(layout, pieces, 0, offsets, more, |open|);
    }
  }

  /** Bytes added at the end, slots opened there, offsets learnt: what is written stays written. */
  lemma StillAfterGrowth(layout: Layout, out: Bytes, more: Bytes, pending: set<nat>, pending': set<nat>, offsets: Offsets, offsets': Offsets,
                         node: Byml, at: nat)
    requires ContentAt(layout, out, pending, offsets, node, at) && out <= more && Extends(offsets, offsets')
    requires forall p :: p in pending' ==> p in pending || |out| <= p
    ensures ContentAt(layout, more, pending', offsets', node, at)
  {
    ContentSame(layout, node, offsets, offsets');
    var n := |Content(layout, node, offsets)|;
    assert more[at..at + n] == out[at..at + n];
  }

  /** Filling an open slot: what is written stays written. */
  lemma StillAfterPatch(layout: Layout, out: Bytes, pending: set<nat>, offsets: Offsets, slot: nat, word: Bytes, node: Byml, at: nat)
    requires ContentAt(layout, out, pending, offsets, node, at) && slot in pending && |word| == 4 && slot + 4 <= |out|
    ensures ContentAt(layout, Patched(out, slot, word), pending - {slot}, offsets, node, at)
  {
    var n := |Content(layout, node, offsets)|;
    PatchOutside(out, slot, word, at, at + n);
  }

  lemma PatchOutside(out: Bytes, slot: nat, word: Bytes, from: nat, to: nat)
    requires slot + |word| <= |out| && from <= to <= |out| && (slot + |word| <= from || to <= slot)
    ensures Patched(out, slot, word)[from..to] == out[from..to]
  {
  }

  lemma AllAfterGrowth(layout: Layout, out: Bytes, more: Bytes, pending: set<nat>, pending': set<nat>, offsets: Offsets)
    requires AllWritten(layout, out, pending, offsets) && out <= more && forall p :: p in pending' ==> p in pending || |out| <= p
    ensures AllWritten(layout, more, pending', offsets)
  {
    forall node | node in offsets
      ensures ContentAt(layout, more, pending', offsets, node, offsets[node])
    {
      StillAfterGrowth(layout, out, more, pending, pending', offsets, offsets, node, offsets[node]);
    }
  }

  lemma AllAfterPatch(layout: Layout, out: Bytes, pending: set<nat>, offsets: Offsets, slot: nat, word: Bytes)
    requires AllWritten(layout, out, pending, offsets) && slot in pending && |word| == 4 && slot + 4 <= |out|
    ensures AllWritten(layout, Patched(out, slot, word), pending - {slot}, offsets)
  {
    forall node | node in offsets
      ensures ContentAt(layout, Patched(out, slot, word), pending - {slot}, offsets, node, offsets[node])
    {
      StillAfterPatch(layout, out, pending, offsets, slot, word, node, offsets[node]);
    }
  }

  lemma AllAfterOneMore(layout: Layout, out: Bytes, pending: set<nat>, offsets: Offsets, node: Byml, at: nat)
    requires AllWritten(layout, out, pending, offsets) && node !in offsets && !Inline(node) && ContentAt(layout, out, pending, offsets, node, at)
    ensures AllWritten(layout, out, pending, offsets[node := at]) && Extends(offsets, offsets[node := at])
  {
    var more := offsets[node := at];
    forall n | n in more
      ensures ContentAt(layout, out, pending, more, n, more[n])
    {
      if n != node {
        StillAfterGrowth(layout, out, out, pending, pending, offsets, more, n, offsets[n]);
      } else {
        StillAfterGrowth(layout, out, out, pending, pending, offsets, more, n, at);
      }
    }
  }

  // ---------- nodes with the same hash ----------

  /** One past the last of the first `n` nodes written whose hash is `hash`, or zero. */
  function LastSame(nodes: seq<(Byml, nat, nat)>, hash: Byml -> nat, n: nat, wanted: nat): (last: nat)
    requires n <= |nodes|
    ensures last <= n
    ensures last > 0 ==> hash(nodes[last - 1].0) == wanted
    ensures forall i :: last <= i < n ==> hash(nodes[i].0) != wanted
  {
    if n == 0 then 0
    else if hash(nodes[n - 1].0) == wanted then n
    else LastSame(nodes, hash, n - 1, wanted)
  }

  function LinkOf(written: map<nat, nat>, wanted: nat): nat { if wanted in written then written[wanted] + 1 else 0 }

  /** Every node links to the last earlier one with its hash, and the table to the last of all. */
  ghost predicate Chained(nodes: seq<(Byml, nat, nat)>, written: map<nat, nat>, hash: Byml -> nat) {
    && (forall i :: 0 <= i < |nodes| ==> nodes[i].2 == LastSame(nodes, hash, i, hash(nodes[i].0)))
    && forall wanted :: LinkOf(written, wanted) == LastSame(nodes, hash, |nodes|, wanted)
  }

  /** The nodes written are those with offsets, each once. */
  ghost predicate Recorded(nodes: seq<(Byml, nat, nat)>, offsets: Offsets) {
    && (forall i :: 0 <= i < |nodes| ==> nodes[i].0 in offsets && offsets[nodes[i].0] == nodes[i].1)
    && (forall i, j :: 0 <= i < j < |nodes| ==> nodes[i].0 != nodes[j].0)
    && forall node :: node in offsets ==> IsAmong(nodes, node)
  }

  ghost predicate IsAmong(nodes: seq<(Byml, nat, nat)>, node: Byml) {
    exists i :: 0 <= i < |nodes| && nodes[i].0 == node
  }

  lemma {:induction false} LastSamePrefix(nodes: seq<(Byml, nat, nat)>, last: (Byml, nat, nat), hash: Byml -> nat, n: nat, wanted: nat)
    requires n <= |nodes|
    ensures LastSame(nodes + [last], hash, n, wanted) == LastSame(nodes, hash, n, wanted)
  {
    if n > 0 {
      LastSamePrefix(nodes, last, hash, n - 1, wanted);
    }
  }

  lemma ChainedMore(nodes: seq<(Byml, nat, nat)>, written: map<nat, nat>, hash: Byml -> nat, node: Byml, at: nat)
    requires Chained(nodes, written, hash)
    ensures Chained(nodes + [(node, at, LinkOf(written, hash(node)))], written[hash(node) := |nodes|], hash)
  {
    var last := (node, at, LinkOf(written, hash(node)));
    var more := nodes + [last];
    forall i | 0 <= i < |more|
      ensures more[i].2 == LastSame(more, hash, i, hash(more[i].0))
    {
      LastSamePrefix(nodes, last, hash, i, hash(more[i].0));
    }
    forall wanted
      ensures LinkOf(written[hash(node) := |nodes|], wanted) == LastSame(more, hash, |more|, wanted)
    {
      LastSamePrefix(nodes, last, hash, |nodes|, wanted);
    }
  }

  lemma RecordedMore(nodes: seq<(Byml, nat, nat)>, offsets: Offsets, node: Byml, at: nat, link: nat)
    requires Recorded(nodes, offsets) && node !in offsets
    ensures Recorded(nodes + [(node, at, link)], offsets[node := at])
  {
    var more := nodes + [(node, at, link)];
    forall n | n in offsets[node := at]
      ensures IsAmong(more, n)
    {
      if n == node {
        assert more[|nodes|].0 == n;
      } else {
        assert IsAmong(nodes, n);
        var i :| 0 <= i < |nodes| && nodes[i].0 == n;
        assert more[i].0 == n;
      }
    }
  }

  // ---------- positions ----------

  /** Aligned binary keeps what follows on a four byte boundary: the writer does not re-align after it. */
  ghost predicate Aligned(node: Byml) {
    match node
    case Leaf(BinaryAligned(bytes, alignment)) => |bytes| % 4 == 0 && (alignment % 4 == 0 || alignment <= 2)
    case Array(items) => forall i :: 0 <= i < |items| ==> Aligned(items[i])
    case Map(_, entries) => forall k :: k in entries ==> Aligned(entries[k])
    case ArrayLog(changes) =>
      forall i :: 0 <= i < |changes| ==>
        Aligned(changes[i].node) && (changes[i].key.primary.Some? ==> Aligned(changes[i].key.primary.value))
        && (changes[i].key.secondary.Some? ==> Aligned(changes[i].key.secondary.value))
    case _ => true
  }

  function Boundary(position: nat, alignment: nat): (padding: nat)
  {
    var alignment' := if alignment < 1 then 1 else alignment;
    (alignment' - (position + 8) % alignment') % alignment'
  }

  lemma MultipleOfMultiple(x: nat, m: nat)
    requires m > 0 && m % 4 == 0 && x % m == 0
    ensures x % 4 == 0
  {
    var q, k := x / m, m / 4;
    assert x == m * q && m == 4 * k;
    assert x == 4 * (k * q);
  }

  lemma PadReaches(x: nat, m: nat)
    requires m > 0
    ensures (x + (m - x % m) % m) % m == 0
  {
    var q, r := x / m, x % m;
    assert x == m * q + r;
    if r == 0 {
      assert (m - r) % m == 0;
    } else {
      assert (m - r) % m == m - r;
      assert x + (m - r) == m * (q + 1);
      MultipleIsZero(q + 1, m);
    }
  }

  lemma MultipleIsZero(q: nat, m: nat)
    requires m > 0
    ensures (m * q) % m == 0
  {
    var x := m * q;
    var y := x / m;
    assert x == m * y + x % m;
    Times(m, q - y);
    assert m * (q - y) == m * q - m * y;
  }

  lemma Times(m: nat, d: int)
    requires m > 0
    ensures d >= 1 ==> m * d >= m
    ensures d <= -1 ==> m * d + m <= 0
  {
  }

  lemma BoundaryKeepsFour(position: nat, alignment: nat)
    requires position % 4 == 0 && (alignment % 4 == 0 || alignment <= 2)
    ensures (position + Boundary(position, alignment)) % 4 == 0
    ensures alignment > 0 ==> (position + Boundary(position, alignment) + 8) % alignment == 0
  {
    if alignment <= 2 {
      SmallBoundary(position, alignment);
    } else {
      LargeBoundary(position, alignment);
    }
  }

  lemma LargeBoundary(position: nat, alignment: nat)
    requires alignment > 0 && alignment % 4 == 0
    ensures (position + 8 + Boundary(position, alignment)) % alignment == 0 && (position + 8 + Boundary(position, alignment)) % 4 == 0
  {
    PadReaches(position + 8, alignment);
    MultipleOfMultiple(position + 8 + Boundary(position, alignment), alignment);
  }

  lemma SmallBoundary(position: nat, alignment: nat)
    requires position % 4 == 0 && alignment <= 2
    ensures Boundary(position, alignment) == 0 && (position + 8) % 2 == 0
  {
  }

  /** A container's children that do not fit in its slots are parts of it. */
  lemma OpenIsChild(layout: Layout, node: Byml, at: nat, k: nat)
    requires node.IsContainer() && k < |Open(Template(layout, node), at)|
    ensures Open(Template(layout, node), at)[k].1 < node
    ensures Aligned(node) ==> Aligned(Open(Template(layout, node), at)[k].1)
  {
    var child := Open(Template(layout, node), at)[k].1;
    OpenFrom(Template(layout, node), at, k);
    TemplateSlots(layout, node, child);
  }

  lemma {:induction false} OpenFrom(pieces: seq<Piece>, at: nat, k: nat)
    requires k < |Open(pieces, at)|
    ensures Slot(Open(pieces, at)[k].1) in pieces && !Inline(Open(pieces, at)[k].1)
    decreases |pieces|
  {
    match pieces[0]
    case Raw(bytes) =>
      OpenFrom(pieces[1..], at + |bytes|, k);
    case Slot(child) =>
      if Inline(child) {
        assert Open(pieces, at) == Open(pieces[1..], at + 4);
        OpenFrom(pieces[1..], at + 4, k);
      } else if k > 0 {
        OpenFrom(pieces[1..], at + 4, k - 1);
      }
  }

  lemma TemplateSlots(layout: Layout, node: Byml, child: Byml)
    requires node.IsContainer() && !Inline(child) && Slot(child) in Template(layout, node)
    ensures child < node && (Aligned(node) ==> Aligned(child))
  {
    match node
    case Array(items) =>
      assert Slot(child) in Slots(items);
      var i :| 0 <= i < |items| && Slots(items)[i] == Slot(child);
    case Map(Named, _) =>
      NamedSlots(layout, node, Keys(layout, node), child);
    case Map(kind, _) =>
      HashedSlots(layout, node, Keys(layout, node), Width(kind), child);
    case ArrayLog(changes) =>
      var i := LogSlots(layout, changes, child);
      assert changes[i] in changes;
      assert child < changes[i] && changes[i] < node;
  }

  lemma {:induction false} NamedSlots(layout: Layout, node: Byml, keys: seq<Key>, child: Byml)
    requires node.Map? && !Inline(child) && Slot(child) in NamedPieces(layout, node, keys)
    ensures child < node && (Aligned(node) ==> Aligned(child))
    decreases |keys|
  {
    if child != ValueOf(node, keys[0]) {
      NamedSlots(layout, node, keys[1..], child);
    }
  }

  lemma {:induction false} HashedSlots(layout: Layout, node: Byml, keys: seq<Key>, width: nat, child: Byml)
    requires node.Map? && !Inline(child) && Slot(child) in HashedPieces(layout, node, keys, width)
    ensures child < node && (Aligned(node) ==> Aligned(child))
    decreases |keys|
  {
    if child != ValueOf(node, keys[0]) {
      HashedSlots(layout, node, keys[1..], width, child);
    }
  }

  lemma {:induction false} LogSlots(layout: Layout, changes: seq<ArrayChange>, child: Byml) returns (i: nat)
    requires !Inline(child) && Slot(child) in LogPieces(layout, changes)
    ensures i < |changes|
    ensures child == changes[i].node || changes[i].key.primary == Some(child) || changes[i].key.secondary == Some(child)
    decreases |changes|
  {
    if Slot(child) in ChangePieces(layout, changes[0]) {
      i := 0;
    } else {
      i := LogSlots(layout, changes[1..], child);
      i := i + 1;
    }
  }

  // ---------- the writer ----------

  ghost function Positions(open: seq<(nat, Byml)>): set<nat> {
    set i | 0 <= i < |open| :: open[i].0
  }

  /** The part of a container laid out so far: `out` is what was there, then the pieces with slots left
      for the children in `staged`. */
  ghost predicate Laid(layout: Layout, before: Bytes, pieces: seq<Piece>, out: Bytes, staged: seq<(nat, Byml)>) {
    out == before + Render(layout, pieces, map[], 0) && staged == Open(pieces, |before|)
  }

  lemma LaidMore(layout: Layout, before: Bytes, pieces: seq<Piece>, out: Bytes, staged: seq<(nat, Byml)>, piece: Piece)
    requires Laid(layout, before, pieces, out, staged)
    ensures Laid(layout, before, pieces + [piece], out + Render(layout, [piece], map[], 0), staged + Open([piece], |out|))
  {
    RenderAppend(layout, pieces, piece, map[]);
    OpenAppend(layout, pieces, piece, |before|);
    Regroup(before, Render(layout, pieces, map[], 0), Render(layout, [piece], map[], 0));
  }

  lemma Regroup(a: Bytes, b: Bytes, c: Bytes)
    ensures (a + b) + c == a + (b + c)
  {
  }

  ghost predicate PendingInside(out: Bytes, pending: set<nat>) {
    forall p :: p in pending ==> p + 4 <= |out|
  }

  /** A container whose first slots have their offsets. */
  ghost predicate Filling(layout: Layout, out: Bytes, offsets: Offsets, pieces: seq<Piece>, start: nat, staged: seq<(nat, Byml)>, filled: nat) {
    var body := Render(layout, pieces, offsets, filled);
    && staged == Open(pieces, start) && filled <= |staged| && start + |body| <= |out| && out[start..start + |body|] == body
    && forall k :: 0 <= k < filled ==> staged[k].1 in offsets
  }

  ghost predicate OnlyParts(offsets: Offsets, more: Offsets, node: Byml) {
    forall n :: n in more && n !in offsets ==> n < node
  }

  ghost predicate ItAndParts(offsets: Offsets, more: Offsets, node: Byml) {
    forall n :: n in more && n !in offsets ==> n < node || n == node
  }

  /** Nodes that got their offsets since then are past a position. */
  ghost predicate NewAfter(known: Offsets, offsets: Offsets, position: int) {
    forall n :: n in offsets && n !in known ==> offsets[n] > position
  }

  /** No two nodes share an offset. */
  ghost predicate OneEach(offsets: Offsets) {
    forall a, b :: a in offsets && b in offsets && offsets[a] == offsets[b] ==> a == b
  }

  lemma ContentNotEmpty(layout: Layout, node: Byml, offsets: Offsets)
    requires !Inline(node)
    ensures |Content(layout, node, offsets)| > 0
  {
    hide Number, Header, NamedPieces, HashedPieces, LogPieces, Slots, Types, LogTypes;
    if node.IsContainer() {
      assert Template(layout, node) != [] && Template(layout, node)[0].Raw? && |Template(layout, node)[0].bytes| == 4;
    }
  }

  /** What is written is before the end. */
  lemma OffsetsBefore(layout: Layout, out: Bytes, pending: set<nat>, offsets: Offsets)
    requires AllWritten(layout, out, pending, offsets)
    ensures forall n :: n in offsets ==> offsets[n] < |out|
  {
    hide Content, Solid;
    forall n | n in offsets ensures offsets[n] < |out| { ContentNotEmpty(layout, n, offsets); }
  }

  /** A node written after everything known, its parts after it, has an offset of its own. */
  lemma OwnOffset(known: Offsets, offsets: Offsets, node: Byml, at: nat)
    requires OneEach(offsets) && Extends(known, offsets) && (forall n :: n in known ==> known[n] < at) && NewAfter(known, offsets, at)
    ensures OneEach(offsets[node := at])
  {
    var more := offsets[node := at];
    forall a, b | a in more && b in more && more[a] == more[b]
      ensures a == b
    {
      if a != node { assert a in known ==> known[a] == offsets[a]; }
      if b != node { assert b in known ==> known[b] == offsets[b]; }
    }
  }

  lemma AfterRemembering(known: Offsets, offsets: Offsets, node: Byml, at: nat, low: int)
    requires Extends(known, offsets) && OnlyParts(known, offsets, node) && NewAfter(known, offsets, at) && low < at && node !in known
    ensures Extends(known, offsets[node := at]) && ItAndParts(known, offsets[node := at], node) && NewAfter(known, offsets[node := at], low)
  {
  }

  lemma KnownStays(offsets: Offsets, node: Byml, low: int)
    ensures Extends(offsets, offsets) && ItAndParts(offsets, offsets, node) && NewAfter(offsets, offsets, low)
  {
  }

  lemma NewAfterMore(known: Offsets, offsets: Offsets, more: Offsets, low: int, high: int)
    requires Extends(known, offsets) && Extends(offsets, more) && NewAfter(known, offsets, low) && NewAfter(offsets, more, high) && low <= high
    ensures NewAfter(known, more, low)
  {
    forall n | n in more && n !in known ensures more[n] > low { if n in offsets { assert more[n] == offsets[n]; } }
  }

  lemma PartsOfChild(known: Offsets, offsets: Offsets, more: Offsets, child: Byml, node: Byml)
    requires Extends(known, offsets) && Extends(offsets, more) && OnlyParts(known, offsets, node)
    requires ItAndParts(offsets, more, child) && child < node
    ensures Extends(known, more) && OnlyParts(known, more, node)
  {
    forall n | n in more && n !in known
      ensures n < node
    {
      if n !in offsets { assert n < child || n == child; }
    }
  }

  lemma NotItself(offsets: Offsets, more: Offsets, node: Byml)
    requires node !in offsets && OnlyParts(offsets, more, node)
    ensures node !in more
  {
    assert !(node < node);
  }

  lemma {:induction false} OpenShift(pieces: seq<Piece>, a: nat, b: nat)
    ensures |Open(pieces, a)| == |Open(pieces, b)| && forall k :: 0 <= k < |Open(pieces, a)| ==> Open(pieces, a)[k].1 == Open(pieces, b)[k].1
  {
    if pieces != [] {
      match pieces[0]
      case Raw(bytes) => OpenShift(pieces[1..], a + |bytes|, b + |bytes|);
      case Slot(child) => OpenShift(pieces[1..], a + 4, b + 4);
    }
  }

  // ---------- sizes are multiples of four ----------

  lemma {:induction false} RenderSplit(layout: Layout, a: seq<Piece>, b: seq<Piece>)
    ensures |Render(layout, a + b, map[], 0)| == |Render(layout, a, map[], 0)| + |Render(layout, b, map[], 0)|
  {
    if a == [] {
      assert a + b == b;
    } else {
      assert (a + b)[1..] == a[1..] + b;
      RenderSplit(layout, a[1..], b);
    }
  }

  lemma {:induction false} SlotsSize(layout: Layout, nodes: seq<Byml>)
    ensures |Render(layout, Slots(nodes), map[], 0)| == 4 * |nodes|
  {
    if nodes != [] {
      assert Slots(nodes)[1..] == Slots(nodes[1..]);
      SlotsSize(layout, nodes[1..]);
    }
  }

  lemma {:induction false} NamedSize(layout: Layout, node: Byml, keys: seq<Key>)
    requires node.Map?
    ensures |Render(layout, NamedPieces(layout, node, keys), map[], 0)| == 8 * |keys|
  {
    if keys != [] {
      var pieces := NamedPieces(layout, node, keys);
      assert pieces[1..][1..] == NamedPieces(layout, node, keys[1..]);
      NamedSize(layout, node, keys[1..]);
    }
  }

  lemma OneMoreOf(size: nat, n: nat)
    ensures size * (n + 1) == size * n + size
  {
  }

  lemma {:induction false} HashedSize(layout: Layout, node: Byml, keys: seq<Key>, width: nat)
    requires node.Map?
    ensures |Render(layout, HashedPieces(layout, node, keys, width), map[], 0)| == (width + 4) * |keys|
  {
    hide Number, InlineValue, ValueOf, HashOf;
    if keys != [] {
      var pieces := HashedPieces(layout, node, keys, width);
      assert pieces[1..][1..] == HashedPieces(layout, node, keys[1..], width);
      HashedSize(layout, node, keys[1..], width);
      OneMoreOf(width + 4, |keys[1..]|);
    }
  }

  lemma {:induction false} LogSize(layout: Layout, changes: seq<ArrayChange>)
    ensures |Render(layout, LogPieces(layout, changes), map[], 0)| == 20 * |changes|
    ensures |LogTypes(changes)| == 4 * |changes|
  {
    if changes != [] {
      ChangeSize(layout, changes[0]);
      RenderSplit(layout, ChangePieces(layout, changes[0]), LogPieces(layout, changes[1..]));
      LogSize(layout, changes[1..]);
    }
  }

  lemma ChangeSize(layout: Layout, change: ArrayChange)
    ensures |Render(layout, ChangePieces(layout, change), map[], 0)| == 20
  {
    var parts := ChangePieces(layout, change);
    PieceSizes(layout, parts);
  }

  lemma PieceSizes(layout: Layout, parts: seq<Piece>)
    requires |parts| == 5 && forall i :: 0 <= i < 5 ==> parts[i].Raw? ==> |parts[i].bytes| == 4
    ensures |Render(layout, parts, map[], 0)| == 20
  {
    assert parts[1..][1..] == parts[2..] && parts[2..][1..] == parts[3..] && parts[3..][1..] == parts[4..] && parts[4..][1..] == [];
    assert |Render(layout, parts[4..], map[], 0)| == 4;
    assert |Render(layout, parts[3..], map[], 0)| == 8;
    assert |Render(layout, parts[2..], map[], 0)| == 12;
    assert |Render(layout, parts[1..], map[], 0)| == 16;
  }

  lemma RawFirst(layout: Layout, bytes: Bytes, rest: seq<Piece>)
    ensures |Render(layout, [Raw(bytes)] + rest, map[], 0)| == |bytes| + |Render(layout, rest, map[], 0)|
  {
    assert ([Raw(bytes)] + rest)[1..] == rest;
  }

  lemma RawSizes(layout: Layout, a: Bytes, b: Bytes, c: Bytes)
    ensures |Render(layout, [Raw(a)], map[], 0)| == |a|
    ensures |Render(layout, [Raw(a), Raw(b)], map[], 0)| == |a| + |b|
    ensures |Render(layout, [Raw(a), Raw(b), Raw(c)], map[], 0)| == |a| + |b| + |c|
  {
    RawFirst(layout, a, []);
    RawFirst(layout, b, []);
    RawFirst(layout, c, []);
    assert [Raw(a)] + [] == [Raw(a)] && [Raw(b)] + [] == [Raw(b)] && [Raw(c)] + [] == [Raw(c)];
    RawFirst(layout, a, [Raw(b)]);
    RawFirst(layout, b, [Raw(c)]);
    assert [Raw(a)] + [Raw(b)] == [Raw(a), Raw(b)] && [Raw(b)] + [Raw(c)] == [Raw(b), Raw(c)];
    RawFirst(layout, a, [Raw(b), Raw(c)]);
    assert [Raw(a)] + [Raw(b), Raw(c)] == [Raw(a), Raw(b), Raw(c)];
  }

  /** Every container takes a multiple of four bytes. */
  lemma TemplateSize(layout: Layout, node: Byml)
    requires node.IsContainer()
    ensures |Render(layout, Template(layout, node), map[], 0)| % 4 == 0
  {
    if node.Array? {
      ArrayTemplateSize(layout, node.items);
    } else if node.ArrayLog? {
      LogTemplateSize(layout, node.changes);
    } else if node.kind == Named {
      NamedTemplateSize(layout, node);
    } else {
      HashedTemplateSize(layout, node);
    }
  }

  lemma NamedTemplateSize(layout: Layout, node: Byml)
    requires node.Map? && node.kind == Named
    ensures |Render(layout, Template(layout, node), map[], 0)| % 4 == 0
  {
    var header, entries := Header(layout.big, MAP, |node.entries|), NamedPieces(layout, node, Keys(layout, node));
    NamedTemplate(layout, node);
    RawFirst(layout, header, entries);
    NamedSize(layout, node, Keys(layout, node));
    FourTimes(1 + 2 * |Keys(layout, node)|);
  }

  lemma NamedTemplate(layout: Layout, node: Byml)
    requires node.Map? && node.kind == Named
    ensures Template(layout, node) == [Raw(Header(layout.big, MAP, |node.entries|))] + NamedPieces(layout, node, Keys(layout, node))
  {
  }

  lemma ArrayTemplateSize(layout: Layout, items: seq<Byml>)
    ensures |Render(layout, Template(layout, Array(items)), map[], 0)| % 4 == 0
  {
    var header, types, zeros := Header(layout.big, ARRAY, |items|), Types(items), Zeros(Padding(|items|));
    RenderSplit(layout, [Raw(header), Raw(types), Raw(zeros)], Slots(items));
    SlotsSize(layout, items);
    RawSizes(layout, header, types, zeros);
    Padded(4 + 4 * |items|, |items|);
  }

  lemma LogTemplateSize(layout: Layout, changes: seq<ArrayChange>)
    ensures |Render(layout, Template(layout, ArrayLog(changes)), map[], 0)| % 4 == 0
  {
    hide Header, LogPieces, LogTypes, Render;
    var header, types := Header(layout.big, ARRAY_CHANGELOG, |changes|), LogTypes(changes);
    EnclosedSize(layout, header, LogPieces(layout, changes), types);
    LogSize(layout, changes);
    FourTimes(1 + 6 * |changes|);
  }

  lemma FourTimes(n: nat)
    ensures (4 * n) % 4 == 0
  {
  }

  lemma HashedTemplateSize(layout: Layout, node: Byml)
    requires node.Map? && node.kind != Named
    ensures |Render(layout, Template(layout, node), map[], 0)| % 4 == 0
  {
    var keys, width := Keys(layout, node), Width(node.kind);
    var header, types, zeros := Header(layout.big, NodeType(node), |node.entries|), Types(ValuesOf(node, keys)), Zeros(Padding(|keys|));
    SurroundedSize(layout, header, HashedPieces(layout, node, keys, width), types, zeros);
    HashedSize(layout, node, keys, width);
    FourFold(node.kind, |keys|);
    Padded(4 + (width + 4) * |keys|, |keys|);
  }

  lemma EnclosedSize(layout: Layout, header: Bytes, entries: seq<Piece>, types: Bytes)
    ensures |Render(layout, [Raw(header)] + entries + [Raw(types)], map[], 0)| == |header| + |Render(layout, entries, map[], 0)| + |types|
  {
    RenderSplit(layout, [Raw(header)] + entries, [Raw(types)]);
    RawFirst(layout, header, entries);
    RawSizes(layout, types, [], []);
  }

  lemma SurroundedSize(layout: Layout, header: Bytes, entries: seq<Piece>, types: Bytes, zeros: Bytes)
    ensures |Render(layout, [Raw(header)] + entries + [Raw(types), Raw(zeros)], map[], 0)|
            == |header| + |Render(layout, entries, map[], 0)| + |types| + |zeros|
  {
    RenderSplit(layout, [Raw(header)] + entries, [Raw(types), Raw(zeros)]);
    RawFirst(layout, header, entries);
    RawSizes(layout, types, zeros, []);
  }

  lemma FourFold(kind: Kind, n: nat)
    ensures (4 + (Width(kind) + 4) * n) % 4 == 0
  {
    var quarter := if kind == Hashed64 then 3 else 2;
    assert (Width(kind) + 4) * n == 4 * (quarter * n);
  }

  lemma Padded(size: nat, n: nat)
    requires size % 4 == 0
    ensures (size + n + Padding(n)) % 4 == 0
  {
  }

  lemma SpecialSize(layout: Layout, node: Byml)
    requires !Inline(node) && !node.IsContainer() && Aligned(node)
    ensures |Special(layout, node)| % 4 == 0
  {
    hide Number, Padding;
    match node
    case Leaf(Binary(bytes)) => Padded(4, |bytes|);
    case Leaf(BinaryAligned(bytes, _)) => FourMore(|bytes|);
    case _ =>
  }

  lemma FourMore(n: nat)
    requires n % 4 == 0
    ensures (8 + n) % 4 == 0
  {
  }

  lemma SpecialThere(layout: Layout, out: Bytes, pending: set<nat>, offsets: Offsets, node: Byml)
    requires !node.IsContainer() && OnBoundary(node, |out|) && PendingInside(out, pending)
    ensures ContentAt(layout, out + Special(layout, node), pending, offsets, node, |out|)
  {
  }

  // ---------- one container, slot by slot ----------

  lemma LaidOut(layout: Layout, before: Bytes, out: Bytes, pending: set<nat>, offsets: Offsets, node: Byml, staged: seq<(nat, Byml)>)
    requires node.IsContainer() && Laid(layout, before, Template(layout, node), out, staged)
    requires AllWritten(layout, before, pending, offsets) && PendingInside(before, pending) && |before| % 4 == 0
    ensures AllWritten(layout, out, pending + Positions(staged), offsets) && PendingInside(out, pending + Positions(staged))
    ensures before <= out && |out| % 4 == 0 && Filling(layout, out, offsets, Template(layout, node), |before|, staged, 0)
  {
    var pieces, start := Template(layout, node), |before|;
    var body := Render(layout, pieces, map[], 0);
    TemplateSize(layout, node);
    RenderSame(layout, pieces, start, map[], offsets, 0);
    assert out[start..start + |body|] == body;
    forall p | p in Positions(staged)
      ensures start <= p && p + 4 <= |out|
    {
      var i :| 0 <= i < |staged| && staged[i].0 == p;
      OpenInside(layout, pieces, start, i);
    }
    AllAfterGrowth(layout, before, out, pending, pending + Positions(staged), offsets);
  }

  lemma NextSlot(layout: Layout, node: Byml, start: nat, staged: seq<(nat, Byml)>, i: nat, out: Bytes, pending: set<nat>, before: set<nat>)
    requires node.IsContainer() && Aligned(node) && staged == Open(Template(layout, node), start) && i < |staged|
    requires pending == before + Positions(staged[i..]) && (forall p :: p in before ==> p + 4 <= start)
    requires start + |Render(layout, Template(layout, node), map[], 0)| <= |out|
    ensures var (slot, child) := staged[i];
            && !Inline(child) && Aligned(child) && child < node
            && slot in pending && start <= slot && slot + 4 <= |out|
            && pending - {slot} == before + Positions(staged[i + 1..])
  {
    var pieces := Template(layout, node);
    OpenIsChild(layout, node, start, i);
    OpenInside(layout, pieces, start, i);
    var slot := staged[i].0;
    assert staged[i..][0] == staged[i];
    forall p
      ensures p in Positions(staged[i..]) <==> p == slot || p in Positions(staged[i + 1..])
      ensures p in Positions(staged[i + 1..]) ==> p != slot
    {
      if p in Positions(staged[i + 1..]) {
        var k :| 0 <= k < |staged[i + 1..]| && staged[i + 1..][k].0 == p;
        assert staged[i..][k + 1].0 == p && staged[i + 1 + k].0 == p;
      }
      if p in Positions(staged[i..]) {
        var k :| 0 <= k < |staged[i..]| && staged[i..][k].0 == p;
        if k > 0 { assert staged[i + 1..][k - 1].0 == p; }
      }
    }
  }

  lemma StillFilling(layout: Layout, out: Bytes, more: Bytes, offsets: Offsets, offsets': Offsets, pieces: seq<Piece>, start: nat,
                     staged: seq<(nat, Byml)>, i: nat)
    requires Filling(layout, out, offsets, pieces, start, staged, i) && out <= more && Extends(offsets, offsets')
    ensures Filling(layout, more, offsets', pieces, start, staged, i)
  {
    forall k | 0 <= k < i
      ensures OffsetOf(offsets, staged[k].1) == OffsetOf(offsets', staged[k].1) && staged[k].1 in offsets'
    {
      assert staged[k].1 in offsets;
    }
    RenderSame(layout, pieces, start, offsets, offsets', i);
    var n := |Render(layout, pieces, offsets, i)|;
    assert more[start..start + n] == out[start..start + n];
  }

  lemma FillNext(layout: Layout, out: Bytes, offsets: Offsets, pieces: seq<Piece>, start: nat, staged: seq<(nat, Byml)>, i: nat, before: Bytes)
    requires Filling(layout, out, offsets, pieces, start, staged, i) && i < |staged| && staged[i].1 in offsets
    requires |before| == start && before <= out
    ensures staged[i].0 + 4 <= |out|
    ensures var after := Patched(out, staged[i].0, Number(layout.big, OffsetOf(offsets, staged[i].1), 4));
            Filling(layout, after, offsets, pieces, start, staged, i + 1) && before <= after && |after| == |out|
  {
    hide Render, Number, Patched;
    var (slot, child) := staged[i];
    var word := Number(layout.big, OffsetOf(offsets, child), 4);
    var body := Render(layout, pieces, offsets, i);
    FillOne(layout, pieces, start, offsets, i);
    var after := Patched(out, slot, word);
    PatchInside(out, start, |body|, slot, word);
    RenderLength(layout, pieces, offsets, i, offsets, i + 1);
  }

  lemma PatchInside(out: Bytes, start: nat, n: nat, slot: nat, word: Bytes)
    requires start <= slot && slot + |word| <= start + n <= |out|
    ensures var after := Patched(out, slot, word);
            |after| == |out| && after[..start] == out[..start]
            && after[start..start + n] == Patched(out[start..start + n], slot - start, word)
  {
    var a, b, c := out[..start], out[start..start + n], out[start + n..];
    var inner := Patched(b, slot - start, word);
    assert Patched(out, slot, word) == a + inner + c;
    assert (a + inner + c)[..start] == a && (a + inner + c)[start..start + n] == inner;
  }

  lemma AllFilled(layout: Layout, before: Bytes, out: Bytes, pending: set<nat>, offsets: Offsets, node: Byml, staged: seq<(nat, Byml)>)
    requires node.IsContainer() && |before| % 4 == 0 && PendingInside(before, pending)
    requires Filling(layout, out, offsets, Template(layout, node), |before|, staged, |staged|)
    ensures ContentAt(layout, out, pending, offsets, node, |before|)
  {
    var pieces := Template(layout, node);
    OpenShift(pieces, |before|, 0);
    forall k | 0 <= k < |Open(pieces, 0)|
      ensures Open(pieces, 0)[k].1 in offsets
    {
      assert staged[k].1 in offsets;
    }
  }

  class Writer {
    const layout: Layout
    const hash: Byml -> nat
    var out: Bytes
    var written: map<nat, nat>
    var nodes: seq<(Byml, nat, nat)>
    /** The slots still open, and the offsets of the nodes written. */
    ghost var pending: set<nat>
    ghost var offsets: Offsets

    /** The four words of the header are open until the end. */
    constructor (layout: Layout, hash: Byml -> nat, out: Bytes)
      requires |out| >= 16
      ensures this.layout == layout && this.hash == hash && this.out == out && pending == {0, 4, 8, 12} && offsets == map[] && Valid()
    {
      this.layout, this.hash, this.out := layout, hash, out;
      written, nodes, pending, offsets := map[], [], {0, 4, 8, 12}, map[];
    }

    ghost predicate Valid()
      reads this
    {
      && AllWritten(layout, out, pending, offsets) && PendingInside(out, pending)
      && Chained(nodes, written, hash) && Recorded(nodes, offsets) && OneEach(offsets)
    }

    method PushRaw(bytes: Bytes, staged: seq<(nat, Byml)>, ghost before: Bytes, ghost pieces: seq<Piece>)
      requires Laid(layout, before, pieces, out, staged)
      modifies this`out
      ensures Laid(layout, before, pieces + [Raw(bytes)], out, staged)
    {
      LaidMore(layout, before, pieces, out, staged, Raw(bytes));
      OnePiece(layout, Raw(bytes), map[]);
      assert Open([Raw(bytes)], |out|) == [] by { assert [Raw(bytes)][1..] == []; }
      assert staged + [] == staged;
      out := out + bytes;
    }

    /** An inline value, or room for the offset of a node written later. */
    method PushSlot(node: Byml, staged: seq<(nat, Byml)>, ghost before: Bytes, ghost pieces: seq<Piece>) returns (more: seq<(nat, Byml)>)
      requires Laid(layout, before, pieces, out, staged)
      modifies this`out
      ensures Laid(layout, before, pieces + [Slot(node)], out, more)
    {
      LaidMore(layout, before, pieces, out, staged, Slot(node));
      OnePiece(layout, Slot(node), map[]);
      assert Open([Slot(node)], |out|) == (if Inline(node) then [] else [(|out|, node)]) by { assert [Slot(node)][1..] == []; }
      more := staged;
      if Inline(node) {
        out := out + Number(layout.big, InlineValue(layout, node), 4);
      } else {
        more := staged + [(|out|, node)];
        out := out + Zeros(4);
      }
      assert more == staged + if Inline(node) then [] else [(|old(out)|, node)];
    }

    method LayOut(node: Byml) returns (staged: seq<(nat, Byml)>)
      requires node.IsContainer()
      modifies this`out
      ensures Laid(layout, old(out), Template(layout, node), out, staged)
    {
      ghost var before := out;
      staged := [];
      assert Laid(layout, before, [], out, staged) by { assert before + [] == before; }
      match node {
        case Array(items) =>
          staged := LayOutArray(items);
        case Map(Named, _) =>
          staged := LayOutNamed(node);
        case Map(_, _) =>
          staged := LayOutHashed(node);
        case ArrayLog(changes) =>
          staged := LayOutLog(changes);
      }
    }

    method LayOutArray(items: seq<Byml>) returns (staged: seq<(nat, Byml)>)
      modifies this`out
      ensures Laid(layout, old(out), Template(layout, Array(items)), out, staged)
    {
      ghost var before, pieces: seq<Piece> := out, [];
      staged := [];
      assert Laid(layout, before, pieces, out, staged) by { assert before + [] == before; }
      PushRaw(Header(layout.big, ARRAY, |items|), staged, before, pieces);
      pieces := pieces + [Raw(Header(layout.big, ARRAY, |items|))];
      var types := Types(items);
      PushRaw(types, staged, before, pieces);
      pieces := pieces + [Raw(types)];
      PushRaw(Zeros(Padding(|items|)), staged, before, pieces);
      pieces := pieces + [Raw(Zeros(Padding(|items|)))];
      ghost var start := pieces;
      var i := 0;
      while i < |items|
        invariant 0 <= i <= |items| && pieces == start + Slots(items[..i]) && Laid(layout, before, pieces, out, staged)
      {
        staged := PushSlot(items[i], staged, before, pieces);
        assert Slots(items[..i + 1]) == Slots(items[..i]) + [Slot(items[i])];
        pieces := pieces + [Slot(items[i])];
        i := i + 1;
      }
      assert items[..i] == items;
      assert pieces == Template(layout, Array(items));
    }

    method LayOutNamed(node: Byml) returns (staged: seq<(nat, Byml)>)
      requires node.Map? && node.kind == Named
      modifies this`out
      ensures Laid(layout, old(out), Template(layout, node), out, staged)
    {
      ghost var before, none: seq<Piece> := out, [];
      staged := [];
      assert Laid(layout, before, none, out, staged) by { assert before + [] == before; }
      var header := Header(layout.big, MAP, |node.entries|);
      PushRaw(header, staged, before, none);
      assert none + [Raw(header)] == [Raw(header)];
      staged := LayOutEntries(node, Keys(layout, node), staged, before, [Raw(header)]);
      NamedTemplate(layout, node);
    }

    method LayOutEntries(node: Byml, keys: seq<Key>, staged: seq<(nat, Byml)>, ghost before: Bytes, ghost head: seq<Piece>)
      returns (more: seq<(nat, Byml)>)
      requires node.Map? && Laid(layout, before, head, out, staged)
      modifies this`out
      ensures Laid(layout, before, head + NamedPieces(layout, node, keys), out, more)
    {
      more := staged;
      ghost var pieces := head;
      var i := 0;
      while i < |keys|
        invariant 0 <= i <= |keys| && Laid(layout, before, pieces, out, more)
        invariant pieces + NamedPieces(layout, node, keys[i..]) == head + NamedPieces(layout, node, keys)
      {
        var value := ValueOf(node, keys[i]);
        var entry := KeyAndType(layout.big, IndexOf(layout.keys, TextOf(keys[i])), NodeType(value));
        assert keys[i..][1..] == keys[i + 1..];
        assert pieces + NamedPieces(layout, node, keys[i..])
            == (pieces + [Raw(entry)] + [Slot(value)]) + NamedPieces(layout, node, keys[i + 1..]);
        PushRaw(entry, more, before, pieces);
        pieces := pieces + [Raw(entry)];
        more := PushSlot(value, more, before, pieces);
        pieces := pieces + [Slot(value)];
        i := i + 1;
      }
      assert pieces == head + NamedPieces(layout, node, keys);
    }

    method LayOutHashed(node: Byml) returns (staged: seq<(nat, Byml)>)
      requires node.Map? && node.kind != Named
      modifies this`out
      ensures Laid(layout, old(out), Template(layout, node), out, staged)
    {
      ghost var before, none: seq<Piece> := out, [];
      staged := [];
      assert Laid(layout, before, none, out, staged) by { assert before + [] == before; }
      var keys, width := Keys(layout, node), Width(node.kind);
      var header := Header(layout.big, NodeType(node), |node.entries|);
      PushRaw(header, staged, before, none);
      ghost var head := none + [Raw(header)];
      staged := LayOutHashes(node, keys, width, staged, before, head);
      ghost var entries := HashedPieces(layout, node, keys, width);
      var types, zeros := Types(ValuesOf(node, keys)), Zeros(Padding(|keys|));
      PushRaw(types, staged, before, head + entries);
      PushRaw(zeros, staged, before, head + entries + [Raw(types)]);
      assert head + entries + [Raw(types)] + [Raw(zeros)] == Template(layout, node);
    }

    method LayOutHashes(node: Byml, keys: seq<Key>, width: nat, staged: seq<(nat, Byml)>, ghost before: Bytes, ghost head: seq<Piece>)
      returns (more: seq<(nat, Byml)>)
      requires node.Map? && Laid(layout, before, head, out, staged)
      modifies this`out
      ensures Laid(layout, before, head + HashedPieces(layout, node, keys, width), out, more)
    {
      more := staged;
      ghost var pieces := head;
      var i := 0;
      while i < |keys|
        invariant 0 <= i <= |keys| && Laid(layout, before, pieces, out, more)
        invariant pieces + HashedPieces(layout, node, keys[i..], width) == head + HashedPieces(layout, node, keys, width)
      {
        var value := ValueOf(node, keys[i]);
        var entry := Number(layout.big, HashOf(keys[i]), width);
        assert keys[i..][1..] == keys[i + 1..];
        assert pieces + HashedPieces(layout, node, keys[i..], width)
            == (pieces + [Raw(entry)] + [Slot(value)]) + HashedPieces(layout, node, keys[i + 1..], width);
        PushRaw(entry, more, before, pieces);
        pieces := pieces + [Raw(entry)];
        more := PushSlot(value, more, before, pieces);
        pieces := pieces + [Slot(value)];
        i := i + 1;
      }
      assert pieces == head + HashedPieces(layout, node, keys, width);
    }

    method LayOutLog(changes: seq<ArrayChange>) returns (staged: seq<(nat, Byml)>)
      modifies this`out
      ensures Laid(layout, old(out), Template(layout, ArrayLog(changes)), out, staged)
    {
      ghost var before, none: seq<Piece> := out, [];
      staged := [];
      assert Laid(layout, before, none, out, staged) by { assert before + [] == before; }
      var header := Header(layout.big, ARRAY_CHANGELOG, |changes|);
      PushRaw(header, staged, before, none);
      staged := LayOutChanges(changes, staged, before, none + [Raw(header)]);
      var types := TypesOfLog(changes);
      PushRaw(types, staged, before, none + [Raw(header)] + LogPieces(layout, changes));
      assert none + [Raw(header)] == [Raw(header)];
    }

    method LayOutChanges(changes: seq<ArrayChange>, staged: seq<(nat, Byml)>, ghost before: Bytes, ghost head: seq<Piece>)
      returns (more: seq<(nat, Byml)>)
      requires Laid(layout, before, head, out, staged)
      modifies this`out
      ensures Laid(layout, before, head + LogPieces(layout, changes), out, more)
    {
      more := staged;
      ghost var pieces := head;
      var i := 0;
      while i < |changes|
        invariant 0 <= i <= |changes| && Laid(layout, before, pieces, out, more)
        invariant pieces + LogPieces(layout, changes[i..]) == head + LogPieces(layout, changes)
      {
        assert changes[i..][1..] == changes[i + 1..];
        assert pieces + LogPieces(layout, changes[i..]) == (pieces + ChangePieces(layout, changes[i])) + LogPieces(layout, changes[i + 1..]);
        more := LayOutChange(changes[i], more, before, pieces);
        pieces := pieces + ChangePieces(layout, changes[i]);
        i := i + 1;
      }
      assert pieces == head + LogPieces(layout, changes);
    }

    method LayOutChange(change: ArrayChange, staged: seq<(nat, Byml)>, ghost before: Bytes, ghost pieces: seq<Piece>)
      returns (more: seq<(nat, Byml)>)
      requires Laid(layout, before, pieces, out, staged)
      modifies this`out
      ensures Laid(layout, before, pieces + ChangePieces(layout, change), out, more)
    {
      ghost var parts := ChangePieces(layout, change);
      var index := Number(layout.big, if -WORD <= change.index then Unsigned(change.index, WORD) else 0, 4);
      PushRaw(index, staged, before, pieces);
      PushRaw(Number(layout.big, RawChange(change.change), 4), staged, before, pieces + [parts[0]]);
      more := PushSlot(change.node, staged, before, pieces + [parts[0]] + [parts[1]]);
      more := PushKey(change.key.primary, more, before, pieces + [parts[0]] + [parts[1]] + [parts[2]]);
      more := PushKey(change.key.secondary, more, before, pieces + [parts[0]] + [parts[1]] + [parts[2]] + [parts[3]]);
      assert pieces + [parts[0]] + [parts[1]] + [parts[2]] + [parts[3]] + [parts[4]] == pieces + parts;
    }

    method PushKey(key: Option<Byml>, staged: seq<(nat, Byml)>, ghost before: Bytes, ghost pieces: seq<Piece>) returns (more: seq<(nat, Byml)>)
      requires Laid(layout, before, pieces, out, staged)
      modifies this`out
      ensures Laid(layout, before, pieces + [KeyPiece(key)], out, more)
    {
      match key {
        case None =>
          PushRaw(Zeros(4), staged, before, pieces);
          more := staged;
        case Some(node) =>
          more := PushSlot(node, staged, before, pieces);
      }
    }

    method TypesOfLog(changes: seq<ArrayChange>) returns (types: Bytes)
      ensures types == LogTypes(changes)
    {
      types := [];
      var i := 0;
      while i < |changes|
        invariant 0 <= i <= |changes| && types + LogTypes(changes[i..]) == LogTypes(changes)
      {
        assert changes[i..][1..] == changes[i + 1..];
        assert types + LogTypes(changes[i..]) == (types + ChangeTypes(changes[i])) + LogTypes(changes[i + 1..]);
        types := types + ChangeTypes(changes[i]);
        i := i + 1;
      }
    }

    /** The offset of an equal node written before, found along the chain of its hash. */
    method Lookup(node: Byml) returns (found: Option<nat>)
      requires Chained(nodes, written, hash) && Recorded(nodes, offsets)
      ensures match found case None => node !in offsets case Some(at) => node in offsets && offsets[node] == at
    {
      var wanted := hash(node);
      var link := LinkOf(written, wanted);
      while link != 0
        invariant 0 <= link <= |nodes|
        invariant link == LastSame(nodes, hash, link, wanted) && NoneFrom(nodes, link, node)
        decreases link
      {
        var (existing, at, previous) := nodes[link - 1];
        if existing == node {
          return Some(at);
        }
        Skipped(nodes, hash, link, previous, node);
        link := previous;
      }
      NotAmong(nodes, offsets, node);
      return None;
    }

    method Remember(node: Byml, at: nat)
      requires Valid() && node !in offsets && !Inline(node) && ContentAt(layout, out, pending, offsets, node, at)
      requires OneEach(offsets[node := at])
      modifies this`written, this`nodes, this`offsets
      ensures Valid() && offsets == old(offsets)[node := at]
    {
      hide AllWritten, ContentAt, Chained, Recorded, OneEach, LinkOf;
      ChainedMore(nodes, written, hash, node, at);
      RecordedMore(nodes, offsets, node, at, LinkOf(written, hash(node)));
      AllAfterOneMore(layout, out, pending, offsets, node, at);
      nodes := nodes + [(node, at, LinkOf(written, hash(node)))];
      written := written[hash(node) := |nodes| - 1];
      offsets := offsets[node := at];
    }

    /** Puts an offset, or a word of the header, into the place left for it. */
    method Put(slot: nat, word: Bytes)
      requires Valid() && slot in pending && |word| == 4
      modifies this`out, this`pending
      ensures Valid() && pending == old(pending) - {slot} && slot + 4 <= |old(out)|
      ensures out == Patched(old(out), slot, word)
    {
      AllAfterPatch(layout, out, pending, offsets, slot, word);
      out := out[..slot] + word + out[slot + 4..];
      pending := pending - {slot};
    }

    /** A container's body, then what its slots wait for. */
    method WriteContainer(node: Byml)
      requires node.IsContainer() && Aligned(node) && Valid() && |out| % 4 == 0
      modifies this
      ensures Valid() && pending == old(pending) && old(out) <= out && |out| % 4 == 0
      ensures Extends(old(offsets), offsets) && OnlyParts(old(offsets), offsets, node)
      ensures ContentAt(layout, out, pending, offsets, node, |old(out)|) && NewAfter(old(offsets), offsets, |old(out)|)
      decreases node, 2
    {
      var staged := Stage(node);
      FillSlots(node, staged, old(out), old(pending), offsets);
      AllFilled(layout, old(out), out, pending, offsets, node, staged);
    }

    /** The body, its slots open. */
    method Stage(node: Byml) returns (staged: seq<(nat, Byml)>)
      requires node.IsContainer() && Valid() && |out| % 4 == 0
      modifies this`out, this`pending
      ensures Valid() && |out| % 4 == 0 && old(out) <= out && PendingInside(old(out), old(pending))
      ensures pending == old(pending) + Positions(staged)
      ensures Filling(layout, out, offsets, Template(layout, node), |old(out)|, staged, 0) && |old(out)| < |out|
    {
      hide AllWritten, ContentAt, Chained, Recorded, OneEach, Render, Template, Open;
      staged := LayOut(node);
      ContentNotEmpty(layout, node, offsets);
      RenderLength(layout, Template(layout, node), map[], 0, offsets, |Open(Template(layout, node), 0)|);
      LaidOut(layout, old(out), out, pending, offsets, node, staged);
      pending := pending + Positions(staged);
    }

    method FillSlots(ghost node: Byml, staged: seq<(nat, Byml)>, ghost before: Bytes, ghost closed: set<nat>, ghost known: Offsets)
      requires node.IsContainer() && Aligned(node) && Valid() && |out| % 4 == 0 && before <= out && |before| < |out|
      requires known == offsets && pending == closed + Positions(staged) && PendingInside(before, closed)
      requires Filling(layout, out, offsets, Template(layout, node), |before|, staged, 0)
      modifies this
      ensures Valid() && |out| % 4 == 0 && before <= out && pending == closed
      ensures Extends(known, offsets) && OnlyParts(known, offsets, node) && NewAfter(known, offsets, |before|)
      ensures Filling(layout, out, offsets, Template(layout, node), |before|, staged, |staged|)
      decreases node, 1, 1
    {
      hide AllWritten, ContentAt, Chained, Recorded, OneEach, Aligned;
      assert staged[0..] == staged;
      var i := 0;
      while i < |staged|
        invariant 0 <= i <= |staged| && Valid() && |out| % 4 == 0 && before <= out && |before| < |out|
        invariant Extends(known, offsets) && OnlyParts(known, offsets, node) && NewAfter(known, offsets, |before|)
        invariant pending == closed + Positions(staged[i..])
        invariant Filling(layout, out, offsets, Template(layout, node), |before|, staged, i)
      {
        FillSlot(node, staged, i, before, closed, known);
        i := i + 1;
      }
      assert Positions(staged[i..]) == {};
    }

    /** Writes the child a slot waits for, or finds it, and puts its offset into the slot. */
    method FillSlot(ghost node: Byml, staged: seq<(nat, Byml)>, i: nat, ghost before: Bytes, ghost closed: set<nat>, ghost known: Offsets)
      requires node.IsContainer() && Aligned(node) && Valid() && |out| % 4 == 0 && before <= out && |before| < |out| && i < |staged|
      requires Extends(known, offsets) && OnlyParts(known, offsets, node) && NewAfter(known, offsets, |before|)
      requires pending == closed + Positions(staged[i..]) && PendingInside(before, closed)
      requires Filling(layout, out, offsets, Template(layout, node), |before|, staged, i)
      modifies this
      ensures Valid() && |out| % 4 == 0 && before <= out && |before| < |out| && pending == closed + Positions(staged[i + 1..])
      ensures Extends(known, offsets) && OnlyParts(known, offsets, node) && NewAfter(known, offsets, |before|)
      ensures Filling(layout, out, offsets, Template(layout, node), |before|, staged, i + 1)
      decreases node, 1, 0
    {
      hide AllWritten, ContentAt, Chained, Recorded, OneEach, Extends, Number, Render, Open;
      ghost var pieces, start := Template(layout, node), |before|;
      RenderLength(layout, pieces, offsets, i, map[], 0);
      NextSlot(layout, node, start, staged, i, out, pending, closed);
      var (slot, child) := staged[i];
      var at := WriteChild(child);
      PartsOfChild(known, old(offsets), offsets, child, node);
      NewAfterMore(known, old(offsets), offsets, |before|, |old(out)| - 1);
      StillFilling(layout, old(out), out, old(offsets), offsets, pieces, start, staged, i);
      FillNext(layout, out, offsets, pieces, start, staged, i, before);
      Put(slot, Number(layout.big, at, 4));
    }

    /** Writes a node unless an equal one is there already. */
    method WriteChild(node: Byml) returns (at: nat)
      requires !Inline(node) && Aligned(node) && Valid() && |out| % 4 == 0
      modifies this
      ensures Valid() && pending == old(pending) && old(out) <= out && |out| % 4 == 0
      ensures Extends(old(offsets), offsets) && ItAndParts(old(offsets), offsets, node)
      ensures node in offsets && offsets[node] == at && NewAfter(old(offsets), offsets, |old(out)| - 1)
      decreases node, 4
    {
      hide AllWritten, ContentAt, OnBoundary, Chained, Recorded, PendingInside, OneEach, Extends, OnlyParts, ItAndParts, NewAfter, Aligned;
      KnownStays(offsets, node, |out| - 1);
      var found := Lookup(node);
      if found.Some? {
        return found.value;
      }
      AlignData(node);
      at := |out|;
      OffsetsBefore(layout, old(out), pending, offsets);
      WriteContent(node);
      NotItself(old(offsets), offsets, node);
      OwnOffset(old(offsets), offsets, node, at);
      AfterRemembering(old(offsets), offsets, node, at, |old(out)| - 1);
      Remember(node, at);
    }

    method WriteContent(node: Byml)
      requires !Inline(node) && Aligned(node) && Valid() && |out| % 4 == 0 && OnBoundary(node, |out|)
      modifies this
      ensures Valid() && pending == old(pending) && old(out) <= out && |out| % 4 == 0
      ensures Extends(old(offsets), offsets) && OnlyParts(old(offsets), offsets, node)
      ensures ContentAt(layout, out, pending, offsets, node, |old(out)|) && NewAfter(old(offsets), offsets, |old(out)|)
      decreases node, 3
    {
      if node.IsContainer() {
        WriteContainer(node);
      } else {
        WriteSpecial(node);
      }
    }

    /** The header of aligned binary goes where its data will be on the boundary. */
    method AlignData(node: Byml)
      requires Aligned(node) && Valid() && |out| % 4 == 0
      modifies this`out
      ensures Valid() && old(out) <= out && |out| % 4 == 0 && OnBoundary(node, |out|)
    {
      match node {
        case Leaf(BinaryAligned(_, alignment)) =>
          BoundaryKeepsFour(|out|, alignment);
          AllAfterGrowth(layout, out, out + Zeros(Boundary(|out|, alignment)), pending, pending, offsets);
          out := out + Zeros(Boundary(|out|, alignment));
        case _ =>
      }
    }

    method WriteSpecial(node: Byml)
      requires !Inline(node) && !node.IsContainer() && Aligned(node) && Valid() && |out| % 4 == 0
      modifies this`out
      ensures Valid() && out == old(out) + Special(layout, node) && |out| % 4 == 0
      ensures OnBoundary(node, |old(out)|) ==> ContentAt(layout, out, pending, offsets, node, |old(out)|)
    {
      hide Special, AllWritten, ContentAt, OnBoundary, Chained, Recorded, OneEach, Aligned;
      var bytes := Special(layout, node);
      SpecialSize(layout, node);
      AllAfterGrowth(layout, out, out + bytes, pending, pending, offsets);
      if OnBoundary(node, |out|) { SpecialThere(layout, out, pending, offsets, node); }
      out := out + bytes;
    }
  }

  ghost predicate NoneFrom(nodes: seq<(Byml, nat, nat)>, from: nat, node: Byml) {
    forall i :: from <= i < |nodes| ==> nodes[i].0 != node
  }

  /** Nodes passed over have another hash, so they are other nodes. */
  lemma Skipped(nodes: seq<(Byml, nat, nat)>, hash: Byml -> nat, link: nat, previous: nat, node: Byml)
    requires 0 < link <= |nodes| && NoneFrom(nodes, link, node) && nodes[link - 1].0 != node
    requires hash(nodes[link - 1].0) == hash(node) && previous == LastSame(nodes, hash, link - 1, hash(node))
    ensures NoneFrom(nodes, previous, node) && previous < link && previous == LastSame(nodes, hash, previous, hash(node))
  {
    LastSameAgain(nodes, hash, link - 1, hash(node));
    forall i | previous <= i < |nodes|
      ensures nodes[i].0 != node
    {
      if i < link - 1 { assert hash(nodes[i].0) != hash(node); }
    }
  }

  lemma LastSameAgain(nodes: seq<(Byml, nat, nat)>, hash: Byml -> nat, n: nat, wanted: nat)
    requires n <= |nodes|
    ensures LastSame(nodes, hash, LastSame(nodes, hash, n, wanted), wanted) == LastSame(nodes, hash, n, wanted)
  {
  }

  lemma NotAmong(nodes: seq<(Byml, nat, nat)>, offsets: Offsets, node: Byml)
    requires Recorded(nodes, offsets) && NoneFrom(nodes, 0, node)
    ensures node !in offsets
  {
    assert !IsAmong(nodes, node);
  }
}
