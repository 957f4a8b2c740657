/** Equal nodes of a document are written once: their parents' slots hold the same offset, and slots of
    different nodes hold different ones. */
module BymlSharing {
  import opened Documents
  import opened BymlFormat
  import opened BymlTables
  import opened BymlWriter
  import opened BymlReading

  /** The children of a container that have offsets, with the places of their slots. */
  function Children(layout: Layout, node: Byml): seq<(nat, Byml)> {
    if node.IsContainer() then Open(Template(layout, node), 0) else []
  }

  /** The node a path of child numbers leads to. */
  function Follow(layout: Layout, root: Byml, path: seq<nat>): Option<Byml>
    decreases |path|
  {
    if path == [] then Some(root)
    else
      match Follow(layout, root, path[..|path| - 1])
      case None => None
      case Some(parent) => Child(Children(layout, parent), path[|path| - 1])
  }

  function Child(children: seq<(nat, Byml)>, k: nat): Option<Byml> {
    if k < |children| then Some(children[k].1) else None
  }

  ghost predicate Written(layout: Layout, out: Bytes, offsets: Offsets, root: Byml, rootAt: nat) {
    root.IsContainer() && AllWritten(layout, out, {}, offsets) && ContentAt(layout, out, {}, offsets, root, rootAt)
  }

  /** Where the node at the end of a path is. */
  function Where(layout: Layout, offsets: Offsets, root: Byml, rootAt: nat, path: seq<nat>): nat {
    if path == [] then rootAt
    else match Follow(layout, root, path) case None => 0 case Some(node) => OffsetOf(offsets, node)
  }

  /** Where the slot of the last step of a path is. */
  function SlotAt(layout: Layout, offsets: Offsets, root: Byml, rootAt: nat, path: seq<nat>): nat
    requires path != []
  {
    var up := path[..|path| - 1];
    match Follow(layout, root, up)
    case None => 0
    case Some(parent) =>
      var children := Children(layout, parent);
      Where(layout, offsets, root, rootAt, up) + if path[|path| - 1] < |children| then children[path[|path| - 1]].0 else 0
  }

  lemma {:induction false} FilledSlot(layout: Layout, pieces: seq<Piece>, at: nat, offsets: Offsets, k: nat)
    requires k < |Open(pieces, at)|
    ensures at <= Open(pieces, at)[k].0
    ensures Holds(Filled(layout, pieces, offsets), Open(pieces, at)[k].0 - at, Number(layout.big, OffsetOf(offsets, Open(pieces, at)[k].1), 4))
    decreases |pieces|
  {
    hide Number, InlineValue, Inline, FilledPiece, Holds;
    var (slot, child) := Open(pieces, at)[k];
    var first := FilledPiece(layout, pieces[0], offsets);
    var rest := Open(pieces[1..], at + |first|);
    var here := OpenFirst(layout, pieces, at, offsets);
    OpenFrom(pieces, at, k);
    if k >= |here| {
      FilledSlot(layout, pieces[1..], at + |first|, offsets, k - |here|);
      HoldsBehind(first, Filled(layout, pieces[1..], offsets), slot - at - |first|, Number(layout.big, OffsetOf(offsets, child), 4));
    } else {
      HoldsFront(first, Filled(layout, pieces[1..], offsets));
    }
  }

  /** The first piece has one open slot, which is all of it, or none. */
  lemma OpenFirst(layout: Layout, pieces: seq<Piece>, at: nat, offsets: Offsets) returns (here: seq<(nat, Byml)>)
    requires pieces != []
    ensures |here| <= 1 && Open(pieces, at) == here + Open(pieces[1..], at + |FilledPiece(layout, pieces[0], offsets)|)
    ensures here != [] ==> here[0].0 == at && FilledPiece(layout, pieces[0], offsets) == Number(layout.big, OffsetOf(offsets, here[0].1), 4)
  {
    hide Number, InlineValue;
    here := match pieces[0] case Raw(_) => [] case Slot(child) => if Inline(child) then [] else [(at, child)];
  }

  lemma HoldsFront(first: Bytes, rest: Bytes)
    ensures Holds(first + rest, 0, first)
  {
  }

  lemma HoldsBehind(first: Bytes, rest: Bytes, at: nat, bytes: Bytes)
    requires Holds(rest, at, bytes)
    ensures Holds(first + rest, |first| + at, bytes)
  {
  }

  lemma HoldsInside(out: Bytes, at: nat, body: Bytes, k: nat, bytes: Bytes)
    requires Holds(out, at, body) && Holds(body, k, bytes)
    ensures Holds(out, at + k, bytes)
  {
    forall i | 0 <= i < |bytes|
      ensures out[at + k + i] == bytes[i]
    {
      assert out[at..at + |body|][k + i] == body[k..k + |bytes|][i];
    }
  }

  /** A written container's slot holds the offset of its child. */
  lemma SlotOfChild(layout: Layout, out: Bytes, offsets: Offsets, node: Byml, at: nat, k: nat)
    requires node.IsContainer() && ContentAt(layout, out, {}, offsets, node, at) && k < |Children(layout, node)|
    ensures Children(layout, node)[k].1 in offsets
    ensures Holds(out, at + Children(layout, node)[k].0, Number(layout.big, offsets[Children(layout, node)[k].1], 4))
  {
    hide Template, Number, Render, Open;
    var pieces := Template(layout, node);
    FilledSlot(layout, pieces, 0, offsets, k);
    FilledIsRender(layout, pieces, offsets, 0, |Open(pieces, 0)|);
    HoldsInside(out, at, Body(layout, node, offsets), Children(layout, node)[k].0,
                Number(layout.big, OffsetOf(offsets, Children(layout, node)[k].1), 4));
  }

  /** Every node below the root has an offset, its bytes are there, and the slot of each way to it says so. */
  lemma {:induction false} EveryNodeFound(layout: Layout, out: Bytes, offsets: Offsets, root: Byml, rootAt: nat, path: seq<nat>, node: Byml)
    requires Written(layout, out, offsets, root, rootAt) && path != [] && Follow(layout, root, path) == Some(node)
    ensures node in offsets && ContentAt(layout, out, {}, offsets, node, offsets[node])
    ensures Holds(out, SlotAt(layout, offsets, root, rootAt, path), Number(layout.big, offsets[node], 4))
    decreases |path|
  {
    hide ContentAt, Number, Children;
    var up, k := path[..|path| - 1], path[|path| - 1];
    var parent := Follow(layout, root, up).value;
    assert node == Children(layout, parent)[k].1;
    ParentIsContainer(layout, parent, k);
    if up != [] {
      EveryNodeFound(layout, out, offsets, root, rootAt, up, parent);
    }
    SlotOfChild(layout, out, offsets, parent, Where(layout, offsets, root, rootAt, up), k);
  }

  lemma ParentIsContainer(layout: Layout, parent: Byml, k: nat)
    requires k < |Children(layout, parent)|
    ensures parent.IsContainer()
  {
  }

  /** Two ways down from the root lead to slots with the same offset exactly when they lead to equal nodes. */
  lemma OneOffsetEach(layout: Layout, reader: Reader, offsets: Offsets, root: Byml, rootAt: nat, p: seq<nat>, a: Byml, q: seq<nat>, b: Byml)
    requires Written(layout, reader.data, offsets, root, rootAt) && OneEach(offsets) && reader.big == layout.big && |reader.data| < WORD
    requires p != [] && Follow(layout, root, p) == Some(a) && q != [] && Follow(layout, root, q) == Some(b)
    ensures reader.Number(SlotAt(layout, offsets, root, rootAt, p), 4) == reader.Number(SlotAt(layout, offsets, root, rootAt, q), 4) <==> a == b
  {
    hide Number, NumberAt, Reader.Number, Reader.Node, Follow, SlotAt, Holds, AllWritten;
    EveryNodeFound(layout, reader.data, offsets, root, rootAt, p, a);
    EveryNodeFound(layout, reader.data, offsets, root, rootAt, q, b);
    OffsetsBefore(layout, reader.data, {}, offsets);
    Powers();
    NumberHeld(reader.data, reader.big, reader.keys, reader.strings, SlotAt(layout, offsets, root, rootAt, p), offsets[a], 4);
    NumberHeld(reader.data, reader.big, reader.keys, reader.strings, SlotAt(layout, offsets, root, rootAt, q), offsets[b], 4);
  }
}
