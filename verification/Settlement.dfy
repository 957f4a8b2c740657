/** Applying what is tracked one path at a time settles the same document as one pass over the
    annotated tree: no step changes what the rest settles to. */
module Settlement {
  import opened Documents
  import opened Pending
  import opened Views
  import opened TrackingSteps
  import opened Heights
  import RoundTrip
  import KeyedRows

  /** The document with the node at `path` replaced. */
  function Put(node: Byml, path: Path, now: Byml): Byml
    requires Resolve(node, path).Some?
    decreases |path|
  {
    if path == [] then now
    else
      var child := Put(Child(node, path[0]), path[1..], now);
      match path[0]
      case AtKey(_, key) => node.(entries := node.entries[key := child])
      case AtIndex(index) => node.(items := node.items[index := child])
  }

  /** What a view tracks at and below a path. */
  ghost function SubAt(view: View, path: Path): View
    decreases |path|
  {
    if path == [] then view else SubAt(Sub(view, path[0]), path[1..])
  }

  /** Two views differ at or below `path` only. */
  ghost predicate Beside(a: View, b: View, path: Path)
    decreases |path|
  {
    path != [] ==> SameHere(a, b) && SameBeside(a, b, path[0]) && Beside(Sub(a, path[0]), Sub(b, path[0]), path[1..])
  }

  lemma {:induction false} BesideFrom(maps: map<Path, set<Segment>>, arrays: map<Path, ArrayEntry>, maps': map<Path, set<Segment>>,
                                      arrays': map<Path, ArrayEntry>, at: Path, path: Path)
    requires Elsewhere(maps, maps', at + path) && Elsewhere(arrays, arrays', at + path)
    ensures Beside(At(maps, arrays, at), At(maps', arrays', at), path)
    decreases |path|
  {
    if path != [] {
      var seg, rest := path[0], path[1..];
      assert (at + [seg]) + rest == at + path;
      ElsewhereUp(maps, maps', at + [seg], rest);
      ElsewhereUp(arrays, arrays', at + [seg], rest);
      ElsewhereView(maps, arrays, maps', arrays', at, seg);
      AtChild(maps, arrays, at, seg);
      AtChild(maps', arrays', at, seg);
      BesideFrom(maps, arrays, maps', arrays', at + [seg], rest);
    }
  }

  lemma ElsewhereUp<V>(before: map<Path, V>, after: map<Path, V>, path: Path, rest: Path)
    requires Elsewhere(before, after, path + rest)
    ensures Elsewhere(before, after, path)
  {
    forall p | !(path <= p)
      ensures Get(after, p) == Get(before, p)
    {
      assert path + rest <= p ==> path <= p;
    }
  }

  lemma {:induction false} SubAtIs(maps: map<Path, set<Segment>>, arrays: map<Path, ArrayEntry>, at: Path, path: Path)
    ensures SubAt(At(maps, arrays, at), path) == At(maps, arrays, at + path)
    decreases |path|
  {
    if path == [] {
      assert at + path == at;
    } else {
      AtChild(maps, arrays, at, path[0]);
      SubAtIs(maps, arrays, at + [path[0]], path[1..]);
      assert (at + [path[0]]) + path[1..] == at + path;
    }
  }

  // ---------- one node replaced ----------

  /** What settling a map does to its entries. */
  lemma SettledMapIs(c: Context, tree: Tree)
    requires tree.PMap?
    ensures Settle(c, tree).Some? <==> forall k :: k in tree.entries && k !in tree.removed ==> Settle(c, tree.entries[k]).Some?
    ensures Settle(c, tree).Some? ==>
              var r := Settle(c, tree).value;
              r.Map? && r.kind == tree.kind && r.entries.Keys == tree.entries.Keys - tree.removed
              && forall k :: k in r.entries ==> Settle(c, tree.entries[k]) == Some(r.entries[k])
  {
  }

  lemma SameSettledMap(c: Context, a: Tree, b: Tree, key: Key)
    requires a.PMap? && b.PMap? && a.kind == b.kind && a.removed == b.removed && a.entries.Keys == b.entries.Keys
    requires forall k :: k in a.entries && k != key ==> a.entries[k] == b.entries[k]
    requires key in a.entries && Settle(c, a.entries[key]) == Settle(c, b.entries[key])
    ensures Settle(c, a) == Settle(c, b)
  {
    hide Settle;
    SettledMapIs(c, a);
    SettledMapIs(c, b);
    if Settle(c, a).Some? {
      assert Settle(c, a).value.entries == Settle(c, b).value.entries;
    }
  }

  /** What settling an array does first: its rows settle one by one. */
  lemma SettledArrayIs(c: Context, tree: Tree, rows: seq<Byml>)
    requires tree.PArray?
    ensures Settle(c, tree).Some? ==> forall i :: 0 <= i < |tree.items| ==> Settle(c, tree.items[i]).Some?
    ensures |rows| == |tree.items| && (forall i :: 0 <= i < |rows| ==> Settle(c, tree.items[i]) == Some(rows[i])) ==>
              Settle(c, tree) == if tree.entry.None? then Some(Array(rows))
                                 else match SettleArray(c, rows, tree.entry.value)
                                   case None => None
                                   case Some(settled) => Some(Array(settled))
  {
    if |rows| == |tree.items| && forall i :: 0 <= i < |rows| ==> Settle(c, tree.items[i]) == Some(rows[i]) {
      assert seq(|tree.items|, i requires 0 <= i < |tree.items| => Settle(c, tree.items[i]).value) == rows;
    }
  }

  lemma SameSettledArray(c: Context, a: Tree, b: Tree, at: nat)
    requires a.PArray? && b.PArray? && a.entry == b.entry && |a.items| == |b.items|
    requires forall i :: 0 <= i < |a.items| && i != at ==> a.items[i] == b.items[i]
    requires at < |a.items| && Settle(c, a.items[at]) == Settle(c, b.items[at])
    ensures Settle(c, a) == Settle(c, b)
  {
    if forall i :: 0 <= i < |a.items| ==> Settle(c, a.items[i]).Some? {
      var rows := seq(|a.items|, i requires 0 <= i < |a.items| => Settle(c, a.items[i]).value);
      SettledArrayIs(c, a, rows);
      SettledArrayIs(c, b, rows);
    } else {
      SettledArrayIs(c, a, []);
      SettledArrayIs(c, b, []);
    }
  }

  ghost predicate SettlesAlike(c: Context, a: Byml, va: View, b: Byml, vb: View) {
    Settle(c, Annotate(a, va)) == Settle(c, Annotate(b, vb))
  }

  /** A map or array with one child replaced by another that settles to the same settles to the same. */
  lemma SameSettledChild(c: Context, node: Byml, view: View, seg: Segment, child: Byml, after: View)
    requires HasChild(node, seg) && SameHere(view, after) && SameBeside(view, after, seg)
    requires SettlesAlike(c, Child(node, seg), Sub(view, seg), child, Sub(after, seg))
    ensures Resolve(node, [seg]).Some? && SettlesAlike(c, node, view, Put(node, [seg], child), after)
  {
    assert [seg][1..] == [] && Resolve(node, [seg]) == Some(Child(node, seg));
    match seg
    case AtKey(_, key) => SameSettledEntry(c, node, view, key, child, after);
    case AtIndex(index) => SameSettledItem(c, node.items, view, index, child, after);
  }

  lemma SameSettledEntry(c: Context, node: Byml, view: View, key: Key, child: Byml, after: View)
    requires node.Map? && key in node.entries && SameHere(view, after) && SameBeside(view, after, AtKey(node.kind, key))
    requires SettlesAlike(c, node.entries[key], Sub(view, AtKey(node.kind, key)), child, Sub(after, AtKey(node.kind, key)))
    ensures SettlesAlike(c, node, view, Map(node.kind, node.entries[key := child]), after)
  {
    OtherEntries(node, view, key, child, after);
    MapTree(node, view);
    MapTree(Map(node.kind, node.entries[key := child]), after);
    SameSettledMap(c, Annotate(node, view), Annotate(Map(node.kind, node.entries[key := child]), after), key);
  }

  lemma OtherEntries(node: Byml, view: View, key: Key, child: Byml, after: View)
    requires node.Map? && key in node.entries && SameBeside(view, after, AtKey(node.kind, key))
    ensures var a, b := AnnotateEntries(node, view), AnnotateEntries(Map(node.kind, node.entries[key := child]), after);
            a.Keys == b.Keys && key in a && (forall k :: k in a && k != key ==> a[k] == b[k])
            && b[key] == Annotate(child, Sub(after, AtKey(node.kind, key)))
  {
    var now := Map(node.kind, node.entries[key := child]);
    assert now.entries.Keys == node.entries.Keys && now.entries[key] == child;
    forall k | k in node.entries && k != key
      ensures AnnotateEntries(node, view)[k] == AnnotateEntries(now, after)[k]
    {
      assert now.entries[k] == node.entries[k] && SameSub(view, after, AtKey(node.kind, k));
    }
  }

  lemma MapTree(node: Byml, view: View)
    requires node.Map?
    ensures Annotate(node, view) == PMap(node.kind, AnnotateEntries(node, view), Removed(view, node.kind))
  {
  }

  lemma SameSettledItem(c: Context, items: seq<Byml>, view: View, index: nat, child: Byml, after: View)
    requires index < |items| && SameHere(view, after) && SameBeside(view, after, AtIndex(index))
    requires SettlesAlike(c, items[index], Sub(view, AtIndex(index)), child, Sub(after, AtIndex(index)))
    ensures SettlesAlike(c, Array(items), view, Array(items[index := child]), after)
  {
    var a, b := AnnotateAll(items, view), AnnotateAll(items[index := child], after);
    OtherItems(items, view, index, child, after);
    SameSettledArray(c, PArray(a, EntryIn(view)), PArray(b, EntryIn(after)), index);
    ArrayTree(items, view);
    ArrayTree(items[index := child], after);
  }

  lemma ArrayTree(items: seq<Byml>, view: View)
    ensures Annotate(Array(items), view) == PArray(AnnotateAll(items, view), EntryIn(view))
  {
  }

  lemma OtherItems(items: seq<Byml>, view: View, index: nat, child: Byml, after: View)
    requires index < |items| && SameBeside(view, after, AtIndex(index))
    ensures forall i :: 0 <= i < |items| && i != index ==>
              AnnotateAll(items, view)[i] == AnnotateAll(items[index := child], after)[i]
  {
    forall i | 0 <= i < |items| && i != index
      ensures AnnotateAll(items, view)[i] == AnnotateAll(items[index := child], after)[i]
    {
      assert SameSub(view, after, AtIndex(i));
    }
  }

  lemma {:induction false} SameSettled(c: Context, node: Byml, view: View, path: Path, now: Byml, after: View)
    requires Resolve(node, path).Some? && Beside(view, after, path)
    requires SettlesAlike(c, Resolve(node, path).value, SubAt(view, path), now, SubAt(after, path))
    ensures SettlesAlike(c, node, view, Put(node, path, now), after)
    decreases |path|
  {
    if path != [] {
      var seg := path[0];
      var child := Put(Child(node, seg), path[1..], now);
      SameSettled(c, Child(node, seg), Sub(view, seg), path[1..], now, Sub(after, seg));
      SameSettledChild(c, node, view, seg, child, after);
      assert Put(node, [seg], child) == Put(node, path, now);
    }
  }

  /** What is tracked where there is no node does not matter. */
  lemma {:induction false} Unresolved(node: Byml, view: View, path: Path, after: View)
    requires Resolve(node, path).None? && Beside(view, after, path)
    ensures Annotate(node, view) == Annotate(node, after)
    decreases |path|
  {
    var seg := path[0];
    if HasChild(node, seg) {
      Unresolved(Child(node, seg), Sub(view, seg), path[1..], Sub(after, seg));
    }
    forall other | HasChild(node, other)
      ensures Annotate(Child(node, other), Sub(view, other)) == Annotate(Child(node, other), Sub(after, other))
    {
      assert other != seg ==> SameSub(view, after, other);
    }
    SameAnnotated(node, view, after);
  }

  lemma SameAnnotated(node: Byml, view: View, after: View)
    requires node.Map? ==> Removed(view, node.kind) == Removed(after, node.kind)
    requires node.Array? ==> EntryIn(view) == EntryIn(after)
    requires forall seg :: HasChild(node, seg) ==>
               Annotate(Child(node, seg), Sub(view, seg)) == Annotate(Child(node, seg), Sub(after, seg))
    ensures Annotate(node, view) == Annotate(node, after)
  {
    match node
    case Map(_, _) =>
      MapTree(node, view);
      MapTree(node, after);
      SameChildTrees(node, view, after);
      assert AnnotateEntries(node, view) == AnnotateEntries(node, after);
    case Array(items) =>
      ArrayTree(items, view);
      ArrayTree(items, after);
      SameChildTrees(node, view, after);
      assert AnnotateAll(items, view) == AnnotateAll(items, after);
    case _ =>
  }

  lemma SameChildTrees(node: Byml, view: View, after: View)
    requires forall seg :: HasChild(node, seg) ==>
               Annotate(Child(node, seg), Sub(view, seg)) == Annotate(Child(node, seg), Sub(after, seg))
    ensures node.Map? ==> forall k :: k in node.entries ==> AnnotateEntries(node, view)[k] == AnnotateEntries(node, after)[k]
    ensures node.Array? ==> forall i :: 0 <= i < |node.items| ==> AnnotateAll(node.items, view)[i] == AnnotateAll(node.items, after)[i]
  {
    if node.Map? {
      forall k | k in node.entries
        ensures AnnotateEntries(node, view)[k] == AnnotateEntries(node, after)[k]
      {
        assert HasChild(node, AtKey(node.kind, k));
      }
    }
    if node.Array? {
      forall i | 0 <= i < |node.items|
        ensures AnnotateAll(node.items, view)[i] == AnnotateAll(node.items, after)[i]
      {
        assert HasChild(node, AtIndex(i));
      }
    }
  }

  // ---------- maps: keys removed ----------

  /** The node with its tracked keys taken out; other nodes stay. */
  function WithoutKeys(node: Byml, segments: set<Segment>): Byml {
    match node
    case Map(kind, entries) => Map(kind, entries - KeysOf(segments, kind))
    case _ => node
  }

  lemma KeysTakenOut(c: Context, node: Byml, view: View, after: View)
    requires SameBelow(view, after) && [] !in after.maps && EntryIn(after) == EntryIn(view) && [] in view.maps
    ensures SettlesAlike(c, node, view, WithoutKeys(node, view.maps[[]]), after)
  {
    var now := WithoutKeys(node, view.maps[[]]);
    if node.Map? {
      var a, b := Annotate(node, view), Annotate(now, after);
      forall k | k in now.entries
        ensures a.entries[k] == b.entries[k]
      {
        assert SameSub(view, after, AtKey(node.kind, k));
      }
      SettledWithout(c, a, b);
    } else {
      forall seg | HasChild(node, seg)
        ensures Annotate(Child(node, seg), Sub(view, seg)) == Annotate(Child(node, seg), Sub(after, seg))
      {
        assert SameSub(view, after, seg);
      }
      SameAnnotated(node, view, after);
    }
  }

  lemma SettledWithout(c: Context, a: Tree, b: Tree)
    requires a.PMap? && b.PMap? && a.kind == b.kind && b.removed == {}
    requires b.entries.Keys == a.entries.Keys - a.removed
    requires forall k :: k in b.entries ==> b.entries[k] == a.entries[k]
    ensures Settle(c, a) == Settle(c, b)
  {
    if Settle(c, a).Some? {
      assert Settle(c, a).value.entries == Settle(c, b).value.entries;
    }
  }

  // ---------- arrays: removals and additions ----------

  /** Nothing is tracked below an array but its own entry: settling it is settling its rows as they are. */
  lemma RowsSettled(c: Context, items: seq<Byml>, view: View)
    requires [] in view.arrays && forall seg :: Sub(view, seg) == Nothing()
    ensures Settle(c, Annotate(Array(items), view))
            == match SettleArray(c, items, view.arrays[[]])
               case None => None
               case Some(rows) => Some(Array(rows))
  {
    var tree := Annotate(Array(items), view);
    forall i | 0 <= i < |items|
      ensures Settle(c, tree.items[i]) == Some(items[i])
    {
      AnnotateNothing(items[i]);
      RoundTrip.FreshSettles(c, items[i]);
    }
    SettledArrayIs(c, tree, items);
  }

  lemma NothingSettles(c: Context, node: Byml)
    ensures Settle(c, Annotate(node, Nothing())) == Some(node)
  {
    AnnotateNothing(node);
    RoundTrip.FreshSettles(c, node);
  }

  ghost predicate NoKeysRemoved(view: View) { view.maps == imap[] }

  /** With no key left to remove, a node that cannot be settled keeps the document from settling. */
  lemma {:induction false} Unsettled(c: Context, node: Byml, view: View, path: Path)
    requires Resolve(node, path).Some? && NoKeysRemoved(view)
    requires Settle(c, Annotate(Resolve(node, path).value, SubAt(view, path))) == None
    ensures Settle(c, Annotate(node, view)) == None
    decreases |path|
  {
    if path != [] {
      var seg := path[0];
      assert NoKeysRemoved(Sub(view, seg));
      Unsettled(c, Child(node, seg), Sub(view, seg), path[1..]);
      UnsettledChild(c, node, view, seg);
    }
  }

  lemma UnsettledChild(c: Context, node: Byml, view: View, seg: Segment)
    requires HasChild(node, seg) && NoKeysRemoved(view) && Settle(c, Annotate(Child(node, seg), Sub(view, seg))) == None
    ensures Settle(c, Annotate(node, view)) == None
  {
    match seg
    case AtKey(kind, key) =>
      MapTree(node, view);
      assert AnnotateEntries(node, view)[key] == Annotate(Child(node, seg), Sub(view, seg));
      SettledMapIs(c, Annotate(node, view));
    case AtIndex(index) =>
      ArrayTree(node.items, view);
      assert AnnotateAll(node.items, view)[index] == Annotate(Child(node, seg), Sub(view, seg));
      SettledArrayIs(c, Annotate(node, view), []);
  }

  // ---------- how tall the additions still to be made are ----------

  lemma {:induction false} TrackedAdditions(node: Byml, view: View, path: Path)
    requires InPlace(node, view) && path in view.arrays
    ensures EntryHeight(view.arrays[path]) <= Tallest(Annotate(node, view))
    decreases |path|
  {
    if path == [] {
      TallestChild(Annotate(node, view));
    } else {
      var seg := path[0];
      assert path == [seg] + path[1..];
      assert path[1..] in Sub(view, seg).arrays;
      ChildInPlace(node, view, seg);
      TrackedAdditions(Child(node, seg), Sub(view, seg), path[1..]);
      ChildTallest(node, view, seg);
    }
  }

  lemma ChildTallest(node: Byml, view: View, seg: Segment)
    requires HasChild(node, seg)
    ensures Tallest(Annotate(Child(node, seg), Sub(view, seg))) <= Tallest(Annotate(node, view))
  {
    TallestChild(Annotate(node, view));
    match seg
    case AtKey(kind, key) =>
      assert Annotate(node, view).entries[key] == Annotate(Child(node, seg), Sub(view, seg));
    case AtIndex(index) =>
      assert Annotate(node, view).items[index] == Annotate(Child(node, seg), Sub(view, seg));
  }

  // ---------- one recorded path applied ----------

  lemma RootView(maps: map<Path, set<Segment>>, arrays: map<Path, ArrayEntry>, path: Path)
    ensures SubAt(At(maps, arrays, []), path) == At(maps, arrays, path)
  {
    SubAtIs(maps, arrays, [], path);
    assert [] + path == path;
  }

  lemma RootBeside(maps: map<Path, set<Segment>>, arrays: map<Path, ArrayEntry>, maps': map<Path, set<Segment>>,
                   arrays': map<Path, ArrayEntry>, path: Path)
    requires Elsewhere(maps, maps', path) && Elsewhere(arrays, arrays', path)
    ensures Beside(At(maps, arrays, []), At(maps', arrays', []), path)
  {
    assert [] + path == path;
    BesideFrom(maps, arrays, maps', arrays', [], path);
  }

  /** Taking out the keys recorded at one path. */
  lemma MapStep(c: Context, node: Byml, maps: map<Path, set<Segment>>, arrays: map<Path, ArrayEntry>, p: Path)
    requires p in maps
    ensures var now := if Resolve(node, p).None? then node else Put(node, p, WithoutKeys(Resolve(node, p).value, maps[p]));
            SettlesAlike(c, node, At(maps, arrays, []), now, At(maps - {p}, arrays, []))
  {
    var maps' := maps - {p};
    ViewHere(maps, arrays, maps', arrays, p);
    RootBeside(maps, arrays, maps', arrays, p);
    if Resolve(node, p).None? {
      Unresolved(node, At(maps, arrays, []), p, At(maps', arrays, []));
    } else {
      RootView(maps, arrays, p);
      RootView(maps', arrays, p);
      var at := Resolve(node, p).value;
      KeysTakenOut(c, at, At(maps, arrays, p), At(maps', arrays, p));
      SameSettled(c, node, At(maps, arrays, []), p, WithoutKeys(at, maps[p]), At(maps', arrays, []));
    }
  }

  /** The document once the entry recorded at one path is applied. */
  ghost function WithEntryApplied(c: Context, node: Byml, p: Path, entry: ArrayEntry): Option<Byml> {
    if !NamesArray(node, p) then Some(node)
    else
      match SettleArray(c, Resolve(node, p).value.items, entry)
      case None => None
      case Some(rows) => Some(Put(node, p, Array(rows)))
  }

  /** Applying the entry of one array none deeper than which is left. */
  lemma ArrayStep(c: Context, node: Byml, maps: map<Path, set<Segment>>, arrays: map<Path, ArrayEntry>, p: Path)
    requires maps == map[] && p in arrays && forall q :: q in arrays ==> |q| <= |p|
    ensures var now := WithEntryApplied(c, node, p, arrays[p]);
            if now.None? then Settle(c, Annotate(node, At(maps, arrays, []))) == None
            else SettlesAlike(c, node, At(maps, arrays, []), now.value, At(maps, arrays - {p}, []))
  {
    hide Settle, SettleArray, Annotate;
    var arrays' := arrays - {p};
    assert forall q :: q != p ==> Get(arrays', q) == Get(arrays, q);
    RootBeside(maps, arrays, maps, arrays', p);
    RootView(maps, arrays, p);
    RootView(maps, arrays', p);
    AtHere(maps, arrays, p);
    NothingDeeper(maps, arrays, p);
    if Resolve(node, p).None? {
      Unresolved(node, At(maps, arrays, []), p, At(maps, arrays', []));
    } else if NamesArray(node, p) {
      var items := Resolve(node, p).value.items;
      RowsSettled(c, items, At(maps, arrays, p));
      var rows := SettleArray(c, items, arrays[p]);
      if rows.None? {
        Unsettled(c, node, At(maps, arrays, []), p);
      } else {
        NothingSettles(c, Array(rows.value));
        SameSettled(c, node, At(maps, arrays, []), p, Array(rows.value), At(maps, arrays', []));
      }
    } else {
      var at := Resolve(node, p).value;
      forall seg | HasChild(at, seg)
        ensures Annotate(Child(at, seg), Sub(At(maps, arrays, p), seg)) == Annotate(Child(at, seg), Sub(At(maps, arrays', p), seg))
      {
        NothingBelow(seg);
      }
      SameAnnotated(at, At(maps, arrays, p), At(maps, arrays', p));
      SameSettled(c, node, At(maps, arrays, []), p, at, At(maps, arrays', []));
      PutBack(node, p);
    }
  }

  lemma NothingDeeper(maps: map<Path, set<Segment>>, arrays: map<Path, ArrayEntry>, p: Path)
    requires maps == map[] && p in arrays && forall q :: q in arrays ==> |q| <= |p|
    ensures forall seg :: Sub(At(maps, arrays, p), seg) == Nothing()
    ensures At(maps, arrays - {p}, p) == Nothing()
    ensures NoKeysRemoved(At(maps, arrays, []))
  {
    forall seg
      ensures Sub(At(maps, arrays, p), seg) == Nothing()
    {
      AtChild(maps, arrays, p, seg);
      assert forall rel: Path :: |(p + [seg]) + rel| > |p|;
      assert Below(arrays, p + [seg]) == imap[];
    }
    forall rel: Path
      ensures p + rel !in arrays - {p}
    {
      if rel == [] { assert p + rel == p; }
    }
    assert Below(arrays - {p}, p) == imap[];
  }

  lemma {:induction false} PutBack(node: Byml, path: Path)
    requires Resolve(node, path).Some?
    ensures Put(node, path, Resolve(node, path).value) == node
    decreases |path|
  {
    if path != [] {
      PutBack(Child(node, path[0]), path[1..]);
    }
  }

  lemma NothingLeft(c: Context, node: Byml, maps: map<Path, set<Segment>>, arrays: map<Path, ArrayEntry>)
    requires maps == map[] && arrays == map[]
    ensures Settle(c, Annotate(node, At(maps, arrays, []))) == Some(node)
  {
    assert At(maps, arrays, []) == Nothing();
    NothingSettles(c, node);
  }

  lemma AllTracked(node: Byml, maps: map<Path, set<Segment>>, arrays: map<Path, ArrayEntry>)
    requires InPlace(node, At(maps, arrays, []))
    ensures forall p :: p in arrays ==> EntryHeight(arrays[p]) <= Tallest(Annotate(node, At(maps, arrays, [])))
  {
    forall p | p in arrays
      ensures EntryHeight(arrays[p]) <= Tallest(Annotate(node, At(maps, arrays, [])))
    {
      assert [] + p == p;
      TrackedAdditions(node, At(maps, arrays, []), p);
    }
  }

  lemma NothingTracked(node: Byml, maps: map<Path, set<Segment>>, arrays: map<Path, ArrayEntry>)
    requires maps == map[] && arrays == map[]
    ensures InPlace(node, At(maps, arrays, [])) && Annotate(node, At(maps, arrays, [])) == Fresh(node)
  {
    assert At(maps, arrays, []) == Nothing();
    AnnotateNothing(node);
  }

  // ---------- the loops over groups and changelogs ----------

  ghost predicate KeyedInRange(s: Settling) {
    forall key :: key in s.keyed ==> s.keyed[key] < |s.rows|
  }

  lemma SettleGroupsStep(c: Context, name: Option<string>, depth: int, bound: nat, s: Settling, groups: seq<(int, seq<Byml>)>, g: nat)
    requires g < |groups|
    ensures SettleGroups(c, name, depth, bound, s, groups[..g + 1])
            == match SettleGroups(c, name, depth, bound, s, groups[..g])
               case None => None
               case Some(before) =>
                 if name.Some? then
                   KeyedGroups(c, depth, bound, before, groups[g].0,
                               GroupsBy(Keys(c.rules.mergerKey(name.value, c.ApplyType(), depth), groups[g].1)))
                 else Some(InsertAll(before, groups[g].0, groups[g].1))
  {
    assert groups[..g + 1][..g] == groups[..g];
  }

  lemma {:induction false} SettleGroupsFail(c: Context, name: Option<string>, depth: int, bound: nat, s: Settling,
                                            groups: seq<(int, seq<Byml>)>, g: nat)
    requires g <= |groups| && SettleGroups(c, name, depth, bound, s, groups[..g]) == None
    ensures SettleGroups(c, name, depth, bound, s, groups) == None
    decreases |groups| - g
  {
    if g < |groups| {
      SettleGroupsStep(c, name, depth, bound, s, groups, g);
      SettleGroupsFail(c, name, depth, bound, s, groups, g + 1);
    } else {
      assert groups[..g] == groups;
    }
  }

  lemma KeyedGroupsStep(c: Context, depth: int, bound: nat, s: Settling, index: int, groups: seq<(RowKey, seq<Byml>)>, g: nat)
    requires g < |groups|
    ensures KeyedGroups(c, depth, bound, s, index, groups[..g + 1])
            == match KeyedGroups(c, depth, bound, s, index, groups[..g])
               case None => None
               case Some(before) =>
                 if groups[g].1 == [] then Some(before) else KeyedGroup(c, depth, bound, before, index, groups[g].0, groups[g].1)
  {
    assert groups[..g + 1][..g] == groups[..g];
  }

  lemma {:induction false} KeyedGroupsFail(c: Context, depth: int, bound: nat, s: Settling, index: int, groups: seq<(RowKey, seq<Byml>)>, g: nat)
    requires g <= |groups| && KeyedGroups(c, depth, bound, s, index, groups[..g]) == None
    ensures KeyedGroups(c, depth, bound, s, index, groups) == None
    decreases |groups| - g
  {
    if g < |groups| {
      KeyedGroupsStep(c, depth, bound, s, index, groups, g);
      KeyedGroupsFail(c, depth, bound, s, index, groups, g + 1);
    } else {
      assert groups[..g] == groups;
    }
  }

  lemma MergeAllStep(c: Context, base: Tree, logs: seq<Byml>, i: nat)
    requires i < |logs|
    ensures MergeAll(c, 0, base, logs[..i + 1])
            == match MergeAll(c, 0, base, logs[..i])
               case None => None
               case Some(tree) => Merge(c, 0, tree, logs[i])
  {
    assert logs[..i + 1][..i] == logs[..i];
  }

  lemma {:induction false} MergeAllFails(c: Context, base: Tree, logs: seq<Byml>, i: nat)
    requires i <= |logs| && MergeAll(c, 0, base, logs[..i]) == None
    ensures MergeAll(c, 0, base, logs) == None
    decreases |logs| - i
  {
    if i < |logs| {
      MergeAllStep(c, base, logs, i);
      MergeAllFails(c, base, logs, i + 1);
    } else {
      assert logs[..i] == logs;
    }
  }

  /** Rows with a key are maps, so they have some height. */
  lemma KeyHeight(name: Option<KeyName>, groups: seq<(RowKey, seq<Byml>)>, g: nat, bound: nat)
    requires g < |groups| && groups[g].1 != [] && KeyedRows.GroupedByKey(name, groups) && GroupsWithin(groups, bound)
    ensures RowsWithin(groups[g].1, bound) && (groups[g].0.IsEmpty() || bound > 0)
  {
    var (key, nodes) := groups[g];
    assert Height(nodes[0]) <= bound;
    KeyedRows.FirstHasKey(name, nodes, key);
    if !key.IsEmpty() {
      KeyedRowHeight(name.value, nodes[0]);
    }
  }
}
