/** Recorded work keyed by path, seen from one node: what is tracked at and below it, with paths
    taken relative to it. */
module Views {
  import opened Documents
  import opened Pending

  /** A step from a container to one of its nodes; a step into a map also fixes the kind of key. */
  datatype Segment = AtKey(kind: Kind, key: Key) | AtIndex(index: nat)

  type Path = seq<Segment>

  datatype View = View(maps: imap<Path, set<Segment>>, arrays: imap<Path, ArrayEntry>)

  ghost function Nothing(): View { View(imap[], imap[]) }

  ghost function Below<V>(tracked: map<Path, V>, path: Path): imap<Path, V> {
    imap rel: Path | path + rel in tracked :: tracked[path + rel]
  }

  ghost function Shift<V>(tracked: imap<Path, V>, seg: Segment): imap<Path, V> {
    imap rel: Path | [seg] + rel in tracked :: tracked[[seg] + rel]
  }

  /** What is tracked at and below `path`. */
  ghost function At(maps: map<Path, set<Segment>>, arrays: map<Path, ArrayEntry>, path: Path): View {
    View(Below(maps, path), Below(arrays, path))
  }

  /** What a view tracks in one child. */
  ghost function Sub(view: View, seg: Segment): View {
    View(Shift(view.maps, seg), Shift(view.arrays, seg))
  }

  /** Nothing changed except at and below `path`. */
  ghost predicate Elsewhere<V>(before: map<Path, V>, after: map<Path, V>, path: Path) {
    forall p :: !(path <= p) ==> Get(after, p) == Get(before, p)
  }

  function KeysOf(segments: set<Segment>, kind: Kind): set<Key> {
    set s | s in segments && s.AtKey? && s.kind == kind :: s.key
  }

  ghost function Removed(view: View, kind: Kind): set<Key> {
    if [] in view.maps then KeysOf(view.maps[[]], kind) else {}
  }

  /** The document with what is tracked written at the nodes concerned. */
  ghost function Annotate(node: Byml, view: View): Tree
    decreases node, 1
  {
    match node
    case Map(kind, _) => PMap(kind, AnnotateEntries(node, view), Removed(view, kind))
    case Array(items) => PArray(AnnotateAll(items, view), if [] in view.arrays then Some(view.arrays[[]]) else None)
    case _ => Plain(node)
  }

  ghost function AnnotateEntries(node: Byml, view: View): (trees: map<Key, Tree>)
    requires node.Map?
    ensures trees.Keys == node.entries.Keys
    ensures forall k :: k in node.entries ==> trees[k] == Annotate(node.entries[k], Sub(view, AtKey(node.kind, k)))
    decreases node, 0
  {
    map k | k in node.entries :: Annotate(node.entries[k], Sub(view, AtKey(node.kind, k)))
  }

  ghost function AnnotateAll(items: seq<Byml>, view: View): (trees: seq<Tree>)
    ensures |trees| == |items| && forall i :: 0 <= i < |items| ==> trees[i] == Annotate(items[i], Sub(view, AtIndex(i)))
    decreases items
  {
    seq(|items|, i requires 0 <= i < |items| => Annotate(items[i], Sub(view, AtIndex(i))))
  }

  predicate HasChild(node: Byml, seg: Segment) {
    match seg
    case AtKey(kind, key) => node.Map? && node.kind == kind && key in node.entries
    case AtIndex(index) => node.Array? && index < |node.items|
  }

  function Child(node: Byml, seg: Segment): (child: Byml)
    requires HasChild(node, seg)
    ensures child < node
  {
    match seg
    case AtKey(_, key) => node.entries[key]
    case AtIndex(index) => node.items[index]
  }

  /** Whatever is tracked is tracked at a node of its kind: maps at maps, arrays at arrays. */
  ghost predicate InPlace(node: Byml, view: View)
    decreases node
  {
    && ([] in view.maps ==> node.Map? && forall s :: s in view.maps[[]] ==> s.AtKey? && s.kind == node.kind)
    && ([] in view.arrays ==> node.Array?)
    && forall seg :: if HasChild(node, seg) then InPlace(Child(node, seg), Sub(view, seg)) else Sub(view, seg) == Nothing()
  }

  function Resolve(node: Byml, path: Path): Option<Byml>
    decreases |path|
  {
    if path == [] then Some(node)
    else if HasChild(node, path[0]) then Resolve(Child(node, path[0]), path[1..])
    else None
  }

  // ---------- what it means for paths ----------

  predicate NamesMap(node: Byml, path: Path, keys: set<Segment>) {
    match Resolve(node, path)
    case Some(Map(kind, _)) => forall s :: s in keys ==> s.AtKey? && s.kind == kind
    case _ => false
  }

  predicate NamesArray(node: Byml, path: Path) {
    match Resolve(node, path)
    case Some(Array(_)) => true
    case _ => false
  }

  /** Every tracked path leads to a node of the kind it was recorded for. */
  lemma {:induction false} InPlacePaths(node: Byml, view: View, path: Path)
    requires InPlace(node, view)
    ensures path in view.maps ==> NamesMap(node, path, view.maps[path])
    ensures path in view.arrays ==> NamesArray(node, path)
    decreases |path|
  {
    if path != [] {
      assert path == [path[0]] + path[1..];
      assert path in view.maps ==> path[1..] in Sub(view, path[0]).maps;
      assert path in view.arrays ==> path[1..] in Sub(view, path[0]).arrays;
      if HasChild(node, path[0]) {
        InPlacePaths(Child(node, path[0]), Sub(view, path[0]), path[1..]);
      } else {
        assert Sub(view, path[0]) == Nothing();
      }
    }
  }

  // ---------- nothing tracked ----------

  lemma NothingBelow(seg: Segment)
    ensures Sub(Nothing(), seg) == Nothing()
  {
  }

  lemma {:induction false} AnnotateNothing(node: Byml)
    ensures Annotate(node, Nothing()) == Fresh(node) && InPlace(node, Nothing())
    decreases node
  {
    forall seg
      ensures HasChild(node, seg) ==> InPlace(Child(node, seg), Sub(Nothing(), seg))
      ensures HasChild(node, seg) ==> Annotate(Child(node, seg), Sub(Nothing(), seg)) == Fresh(Child(node, seg))
      ensures Sub(Nothing(), seg) == Nothing()
    {
      NothingBelow(seg);
      if HasChild(node, seg) {
        AnnotateNothing(Child(node, seg));
      }
    }
    match node
    case Map(kind, entries) =>
      forall k | k in entries
        ensures Annotate(entries[k], Sub(Nothing(), AtKey(kind, k))) == Fresh(entries[k])
      {
        assert HasChild(node, AtKey(kind, k)) && Child(node, AtKey(kind, k)) == entries[k];
      }
    case Array(items) =>
      forall i | 0 <= i < |items|
        ensures Annotate(items[i], Sub(Nothing(), AtIndex(i))) == Fresh(items[i])
      {
        assert HasChild(node, AtIndex(i)) && Child(node, AtIndex(i)) == items[i];
      }
    case _ =>
  }

  lemma {:induction false} StripAnnotate(node: Byml, view: View)
    ensures Strip(Annotate(node, view)) == node
    decreases node
  {
    match node
    case Map(kind, entries) =>
      forall k | k in entries
        ensures Strip(Annotate(entries[k], Sub(view, AtKey(kind, k)))) == entries[k]
      {
        StripAnnotate(entries[k], Sub(view, AtKey(kind, k)));
      }
      StripMap(Annotate(node, view), entries);
    case Array(items) =>
      StripAnnotateAll(items, view);
    case _ =>
  }

  lemma StripMap(tree: Tree, entries: map<Key, Byml>)
    requires tree.PMap? && tree.entries.Keys == entries.Keys && forall k :: k in entries ==> Strip(tree.entries[k]) == entries[k]
    ensures Strip(tree) == Map(tree.kind, entries)
  {
    assert (map k | k in tree.entries :: Strip(tree.entries[k])) == entries;
  }

  lemma {:induction false} StripAnnotateAll(items: seq<Byml>, view: View)
    ensures StripAll(AnnotateAll(items, view)) == items
    decreases items
  {
    forall i | 0 <= i < |items|
      ensures Strip(Annotate(items[i], Sub(view, AtIndex(i)))) == items[i]
    {
      StripAnnotate(items[i], Sub(view, AtIndex(i)));
    }
  }

  lemma AnnotateContainer(node: Byml, view: View)
    ensures Annotate(node, view).IsContainer() == node.IsContainer()
  {
  }

  // ---------- views and paths ----------

  lemma BelowOne<V>(tracked: map<Path, V>, path: Path, seg: Segment)
    ensures Shift(Below(tracked, path), seg) == Below(tracked, path + [seg])
  {
    var shifted, below := Shift(Below(tracked, path), seg), Below(tracked, path + [seg]);
    forall rel: Path
      ensures rel in shifted <==> rel in below
      ensures rel in below ==> shifted[rel] == below[rel]
    {
      PathAssoc(path, seg, rel);
      assert [seg] + rel in Below(tracked, path) <==> path + ([seg] + rel) in tracked;
    }
    assert shifted == below;
  }

  lemma PathAssoc(path: Path, seg: Segment, rel: Path)
    ensures (path + [seg]) + rel == path + ([seg] + rel)
  {
  }

  lemma BelowHere<V>(tracked: map<Path, V>, path: Path)
    ensures [] in Below(tracked, path) <==> path in tracked
    ensures path in tracked ==> Below(tracked, path)[[]] == tracked[path]
  {
    assert path + [] == path;
  }

  lemma AtChild(maps: map<Path, set<Segment>>, arrays: map<Path, ArrayEntry>, path: Path, seg: Segment)
    ensures Sub(At(maps, arrays, path), seg) == At(maps, arrays, path + [seg])
  {
    BelowOne(maps, path, seg);
    BelowOne(arrays, path, seg);
  }

  lemma AtHere(maps: map<Path, set<Segment>>, arrays: map<Path, ArrayEntry>, path: Path)
    ensures [] in At(maps, arrays, path).maps <==> path in maps
    ensures path in maps ==> At(maps, arrays, path).maps[[]] == maps[path]
    ensures [] in At(maps, arrays, path).arrays <==> path in arrays
    ensures path in arrays ==> At(maps, arrays, path).arrays[[]] == arrays[path]
  {
    BelowHere(maps, path);
    BelowHere(arrays, path);
  }

  lemma PrefixTrans(path: Path, seg: Segment, p: Path)
    ensures path + [seg] <= p ==> path <= p
  {
  }

  /** A change below one child leaves the node itself and its other children alone. */
  lemma ElsewhereChild<V>(before: map<Path, V>, after: map<Path, V>, path: Path, seg: Segment)
    requires Elsewhere(before, after, path + [seg])
    ensures Elsewhere(before, after, path)
    ensures Get(after, path) == Get(before, path)
    ensures forall other :: other != seg ==> Below(after, path + [other]) == Below(before, path + [other])
  {
    assert !(path + [seg] <= path);
    forall p | !(path <= p)
      ensures Get(after, p) == Get(before, p)
    {
      PrefixTrans(path, seg, p);
    }
    forall other | other != seg
      ensures Below(after, path + [other]) == Below(before, path + [other])
    {
      forall rel: Path
        ensures Get(after, (path + [other]) + rel) == Get(before, (path + [other]) + rel)
      {
        var p := (path + [other]) + rel;
        assert p[|path|] == other;
        assert !(path + [seg] <= p);
      }
      BelowSame(before, after, path + [other]);
    }
  }

  lemma BelowSame<V>(before: map<Path, V>, after: map<Path, V>, path: Path)
    requires forall rel: Path :: Get(after, path + rel) == Get(before, path + rel)
    ensures Below(after, path) == Below(before, path)
  {
    forall rel: Path
      ensures path + rel in after <==> path + rel in before
      ensures path + rel in after ==> after[path + rel] == before[path + rel]
    {
      assert Get(after, path + rel) == Get(before, path + rel);
    }
  }

  /** A change of what is tracked at `path` itself leaves everything below alone. */
  lemma ChangeHere<V>(before: map<Path, V>, after: map<Path, V>, path: Path)
    requires forall p :: p != path ==> Get(after, p) == Get(before, p)
    ensures Elsewhere(before, after, path)
    ensures forall seg :: Below(after, path + [seg]) == Below(before, path + [seg])
  {
    forall seg
      ensures Below(after, path + [seg]) == Below(before, path + [seg])
    {
      forall rel: Path
        ensures Get(after, (path + [seg]) + rel) == Get(before, (path + [seg]) + rel)
      {
        assert |(path + [seg]) + rel| > |path|;
      }
      BelowSame(before, after, path + [seg]);
    }
  }

  lemma ElsewhereTrans<V>(a: map<Path, V>, b: map<Path, V>, c: map<Path, V>, path: Path)
    requires Elsewhere(a, b, path) && Elsewhere(b, c, path)
    ensures Elsewhere(a, c, path)
  {
  }
}
