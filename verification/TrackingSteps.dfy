/** One node changed, or one thing tracked: what that does to the annotated document. */
module TrackingSteps {
  import opened Documents
  import opened Changelogs
  import opened Pending
  import opened Views

  // ---------- maps ----------

  ghost predicate OwnKind(view: View, kind: Kind) {
    [] in view.maps ==> forall s :: s in view.maps[[]] ==> s.AtKey? && s.kind == kind
  }

  ghost predicate SameSub(a: View, b: View, seg: Segment) { Sub(a, seg) == Sub(b, seg) }

  ghost predicate SameBelow(a: View, b: View) {
    forall seg :: SameSub(a, b, seg)
  }

  ghost predicate SameBeside(a: View, b: View, one: Segment) {
    forall seg :: seg != one ==> SameSub(a, b, seg)
  }

  ghost predicate ChildOk(node: Byml, view: View, seg: Segment) {
    if HasChild(node, seg) then InPlace(Child(node, seg), Sub(view, seg)) else Sub(view, seg) == Nothing()
  }

  lemma ChildInPlace(node: Byml, view: View, seg: Segment)
    requires InPlace(node, view)
    ensures ChildOk(node, view, seg)
  {
  }

  lemma ChildrenInPlace(node: Byml, view: View)
    requires if node.Map? then [] !in view.arrays && OwnKind(view, node.kind) else node.Array? && [] !in view.maps
    requires forall seg :: ChildOk(node, view, seg)
    ensures InPlace(node, view)
  {
    forall seg
      ensures if HasChild(node, seg) then InPlace(Child(node, seg), Sub(view, seg)) else Sub(view, seg) == Nothing()
    {
      assert ChildOk(node, view, seg);
    }
  }

  /** Nothing changes below: the node's children stay as they are. */
  lemma SameChildren(node: Byml, before: View, after: View)
    requires InPlace(node, before) && SameBelow(before, after)
    ensures forall seg :: ChildOk(node, after, seg)
  {
    forall seg
      ensures ChildOk(node, after, seg)
    {
      ChildInPlace(node, before, seg);
      assert SameSub(before, after, seg);
    }
  }

  /** Tracking more or fewer removed keys. */
  lemma MarkedMap(node: Byml, before: View, after: View)
    requires node.Map? && InPlace(node, before) && SameBelow(before, after)
    requires after.arrays == before.arrays && OwnKind(after, node.kind)
    ensures InPlace(node, after)
    ensures Annotate(node, after) == PMap(node.kind, Annotate(node, before).entries, Removed(after, node.kind))
  {
    SameChildren(node, before, after);
    ChildrenInPlace(node, after);
    SameEntries(node, before, after);
  }

  lemma SameEntries(node: Byml, before: View, after: View)
    requires node.Map? && SameBelow(before, after)
    ensures AnnotateEntries(node, after) == AnnotateEntries(node, before)
  {
    var a, b := AnnotateEntries(node, after), AnnotateEntries(node, before);
    forall k | k in a
      ensures a[k] == b[k]
    {
      SameEntry(node.kind, node.entries, node.entries, before, after, k);
    }
    SameMaps(a, b);
  }

  lemma SameMaps<V>(a: map<Key, V>, b: map<Key, V>)
    requires a.Keys == b.Keys && forall k :: k in a ==> a[k] == b[k]
    ensures a == b
  {
  }

  lemma SameEntry(kind: Kind, was: map<Key, Byml>, now: map<Key, Byml>, before: View, after: View, k: Key)
    requires k in was && k in now && was[k] == now[k] && (SameBelow(before, after) || exists key :: key != k && SameBeside(before, after, AtKey(kind, key)))
    ensures AnnotateEntries(Map(kind, now), after)[k] == AnnotateEntries(Map(kind, was), before)[k]
  {
    assert SameSub(before, after, AtKey(kind, k));
  }

  /** One entry replaced or added. */
  lemma UpdatedMap(kind: Kind, entries: map<Key, Byml>, before: View, key: Key, value: Byml, after: View)
    requires InPlace(Map(kind, entries), before) && SameBeside(before, after, AtKey(kind, key))
    requires [] !in after.arrays && OwnKind(after, kind) && InPlace(value, Sub(after, AtKey(kind, key)))
    ensures InPlace(Map(kind, entries[key := value]), after)
    ensures Annotate(Map(kind, entries[key := value]), after)
            == PMap(kind, Annotate(Map(kind, entries), before).entries[key := Annotate(value, Sub(after, AtKey(kind, key)))],
                    Removed(after, kind))
  {
    hide InPlace;
    var node, now := Map(kind, entries), Map(kind, entries[key := value]);
    forall seg
      ensures ChildOk(now, after, seg)
    {
      ChildInPlace(node, before, seg);
      if seg != AtKey(kind, key) {
        assert SameSub(before, after, seg);
      }
    }
    ChildrenInPlace(now, after);
    UpdatedEntries(kind, entries, before, key, value, after);
  }

  lemma UpdatedEntries(kind: Kind, entries: map<Key, Byml>, before: View, key: Key, value: Byml, after: View)
    requires SameBeside(before, after, AtKey(kind, key))
    ensures AnnotateEntries(Map(kind, entries[key := value]), after)
            == AnnotateEntries(Map(kind, entries), before)[key := Annotate(value, Sub(after, AtKey(kind, key)))]
  {
    OtherEntriesSame(kind, entries, before, key, value, after);
    var now := Map(kind, entries[key := value]);
    assert now.entries[key] == value;
    assert AnnotateEntries(now, after)[key] == Annotate(value, Sub(after, AtKey(kind, key)));
    SameButOneKey(AnnotateEntries(now, after), AnnotateEntries(Map(kind, entries), before), key);
  }

  lemma OtherEntriesSame(kind: Kind, entries: map<Key, Byml>, before: View, key: Key, value: Byml, after: View)
    requires SameBeside(before, after, AtKey(kind, key))
    ensures var a, b := AnnotateEntries(Map(kind, entries[key := value]), after), AnnotateEntries(Map(kind, entries), before);
            a.Keys == b.Keys + {key} && forall k :: k in b && k != key ==> a[k] == b[k]
  {
    forall k | k in entries && k != key
      ensures AnnotateEntries(Map(kind, entries[key := value]), after)[k] == AnnotateEntries(Map(kind, entries), before)[k]
    {
      SameEntry(kind, entries, entries[key := value], before, after, k);
    }
  }

  lemma SameButOneKey<V>(a: map<Key, V>, b: map<Key, V>, key: Key)
    requires a.Keys == b.Keys + {key} && forall k :: k in b && k != key ==> a[k] == b[k]
    ensures a == b[key := a[key]]
  {
  }

  lemma KeysWith(segments: set<Segment>, kind: Kind, key: Key)
    ensures KeysOf(segments + {AtKey(kind, key)}, kind) == KeysOf(segments, kind) + {key}
    ensures KeysOf(segments - {AtKey(kind, key)}, kind) == KeysOf(segments, kind) - {key}
  {
    forall k
      ensures k in KeysOf(segments + {AtKey(kind, key)}, kind) <==> k in KeysOf(segments, kind) + {key}
      ensures k in KeysOf(segments - {AtKey(kind, key)}, kind) <==> k in KeysOf(segments, kind) - {key}
    {
      assert k in KeysOf(segments, kind) <==> AtKey(kind, k) in segments;
      assert k in KeysOf(segments + {AtKey(kind, key)}, kind) <==> AtKey(kind, k) in segments + {AtKey(kind, key)};
      assert k in KeysOf(segments - {AtKey(kind, key)}, kind) <==> AtKey(kind, k) in segments - {AtKey(kind, key)};
    }
  }

  // ---------- one key of a map changelog ----------

  ghost predicate SameKey(before: Tree, after: Tree, k: Key)
    requires before.PMap? && after.PMap?
  {
    Get(after.entries, k) == Get(before.entries, k) && (k in after.removed <==> k in before.removed)
  }

  ghost predicate KeyDone(c: Context, depth: int, before: Tree, after: Tree, k: Key, entry: Byml)
    requires before.PMap? && after.PMap?
  {
    && (k in after.removed <==> entry.IsRemove())
    && if entry.IsRemove() then Get(after.entries, k) == Get(before.entries, k)
       else if k !in before.entries then Get(after.entries, k) == Some(Fresh(entry))
       else k in after.entries && MergeEntry(c, depth, k, before.entries[k], entry) == Some(after.entries[k])
  }

  ghost predicate KeyMerged(c: Context, depth: int, before: Tree, after: Tree, key: Key, entry: Byml) {
    && before.PMap? && after.PMap? && after.kind == before.kind
    && KeyDone(c, depth, before, after, key, entry)
    && forall k :: k != key ==> SameKey(before, after, k)
  }

  ghost predicate KeyFails(c: Context, depth: int, before: Tree, key: Key, entry: Byml) {
    before.PMap? && !entry.IsRemove() && key in before.entries && MergeEntry(c, depth, key, before.entries[key], entry).None?
  }

  ghost predicate MergedSoFar(c: Context, depth: int, before: Tree, after: Tree, log: map<Key, Byml>, todo: set<Key>) {
    && before.PMap? && after.PMap? && after.kind == before.kind
    && forall k :: if k in log && k !in todo then KeyDone(c, depth, before, after, k, log[k]) else SameKey(before, after, k)
  }

  lemma MergedStart(c: Context, depth: int, base: Tree, log: map<Key, Byml>)
    requires base.PMap?
    ensures MergedSoFar(c, depth, base, base, log, log.Keys)
  {
  }

  lemma MergedStep(c: Context, depth: int, base: Tree, before: Tree, after: Tree, log: map<Key, Byml>, todo: set<Key>, key: Key)
    requires MergedSoFar(c, depth, base, before, log, todo) && key in todo && key in log
    requires KeyMerged(c, depth, before, after, key, log[key])
    ensures MergedSoFar(c, depth, base, after, log, todo - {key})
  {
    forall k
      ensures if k in log && k !in todo - {key} then KeyDone(c, depth, base, after, k, log[k]) else SameKey(base, after, k)
    {
      assert if k in log && k !in todo then KeyDone(c, depth, base, before, k, log[k]) else SameKey(base, before, k);
      if k != key {
        assert SameKey(before, after, k);
      } else {
        GetSame(before.entries, base.entries, k);
      }
    }
  }

  lemma GetSame<V>(a: map<Key, V>, b: map<Key, V>, k: Key)
    requires Get(a, k) == Get(b, k)
    ensures (k in a <==> k in b) && (k in a ==> a[k] == b[k])
  {
  }

  lemma MergedFails(c: Context, depth: int, base: Tree, before: Tree, log: Byml, todo: set<Key>, key: Key)
    requires log.Map? && MergedSoFar(c, depth, base, before, log.entries, todo) && key in todo && key in log.entries
    requires KeyFails(c, depth, before, key, log.entries[key])
    ensures MergeMap(c, depth, base, log) == None
  {
    assert SameKey(base, before, key);
    GetSame(before.entries, base.entries, key);
    assert Sets(log.entries, key);
  }

  lemma MergedAll(c: Context, depth: int, base: Tree, after: Tree, log: Byml, todo: set<Key>)
    requires log.Map? && MergedSoFar(c, depth, base, after, log.entries, todo) && todo == {}
    ensures MergeMap(c, depth, base, log) == Some(after)
  {
    forall k
      ensures k in log.entries && k in base.entries && Sets(log.entries, k) ==>
                MergeEntry(c, depth, k, base.entries[k], log.entries[k]).Some?
      ensures k in after.entries <==> k in base.entries || Sets(log.entries, k)
      ensures k in after.removed <==> (k in log.entries && !Sets(log.entries, k)) || (k in base.removed && !Sets(log.entries, k))
      ensures k in after.entries ==> after.entries[k] == if !Sets(log.entries, k) then base.entries[k]
                else if k !in base.entries then Fresh(log.entries[k])
                else MergeEntry(c, depth, k, base.entries[k], log.entries[k]).value
    {
      assert if k in log.entries && k !in todo then KeyDone(c, depth, base, after, k, log.entries[k]) else SameKey(base, after, k);
    }
    var merged := MergeMap(c, depth, base, log).value;
    assert merged.entries == after.entries;
    assert merged.removed == after.removed;
  }

  // ---------- arrays ----------

  ghost function EntryIn(view: View): Option<ArrayEntry> {
    if [] in view.arrays then Some(view.arrays[[]]) else None
  }

  /** Recording something for an array. */
  lemma NotedArray(items: seq<Byml>, before: View, after: View)
    requires InPlace(Array(items), before) && SameBelow(before, after) && after.maps == before.maps
    ensures InPlace(Array(items), after)
    ensures AnnotateAll(items, after) == AnnotateAll(items, before)
  {
    SameChildren(Array(items), before, after);
    ChildrenInPlace(Array(items), after);
    var a, b := AnnotateAll(items, after), AnnotateAll(items, before);
    forall i | 0 <= i < |items|
      ensures a[i] == b[i]
    {
      assert SameSub(before, after, AtIndex(i));
    }
  }

  /** One row replaced. */
  lemma UpdatedArray(items: seq<Byml>, before: View, at: nat, row: Byml, after: View)
    requires at < |items| && InPlace(Array(items), before) && SameBeside(before, after, AtIndex(at))
    requires [] !in after.maps && InPlace(row, Sub(after, AtIndex(at)))
    ensures InPlace(Array(items[at := row]), after)
    ensures AnnotateAll(items[at := row], after) == AnnotateAll(items, before)[at := Annotate(row, Sub(after, AtIndex(at)))]
  {
    var node, now := Array(items), Array(items[at := row]);
    forall seg
      ensures ChildOk(now, after, seg)
    {
      ChildInPlace(node, before, seg);
      if seg != AtIndex(at) {
        assert SameSub(before, after, seg);
      }
    }
    ChildrenInPlace(now, after);
    UpdatedRows(items, before, at, row, after);
  }

  lemma UpdatedRows(items: seq<Byml>, before: View, at: nat, row: Byml, after: View)
    requires at < |items| && SameBeside(before, after, AtIndex(at))
    ensures AnnotateAll(items[at := row], after) == AnnotateAll(items, before)[at := Annotate(row, Sub(after, AtIndex(at)))]
  {
    OtherRows(items, before, at, row, after);
    var a, b := AnnotateAll(items[at := row], after), AnnotateAll(items, before);
    assert a[at] == Annotate(row, Sub(after, AtIndex(at)));
    SameButOne(a, b, at);
  }

  lemma OtherRows(items: seq<Byml>, before: View, at: nat, row: Byml, after: View)
    requires at < |items| && SameBeside(before, after, AtIndex(at))
    ensures forall i :: 0 <= i < |items| && i != at ==> AnnotateAll(items[at := row], after)[i] == AnnotateAll(items, before)[i]
  {
    forall i | 0 <= i < |items| && i != at
      ensures AnnotateAll(items[at := row], after)[i] == AnnotateAll(items, before)[i]
    {
      assert SameSub(before, after, AtIndex(i));
    }
  }

  lemma SameButOne<T>(a: seq<T>, b: seq<T>, at: nat)
    requires |a| == |b| && at < |a| && forall i :: 0 <= i < |a| && i != at ==> a[i] == b[i]
    ensures a == b[at := a[at]]
  {
  }

  /** Rows added at the end. */
  lemma ExtendedArray(items: seq<Byml>, more: seq<Byml>, view: View)
    requires InPlace(Array(items), view)
    ensures InPlace(Array(items + more), view)
    ensures AnnotateAll(items + more, view)
            == AnnotateAll(items, view) + seq(|more|, i requires 0 <= i < |more| => Fresh(more[i]))
  {
    var node, now := Array(items), Array(items + more);
    forall seg
      ensures ChildOk(now, view, seg)
    {
      ChildInPlace(node, view, seg);
      if HasChild(now, seg) && !HasChild(node, seg) {
        AnnotateNothing(Child(now, seg));
      }
    }
    ChildrenInPlace(now, view);
    var a, b := AnnotateAll(items + more, view), AnnotateAll(items, view) + seq(|more|, i requires 0 <= i < |more| => Fresh(more[i]));
    forall i | 0 <= i < |items + more|
      ensures a[i] == b[i]
    {
      ChildInPlace(node, view, AtIndex(i));
      if i >= |items| { AnnotateNothing(more[i - |items|]); }
    }
  }

  /** The state `Pending.MergeChanges` is in. */
  ghost function StateOf(items: seq<Byml>, view: View, lookup: Option<map<RowKey, nat>>, list: Option<nat>): ArrayState {
    ArrayState(AnnotateAll(items, view), EntryIn(view), lookup, list)
  }

  lemma {:induction false} MergeChangesFail(c: Context, depth: int, name: Option<string>, keyName: Option<KeyName>, state: ArrayState,
                                            changes: seq<ArrayChange>, n: nat)
    requires n <= |changes| && MergeChanges(c, depth, name, keyName, state, changes[..n]) == None
    ensures MergeChanges(c, depth, name, keyName, state, changes) == None
    decreases |changes| - n
  {
    if n < |changes| {
      assert changes[..n + 1][..n] == changes[..n];
      MergeChangesFail(c, depth, name, keyName, state, changes, n + 1);
    } else {
      assert changes[..n] == changes;
    }
  }

  lemma MergeChangesStep(c: Context, depth: int, name: Option<string>, keyName: Option<KeyName>, state: ArrayState,
                         changes: seq<ArrayChange>, n: nat)
    requires n < |changes|
    ensures MergeChanges(c, depth, name, keyName, state, changes[..n + 1])
            == match MergeChanges(c, depth, name, keyName, state, changes[..n])
               case None => None
               case Some(before) => MergeChange(c, depth, name, keyName, before, changes[n])
  {
    assert changes[..n + 1][..n] == changes[..n];
  }

  // ---------- one thing tracked at a node ----------

  /** Only what is tracked at `path` itself changed. */
  lemma ViewHere(maps: map<Path, set<Segment>>, arrays: map<Path, ArrayEntry>, maps': map<Path, set<Segment>>,
                 arrays': map<Path, ArrayEntry>, path: Path)
    requires forall p :: p != path ==> Get(maps', p) == Get(maps, p) && Get(arrays', p) == Get(arrays, p)
    ensures Elsewhere(maps, maps', path) && Elsewhere(arrays, arrays', path)
    ensures SameBelow(At(maps, arrays, path), At(maps', arrays', path))
    ensures Below(maps', path) == Below(maps, path) <== maps' == maps
    ensures [] in At(maps', arrays', path).maps <==> path in maps'
    ensures path in maps' ==> At(maps', arrays', path).maps[[]] == maps'[path]
    ensures [] in At(maps', arrays', path).arrays <==> path in arrays'
    ensures path in arrays' ==> At(maps', arrays', path).arrays[[]] == arrays'[path]
    ensures [] in At(maps, arrays, path).maps <==> path in maps
    ensures path in maps ==> At(maps, arrays, path).maps[[]] == maps[path]
  {
    ChangeHere(maps, maps', path);
    ChangeHere(arrays, arrays', path);
    AtHere(maps', arrays', path);
    AtHere(maps, arrays, path);
    forall seg
      ensures SameSub(At(maps, arrays, path), At(maps', arrays', path), seg)
    {
      AtChild(maps, arrays, path, seg);
      AtChild(maps', arrays', path, seg);
    }
  }

  /** Only what is tracked in one child changed. */
  lemma ElsewhereView(maps: map<Path, set<Segment>>, arrays: map<Path, ArrayEntry>, maps': map<Path, set<Segment>>,
                      arrays': map<Path, ArrayEntry>, path: Path, seg: Segment)
    requires Elsewhere(maps, maps', path + [seg]) && Elsewhere(arrays, arrays', path + [seg])
    ensures Elsewhere(maps, maps', path) && Elsewhere(arrays, arrays', path)
    ensures SameBeside(At(maps, arrays, path), At(maps', arrays', path), seg)
    ensures SameHere(At(maps, arrays, path), At(maps', arrays', path))
  {
    ElsewhereChild(maps, maps', path, seg);
    ElsewhereChild(arrays, arrays', path, seg);
    AtHere(maps', arrays', path);
    AtHere(maps, arrays, path);
    GetSamePath(maps, maps', path);
    GetSamePath(arrays, arrays', path);
    forall other | other != seg
      ensures SameSub(At(maps, arrays, path), At(maps', arrays', path), other)
    {
      AtChild(maps, arrays, path, other);
      AtChild(maps', arrays', path, other);
    }
  }

  lemma GetSamePath<V>(a: map<Path, V>, b: map<Path, V>, p: Path)
    requires Get(b, p) == Get(a, p)
    ensures (p in b <==> p in a) && (p in a ==> b[p] == a[p])
  {
  }

  ghost predicate SameHere(a: View, b: View) {
    && ([] in a.maps <==> [] in b.maps) && ([] in a.maps ==> a.maps[[]] == b.maps[[]])
    && EntryIn(a) == EntryIn(b)
  }

  ghost function SegmentsIn(view: View): set<Segment> {
    if [] in view.maps then view.maps[[]] else {}
  }

  ghost predicate KeyMarked(before: View, after: View, segment: Segment) {
    && SameBelow(before, after) && after.arrays == before.arrays
    && [] in after.maps && after.maps[[]] == SegmentsIn(before) + {segment}
  }

  ghost predicate KeyUnmarked(before: View, after: View, segment: Segment) {
    && SameBelow(before, after) && after.arrays == before.arrays
    && ([] in after.maps <==> [] in before.maps) && SegmentsIn(after) == SegmentsIn(before) - {segment}
  }

  lemma MarkedKey(c: Context, depth: int, kind: Kind, entries: map<Key, Byml>, before: View, after: View, key: Key, entry: Byml)
    requires InPlace(Map(kind, entries), before) && KeyMarked(before, after, AtKey(kind, key)) && entry.IsRemove()
    ensures InPlace(Map(kind, entries), after)
    ensures KeyMerged(c, depth, Annotate(Map(kind, entries), before), Annotate(Map(kind, entries), after), key, entry)
  {
    MarkedMap(Map(kind, entries), before, after);
    KeysWith(SegmentsIn(before), kind, key);
    OneKeyMarked(c, depth, Annotate(Map(kind, entries), before), Annotate(Map(kind, entries), after), key, entry);
  }

  lemma OneKeyMarked(c: Context, depth: int, before: Tree, after: Tree, key: Key, entry: Byml)
    requires before.PMap? && after.PMap? && after.kind == before.kind && entry.IsRemove()
    requires after.entries == before.entries && after.removed == before.removed + {key}
    ensures KeyMerged(c, depth, before, after, key, entry)
  {
  }

  lemma UnmarkedKey(kind: Kind, entries: map<Key, Byml>, before: View, after: View, key: Key)
    requires InPlace(Map(kind, entries), before) && KeyUnmarked(before, after, AtKey(kind, key))
    ensures InPlace(Map(kind, entries), after)
    ensures Annotate(Map(kind, entries), after)
            == PMap(kind, Annotate(Map(kind, entries), before).entries, Removed(before, kind) - {key})
  {
    MarkedMap(Map(kind, entries), before, after);
    KeysWith(SegmentsIn(before), kind, key);
  }

  lemma InsertedKey(c: Context, depth: int, kind: Kind, entries: map<Key, Byml>, start: View, view: View, key: Key, entry: Byml)
    requires InPlace(Map(kind, entries), view) && key !in entries && !entry.IsRemove()
    requires Annotate(Map(kind, entries), view) == PMap(kind, Annotate(Map(kind, entries), start).entries, Removed(start, kind) - {key})
    ensures InPlace(Map(kind, entries[key := entry]), view)
    ensures KeyMerged(c, depth, Annotate(Map(kind, entries), start), Annotate(Map(kind, entries[key := entry]), view), key, entry)
  {
    ChildInPlace(Map(kind, entries), view, AtKey(kind, key));
    AnnotateNothing(entry);
    UpdatedMap(kind, entries, view, key, entry, view);
    OneKeyInserted(c, depth, Annotate(Map(kind, entries), start), Annotate(Map(kind, entries[key := entry]), view), key, entry);
  }

  lemma OneKeyInserted(c: Context, depth: int, before: Tree, after: Tree, key: Key, entry: Byml)
    requires before.PMap? && after.PMap? && after.kind == before.kind && key !in before.entries && !entry.IsRemove()
    requires after.entries == before.entries[key := Fresh(entry)] && after.removed == before.removed - {key}
    ensures KeyMerged(c, depth, before, after, key, entry)
  {
  }

  lemma MergedKey(c: Context, depth: int, kind: Kind, entries: map<Key, Byml>, start: View, before: View, after: View,
                  key: Key, entry: Byml, value: Byml)
    requires InPlace(Map(kind, entries), before) && key in entries && !entry.IsRemove()
    requires Annotate(Map(kind, entries), before) == PMap(kind, Annotate(Map(kind, entries), start).entries, Removed(start, kind) - {key})
    requires SameBeside(before, after, AtKey(kind, key)) && SameHere(before, after)
    requires InPlace(value, Sub(after, AtKey(kind, key)))
    requires MergeEntry(c, depth, key, Annotate(entries[key], Sub(before, AtKey(kind, key))), entry)
             == Some(Annotate(value, Sub(after, AtKey(kind, key))))
    ensures InPlace(Map(kind, entries[key := value]), after)
    ensures KeyMerged(c, depth, Annotate(Map(kind, entries), start), Annotate(Map(kind, entries[key := value]), after), key, entry)
  {
    hide Annotate, Removed, OwnKind, MergeEntry, KeyMerged, SameBeside, SameHere;
    KeptHere(kind, entries, before, after);
    UpdatedMap(kind, entries, before, key, value, after);
    EntryAnnotated(kind, entries, before, key);
    EntryAnnotated(kind, entries, start, key);
    var was, now := Annotate(Map(kind, entries), before), Annotate(Map(kind, entries[key := value]), after);
    var child := Annotate(value, Sub(after, AtKey(kind, key)));
    assert now.entries == was.entries[key := child];
    OneKeyMerged(c, depth, Annotate(Map(kind, entries), start), now, key, entry, child);
  }

  /** What is noted at a map whose own notes stay. */
  lemma KeptHere(kind: Kind, entries: map<Key, Byml>, before: View, after: View)
    requires InPlace(Map(kind, entries), before) && SameHere(before, after)
    ensures [] !in after.arrays && OwnKind(after, kind) && Removed(after, kind) == Removed(before, kind)
  {
  }

  lemma EntryAnnotated(kind: Kind, entries: map<Key, Byml>, view: View, key: Key)
    requires key in entries
    ensures Annotate(Map(kind, entries), view).PMap? && key in Annotate(Map(kind, entries), view).entries
    ensures Annotate(Map(kind, entries), view).entries[key] == Annotate(entries[key], Sub(view, AtKey(kind, key)))
    ensures Annotate(Map(kind, entries), view).kind == kind && Annotate(Map(kind, entries), view).removed == Removed(view, kind)
  {
  }

  lemma OneKeyMerged(c: Context, depth: int, before: Tree, after: Tree, key: Key, entry: Byml, value: Tree)
    requires before.PMap? && after.PMap? && after.kind == before.kind && key in before.entries && !entry.IsRemove()
    requires after.entries == before.entries[key := value] && after.removed == before.removed - {key}
    requires MergeEntry(c, depth, key, before.entries[key], entry) == Some(value)
    ensures KeyMerged(c, depth, before, after, key, entry)
  {
  }

  lemma FailsFromStart(c: Context, depth: int, kind: Kind, entries: map<Key, Byml>, start: View, unmarked: View, key: Key, entry: Byml)
    requires Annotate(Map(kind, entries), unmarked).PMap?
    requires Annotate(Map(kind, entries), unmarked).entries == Annotate(Map(kind, entries), start).entries
    ensures KeyFails(c, depth, Annotate(Map(kind, entries), unmarked), key, entry)
            ==> KeyFails(c, depth, Annotate(Map(kind, entries), start), key, entry)
  {
  }

  // ---------- indices kept while an array is merged ----------

  ghost predicate LookupInRange(lookup: Option<map<RowKey, nat>>, n: nat) {
    lookup.Some? ==> forall key :: key in lookup.value ==> lookup.value[key] < n
  }

  ghost predicate ListInRange(list: Option<nat>, entry: Option<ArrayEntry>) {
    list.Some? ==> entry.Some? && list.value < |entry.value.additions|
  }

  lemma BestMatchInRange(rows: seq<Byml>, index: int, key: RowKey, keyName: Option<KeyName>, cache: Option<map<RowKey, nat>>)
    requires LookupInRange(cache, |rows|)
    ensures var (at, lookup) := BestMatch(rows, index, key, keyName, cache);
            (at.Some? ==> at.value < |rows|) && LookupInRange(lookup, |rows|)
  {
    if keyName.Some? {
      IndexInRange(rows, keyName.value);
    }
  }

  /** What an edit does, once its row is found. */
  lemma EditFound(c: Context, depth: int, name: Option<string>, keyName: Option<KeyName>, state: ArrayState, rows: seq<Byml>,
                  change: ArrayChange)
    requires change.change == Edit && StripAll(WithoutRemoval(state, change.index).items) == rows && |state.items| == |rows|
    ensures var s := WithoutRemoval(state, change.index);
            var (at, cache) := BestMatch(rows, change.index, change.key, keyName, s.index);
            MergeChange(c, depth, name, keyName, state, change)
            == if at.None? || at.value >= |rows| then None
               else match (if change.node.IsContainer() then Merge(c, depth, s.items[at.value], change.node) else Some(Fresh(change.node)))
                 case None => None
                 case Some(row) => Some(s.(items := s.items[at.value := row], index := cache))
  {
  }
}
