/** Merging changelogs into a document in place, with removals and additions recorded by path.
    Proved to keep every tracked path pointing at a node of its kind and to compute `Pending.Merge`. */
module PathTracking {
  import opened Documents
  import opened Changelogs
  import opened Pending
  import opened Views
  import opened TrackingSteps
  import opened Settlement
  import opened Heights
  import KeyedRows
  import ChangelogBuilder

  class Tracking {
    const context: Context
    var depth: int
    var maps: map<Path, set<Segment>>
    var arrays: map<Path, ArrayEntry>

    constructor (context: Context)
      ensures this.context == context && depth == 0 && maps == map[] && arrays == map[]
    {
      this.context := context;
      depth, maps, arrays := 0, map[], map[];
    }

    ghost function ViewAt(path: Path): View
      reads this`maps, this`arrays
    {
      At(maps, arrays, path)
    }

    /** The outcome of merging into the node at `path`: the document agrees with `expected` and every
        tracked path is in place. */
    ghost predicate Outcome(expected: Option<Tree>, r: Option<Byml>, path: Path)
      reads this`maps, this`arrays
    {
      match r
      case None => expected == None
      case Some(node) => InPlace(node, ViewAt(path)) && expected == Some(Annotate(node, ViewAt(path)))
    }

    twostate predicate Kept(path: Path)
      reads this
    {
      depth == old(depth) && Elsewhere(old(maps), maps, path) && Elsewhere(old(arrays), arrays, path)
    }

    /** Drops what is tracked at or below the path of a node that is no longer there. */
    method Forget(path: Path)
      modifies this`maps, this`arrays
      ensures ViewAt(path) == Nothing()
      ensures Kept(path)
    {
      maps := map p | p in maps && !(path <= p) :: maps[p];
      arrays := map p | p in arrays && !(path <= p) :: arrays[p];
      assert forall rel: Path :: path <= path + rel;
      assert Below(maps, path) == imap[] && Below(arrays, path) == imap[];
    }

    method Merge(base: Byml, log: Byml, path: Path) returns (r: Option<Byml>)
      requires InPlace(base, ViewAt(path))
      modifies this
      ensures Outcome(Pending.Merge(context, old(depth), Annotate(base, old(ViewAt(path))), log), r, path)
      ensures r.Some? ==> Kept(path)
      decreases log, 2
    {
      match (base, log) {
        case (Map(kind, _), Map(kind', _)) =>
          if kind == kind' {
            r := MergeMap(base, log, path);
          } else {
            r := None;
          }
        case (Array(items), ArrayLog(changes)) =>
          r := MergeArray(items, changes, None, path);
        case (Array(items), Array(more)) =>
          ExtendedArray(items, more, ViewAt(path));
          r := Some(Array(items + more));
        case (_, _) =>
          r := None;
      }
    }

    method MergeMap(base: Byml, log: Byml, path: Path) returns (r: Option<Byml>)
      requires base.Map? && log.Map? && base.kind == log.kind && InPlace(base, ViewAt(path))
      modifies this
      ensures Outcome(Pending.MergeMap(context, old(depth) + 1, Annotate(base, old(ViewAt(path))), log), r, path)
      ensures r.Some? ==> Kept(path)
      decreases log, 1
    {
      depth := depth + 1;
      var kind, entries := base.kind, base.entries;
      ghost var tree := Annotate(base, ViewAt(path));
      var todo := log.entries.Keys;
      MergedStart(context, depth, tree, log.entries);
      while todo != {}
        invariant todo <= log.entries.Keys && depth == old(depth) + 1
        invariant Elsewhere(old(maps), maps, path) && Elsewhere(old(arrays), arrays, path)
        invariant InPlace(Map(kind, entries), ViewAt(path))
        invariant MergedSoFar(context, depth, tree, Annotate(Map(kind, entries), ViewAt(path)), log.entries, todo)
        decreases |todo|
      {
        var key :| key in todo;
        ghost var before := Annotate(Map(kind, entries), ViewAt(path));
        label Step:
        var merged := MergeKey(kind, entries, key, log.entries[key], path);
        if merged.None? {
          MergedFails(context, old@Step(depth), tree, before, log, todo, key);
          return None;
        }
        entries := merged.value;
        MergedStep(context, depth, tree, before, Annotate(Map(kind, entries), ViewAt(path)), log.entries, todo, key);
        todo := todo - {key};
      }
      MergedAll(context, depth, tree, Annotate(Map(kind, entries), ViewAt(path)), log, todo);
      depth := depth - 1;
      r := Some(Map(kind, entries));
    }

    /** One key of a map changelog. */
    method MergeKey(kind: Kind, entries: map<Key, Byml>, key: Key, entry: Byml, path: Path) returns (r: Option<map<Key, Byml>>)
      requires InPlace(Map(kind, entries), ViewAt(path))
      modifies this
      ensures r.Some? ==> Kept(path) && InPlace(Map(kind, r.value), ViewAt(path))
      ensures r.Some? ==>
                KeyMerged(context, depth, old(Annotate(Map(kind, entries), ViewAt(path))),
                          Annotate(Map(kind, r.value), ViewAt(path)), key, entry)
      ensures r.None? ==> KeyFails(context, old(depth), old(Annotate(Map(kind, entries), ViewAt(path))), key, entry)
      decreases entry, 4
    {
      ghost var start := ViewAt(path);
      if entry.IsRemove() {
        MarkRemoved(kind, key, path);
        MarkedKey(context, depth, kind, entries, start, ViewAt(path), key, entry);
        return Some(entries);
      }

      // A key that is set is no longer one to take out.
      Unmark(kind, key, path);
      ghost var unmarked := ViewAt(path);
      UnmarkedKey(kind, entries, start, unmarked, key);
      if key !in entries {
        InsertedKey(context, depth, kind, entries, start, unmarked, key, entry);
        return Some(entries[key := entry]);
      }

      r := MergeExisting(kind, entries, key, entry, path, start);
      FailsFromStart(context, old(depth), kind, entries, start, unmarked, key, entry);
    }

    /** A key both have, once it is not to be removed any more. */
    method MergeExisting(kind: Kind, entries: map<Key, Byml>, key: Key, entry: Byml, path: Path, ghost start: View)
      returns (r: Option<map<Key, Byml>>)
      requires InPlace(Map(kind, entries), ViewAt(path)) && key in entries && !entry.IsRemove()
      requires Annotate(Map(kind, entries), ViewAt(path))
               == PMap(kind, Annotate(Map(kind, entries), start).entries, Removed(start, kind) - {key})
      modifies this
      ensures r.Some? ==> Kept(path) && InPlace(Map(kind, r.value), ViewAt(path))
      ensures r.Some? ==>
                KeyMerged(context, depth, Annotate(Map(kind, entries), start), Annotate(Map(kind, r.value), ViewAt(path)), key, entry)
      ensures r.None? ==> KeyFails(context, old(depth), old(Annotate(Map(kind, entries), ViewAt(path))), key, entry)
      decreases entry, 3, 1
    {
      ghost var before := ViewAt(path);
      AtChild(maps, arrays, path, AtKey(kind, key));
      ChildInPlace(Map(kind, entries), before, AtKey(kind, key));
      var value := MergeValue(key, entries[key], entry, path + [AtKey(kind, key)]);
      if value.None? {
        return None;
      }
      ElsewhereView(old(maps), old(arrays), maps, arrays, path, AtKey(kind, key));
      AtChild(maps, arrays, path, AtKey(kind, key));
      MergedKey(context, depth, kind, entries, start, before, ViewAt(path), key, entry, value.value);
      return Some(entries[key := value.value]);
    }

    method MarkRemoved(kind: Kind, key: Key, path: Path)
      modifies this`maps
      ensures Kept(path)
      ensures KeyMarked(old(ViewAt(path)), ViewAt(path), AtKey(kind, key))
    {
      maps := maps[path := (if path in maps then maps[path] else {}) + {AtKey(kind, key)}];
      ViewHere(old(maps), arrays, maps, arrays, path);
    }

    method Unmark(kind: Kind, key: Key, path: Path)
      modifies this`maps
      ensures Kept(path)
      ensures KeyUnmarked(old(ViewAt(path)), ViewAt(path), AtKey(kind, key))
    {
      if path in maps {
        maps := maps[path := maps[path] - {AtKey(kind, key)}];
      }
      ViewHere(old(maps), arrays, maps, arrays, path);
    }

    /** The value of a key both have: lists of changes go into arrays, containers into containers,
        anything else replaces what is there. */
    method MergeValue(key: Key, base: Byml, entry: Byml, path: Path) returns (r: Option<Byml>)
      requires InPlace(base, ViewAt(path))
      modifies this
      ensures Outcome(MergeEntry(context, old(depth), key, Annotate(base, old(ViewAt(path))), entry), r, path)
      ensures r.Some? ==> Kept(path)
      decreases entry, 3, 0
    {
      AnnotateContainer(base, ViewAt(path));
      if key.Name? && entry.ArrayLog? && base.Array? {
        r := MergeArray(base.items, entry.changes, Some(key.text), path);
      } else if entry.IsContainer() && base.IsContainer() {
        r := Merge(base, entry, path);
      } else {
        Forget(path);
        AnnotateNothing(entry);
        r := Some(entry);
      }
    }

    method MergeArray(items: seq<Byml>, changes: seq<ArrayChange>, name: Option<string>, path: Path) returns (r: Option<Byml>)
      requires InPlace(Array(items), ViewAt(path))
      modifies this
      ensures Outcome(Pending.MergeArray(context, old(depth), name, AnnotateAll(items, old(ViewAt(path))), EntryIn(old(ViewAt(path))), changes),
                      r, path)
      ensures r.Some? ==> Kept(path)
      decreases changes, 1
    {
      hide InPlace, Pending.Merge, BestMatch;
      var keyName := if name.Some? then context.rules.mergerKey(name.value, context.MergeType(), depth) else None;
      var rows, lookup: Option<map<RowKey, nat>>, list: Option<nat> := items, None, None;
      ghost var start := StateOf(items, ViewAt(path), None, None);
      var i := 0;
      while i < |changes|
        invariant 0 <= i <= |changes| && Kept(path)
        invariant InPlace(Array(rows), ViewAt(path))
        invariant LookupInRange(lookup, |rows|) && ListInRange(list, EntryIn(ViewAt(path)))
        invariant MergeChanges(context, depth, name, keyName, start, changes[..i]) == Some(StateOf(rows, ViewAt(path), lookup, list))
      {
        MergeChangesStep(context, depth, name, keyName, start, changes, i);
        var change := changes[i];
        match change.change {
          case Add =>
            list := RecordAddition(rows, name, list, change, path, lookup);
          case Remove =>
            RecordRemoval(rows, change.index, path, lookup, list);
          case Edit =>
            var edited := EditRow(rows, change, name, keyName, lookup, list, path);
            if edited.None? {
              MergeChangesFail(context, old(depth), name, keyName, start, changes, i + 1);
              return None;
            }
            rows, lookup := edited.value.0, edited.value.1;
        }
        i := i + 1;
      }
      assert changes[..i] == changes;
      r := Some(Array(rows));
    }

    /** Adds to the list this changelog opened for the array, opening it first if need be. */
    method RecordAddition(ghost rows: seq<Byml>, name: Option<string>, list: Option<nat>, change: ArrayChange, path: Path,
                          ghost lookup: Option<map<RowKey, nat>>)
      returns (used: Option<nat>)
      requires InPlace(Array(rows), ViewAt(path)) && ListInRange(list, EntryIn(ViewAt(path)))
      modifies this`arrays
      ensures Kept(path) && InPlace(Array(rows), ViewAt(path)) && ListInRange(used, EntryIn(ViewAt(path)))
      ensures StateOf(rows, ViewAt(path), lookup, used)
              == WithAddition(StateOf(rows, old(ViewAt(path)), lookup, list), depth, name, change.index, change.node)
    {
      AtHere(maps, arrays, path);
      var entry := if path in arrays then arrays[path] else ArrayEntry(name, depth, [], {});
      var at := if list.Some? then list.value else |entry.additions|;
      if list.None? {
        entry := entry.(additions := entry.additions + [[]]);
      }
      entry := entry.(additions := entry.additions[at := entry.additions[at] + [(change.index, change.node)]]);
      arrays := arrays[path := entry];
      used := Some(at);
      ViewHere(maps, old(arrays), maps, arrays, path);
      NotedArray(rows, old(ViewAt(path)), ViewAt(path));
    }

    method RecordRemoval(ghost rows: seq<Byml>, index: int, path: Path, ghost lookup: Option<map<RowKey, nat>>, ghost list: Option<nat>)
      requires InPlace(Array(rows), ViewAt(path)) && ListInRange(list, EntryIn(ViewAt(path)))
      modifies this`arrays
      ensures Kept(path) && InPlace(Array(rows), ViewAt(path)) && ListInRange(list, EntryIn(ViewAt(path)))
      ensures StateOf(rows, ViewAt(path), lookup, list) == WithRemoval(StateOf(rows, old(ViewAt(path)), lookup, list), index)
    {
      AtHere(maps, arrays, path);
      var entry := if path in arrays then arrays[path] else ArrayEntry(None, 0, [], {});
      arrays := arrays[path := entry.(removals := entry.removals + {index})];
      ViewHere(maps, old(arrays), maps, arrays, path);
      NotedArray(rows, old(ViewAt(path)), ViewAt(path));
    }

    method ForgetRemoval(ghost rows: seq<Byml>, index: int, path: Path, ghost lookup: Option<map<RowKey, nat>>, ghost list: Option<nat>)
      requires InPlace(Array(rows), ViewAt(path)) && ListInRange(list, EntryIn(ViewAt(path)))
      modifies this`arrays
      ensures Kept(path) && InPlace(Array(rows), ViewAt(path)) && ListInRange(list, EntryIn(ViewAt(path)))
      ensures StateOf(rows, ViewAt(path), lookup, list) == WithoutRemoval(StateOf(rows, old(ViewAt(path)), lookup, list), index)
    {
      AtHere(maps, arrays, path);
      if path in arrays {
        arrays := arrays[path := arrays[path].(removals := arrays[path].removals - {index})];
      }
      ViewHere(maps, old(arrays), maps, arrays, path);
      NotedArray(rows, old(ViewAt(path)), ViewAt(path));
    }

    method EditRow(rows: seq<Byml>, change: ArrayChange, ghost name: Option<string>, keyName: Option<KeyName>,
                   lookup: Option<map<RowKey, nat>>, ghost list: Option<nat>, path: Path)
      returns (r: Option<(seq<Byml>, Option<map<RowKey, nat>>)>)
      requires change.change == Edit && InPlace(Array(rows), ViewAt(path))
      requires LookupInRange(lookup, |rows|) && ListInRange(list, EntryIn(ViewAt(path)))
      modifies this
      ensures r.Some? ==> Kept(path) && InPlace(Array(r.value.0), ViewAt(path))
                          && LookupInRange(r.value.1, |r.value.0|) && ListInRange(list, EntryIn(ViewAt(path)))
      ensures MergeChange(context, old(depth), name, keyName, StateOf(rows, old(ViewAt(path)), lookup, list), change)
              == if r.None? then None else Some(StateOf(r.value.0, ViewAt(path), r.value.1, list))
      decreases change, 3
    {
      hide MergeChange, BestMatch, Pending.Merge;
      ForgetRemoval(rows, change.index, path, lookup, list);
      ghost var noted := ViewAt(path);
      StripAnnotateAll(rows, noted);
      EditFound(context, old(depth), name, keyName, StateOf(rows, old(ViewAt(path)), lookup, list), rows, change);
      BestMatchInRange(rows, change.index, change.key, keyName, lookup);
      var (found, cache) := BestMatch(rows, change.index, change.key, keyName, lookup);
      if found.None? {
        return None;
      }
      var at := found.value;
      AtChild(maps, arrays, path, AtIndex(at));
      ChildInPlace(Array(rows), noted, AtIndex(at));
      label Step:
      var row := ReplaceRow(rows[at], change.node, path + [AtIndex(at)]);
      if row.None? {
        return None;
      }
      ElsewhereView(old@Step(maps), old@Step(arrays), maps, arrays, path, AtIndex(at));
      AtChild(maps, arrays, path, AtIndex(at));
      UpdatedArray(rows, noted, at, row.value, ViewAt(path));
      return Some((rows[at := row.value], cache));
    }

    method ReplaceRow(row: Byml, node: Byml, path: Path) returns (r: Option<Byml>)
      requires InPlace(row, ViewAt(path))
      modifies this
      ensures Outcome(if node.IsContainer() then Pending.Merge(context, old(depth), Annotate(row, old(ViewAt(path))), node) else Some(Fresh(node)),
                      r, path)
      ensures r.Some? ==> Kept(path)
      decreases node, 3
    {
      if node.IsContainer() {
        r := Merge(row, node, path);
      } else {
        Forget(path);
        AnnotateNothing(node);
        r := Some(node);
      }
    }

    /** Settles the document: removed keys are taken out, then the entries of arrays are applied. */
    method Apply(root: Byml) returns (r: Option<Byml>)
      requires InPlace(root, ViewAt([]))
      modifies this
      ensures r == Settle(context, old(Annotate(root, ViewAt([]))))
      decreases Tallest(Annotate(root, ViewAt([]))), 6
    {
      AllTracked(root, maps, arrays);
      ghost var tallest := Tallest(Annotate(root, ViewAt([])));
      var node := RemoveKeys(root);
      r := ApplyArrays(node, tallest);
    }

    /** Every map loses its removed keys. */
    method RemoveKeys(root: Byml) returns (node: Byml)
      modifies this`maps
      ensures maps == map[]
      ensures Settle(context, Annotate(node, ViewAt([]))) == old(Settle(context, Annotate(root, ViewAt([]))))
    {
      node := root;
      while maps != map[]
        invariant Settle(context, Annotate(node, ViewAt([]))) == old(Settle(context, Annotate(root, ViewAt([]))))
        decreases |maps|
      {
        var p :| p in maps;
        MapStep(context, node, maps, arrays, p);
        var at := Resolve(node, p);
        if at.Some? {
          node := Put(node, p, WithoutKeys(at.value, maps[p]));
        }
        maps := maps - {p};
      }
    }

    /** An entry moves rows that deeper paths may lead through, so it waits until theirs are applied. */
    method ApplyArrays(root: Byml, ghost tallest: nat) returns (r: Option<Byml>)
      requires maps == map[] && forall p :: p in arrays ==> EntryHeight(arrays[p]) <= tallest
      modifies this`arrays
      ensures r == old(Settle(context, Annotate(root, ViewAt([]))))
      decreases tallest, 5
    {
      hide Settle, Annotate, SettleArray, Put, EntryHeight;
      var node := root;
      while arrays != map[]
        invariant Settle(context, Annotate(node, ViewAt([]))) == old(Settle(context, Annotate(root, ViewAt([]))))
        invariant forall p :: p in arrays ==> EntryHeight(arrays[p]) <= tallest
        decreases |arrays|
      {
        var p := Deepest(arrays);
        var entry := arrays[p];
        ArrayStep(context, node, maps, arrays, p);
        if NamesArray(node, p) {
          var rows := ApplyArrayEntry(context, Resolve(node, p).value.items, entry);
          if rows.None? {
            return None;
          }
          node := Put(node, p, Array(rows.value));
        }
        arrays := arrays - {p};
      }
      NothingLeft(context, node, maps, arrays);
      r := Some(node);
    }
  }

  method Deepest(arrays: map<Path, ArrayEntry>) returns (deepest: Path)
    requires arrays != map[]
    ensures deepest in arrays && forall q :: q in arrays ==> |q| <= |deepest|
  {
    deepest :| deepest in arrays;
    var todo := arrays.Keys;
    while todo != {}
      invariant deepest in arrays && todo <= arrays.Keys
      invariant forall q :: q in arrays && q !in todo ==> |q| <= |deepest|
      decreases |todo|
    {
      var q :| q in todo;
      if |deepest| < |q| {
        deepest := q;
      }
      todo := todo - {q};
    }
  }

  /** Removals are marked so that positions stay; additions go in by increasing index, after as many
      earlier ones as were inserted; marks are dropped last. */
  method ApplyArrayEntry(c: Context, base: seq<Byml>, entry: ArrayEntry) returns (r: Option<seq<Byml>>)
    ensures r == SettleArray(c, base, entry)
    decreases EntryHeight(entry), 4
  {
    var marked := MarkRows(base, entry.removals);
    var groups := GroupAdditions(entry.additions);
    EntryGroupsWithin(entry);
    ghost var bound := EntryHeight(entry);
    var start := Settling(marked, 0, map[]);
    var s, g := start, 0;
    while g < |groups|
      invariant 0 <= g <= |groups| && KeyedInRange(s)
      invariant SettleGroups(c, entry.name, entry.depth, bound, start, groups[..g]) == Some(s)
    {
      SettleGroupsStep(c, entry.name, entry.depth, bound, start, groups, g);
      var (index, nodes) := groups[g];
      if entry.name.Some? {
        var keyName := c.rules.mergerKey(entry.name.value, c.ApplyType(), entry.depth);
        var keyed := KeyedAdditions(c, entry.depth, bound, s, index, nodes, keyName);
        if keyed.None? {
          SettleGroupsFail(c, entry.name, entry.depth, bound, start, groups, g + 1);
          return None;
        }
        s := keyed.value;
      } else {
        s := InsertAdditions(s, index, nodes);
      }
      g := g + 1;
    }
    assert groups[..g] == groups;
    r := Some(Retained(s.rows));
  }

  method MarkRows(base: seq<Byml>, removals: set<int>) returns (rows: seq<Byml>)
    ensures rows == Pending.Marked(base, removals)
  {
    rows := base;
    var todo := removals;
    while todo != {}
      invariant rows == Pending.Marked(base, removals - todo) && todo <= removals
      decreases |todo|
    {
      SomeIndex(todo);
      var index: int :| index in todo;
      if 0 <= index < |rows| {
        rows := rows[index := Marker(Remove)];
      }
      MarkOne(base, removals - todo, index);
      todo := todo - {index};
      assert removals - todo == removals - (todo + {index}) + {index};
    }
  }

  lemma MarkOne(base: seq<Byml>, marks: set<int>, index: int)
    ensures var before := Pending.Marked(base, marks);
            Pending.Marked(base, marks + {index}) == if 0 <= index < |base| then before[index := Marker(Remove)] else before
  {
  }

  /** Additions of the same index together, in the order they were recorded; indices increase. */
  method GroupAdditions(additions: seq<seq<(int, Byml)>>) returns (groups: seq<(int, seq<Byml>)>)
    ensures groups == SortGroups(GroupsBy(Flatten(additions)))
  {
    hide AddToGroup, SortGroups;
    groups := [];
    var l := 0;
    while l < |additions|
      invariant 0 <= l <= |additions| && groups == GroupsBy(Flatten(additions[..l]))
    {
      ghost var done := Flatten(additions[..l]);
      assert additions[..l + 1][..l] == additions[..l];
      var i := 0;
      assert done + additions[l][..0] == done;
      while i < |additions[l]|
        invariant 0 <= i <= |additions[l]| && groups == GroupsBy(done + additions[l][..i])
      {
        var (index, node) := additions[l][i];
        assert done + additions[l][..i + 1] == done + additions[l][..i] + [(index, node)];
        assert (done + additions[l][..i + 1])[..|done| + i] == done + additions[l][..i];
        groups := AddToGroup(groups, index, node);
        i := i + 1;
      }
      assert additions[l][..i] == additions[l];
      l := l + 1;
    }
    assert additions[..l] == additions;
    groups := SortGroups(groups);
  }

  method InsertAdditions(s: Settling, index: int, nodes: seq<Byml>) returns (r: Settling)
    ensures r == InsertAll(s, index, nodes) && r.keyed == s.keyed && |r.rows| >= |s.rows|
  {
    r := s;
    var i := 0;
    while i < |nodes|
      invariant 0 <= i <= |nodes| && r == InsertAll(s, index, nodes[..i]) && r.keyed == s.keyed && |r.rows| >= |s.rows|
    {
      assert nodes[..i + 1][..i] == nodes[..i];
      r := Insert(r, index, nodes[i]);
      i := i + 1;
    }
    assert nodes[..i] == nodes;
  }

  method KeyedAdditions(c: Context, depth: int, ghost bound: nat, s: Settling, index: int, additions: seq<Byml>, name: Option<KeyName>)
    returns (r: Option<Settling>)
    requires KeyedInRange(s) && RowsWithin(additions, bound)
    ensures r == KeyedGroups(c, depth, bound, s, index, GroupsBy(Keys(name, additions)))
    ensures r.Some? ==> KeyedInRange(r.value)
    decreases bound, 3
  {
    hide KeyedGroup, GroupsBy, Keys;
    var groups := GroupByKey(additions, name);
    KeysWithin(name, additions, bound);
    KeyedRows.GroupsAreByKey(name, additions);
    var now, g := s, 0;
    while g < |groups|
      invariant 0 <= g <= |groups| && KeyedInRange(now)
      invariant KeyedGroups(c, depth, bound, s, index, groups[..g]) == Some(now)
    {
      KeyedGroupsStep(c, depth, bound, s, index, groups, g);
      var (key, nodes) := groups[g];
      if nodes != [] {
        KeyHeight(name, groups, g, bound);
        var added := AddKeyedGroup(c, depth, bound, now, index, key, nodes);
        if added.None? {
          KeyedGroupsFail(c, depth, bound, s, index, groups, g + 1);
          return None;
        }
        now := added.value;
      }
      g := g + 1;
    }
    assert groups[..g] == groups;
    r := Some(now);
  }

  method GroupByKey(additions: seq<Byml>, name: Option<KeyName>) returns (groups: seq<(RowKey, seq<Byml>)>)
    ensures groups == GroupsBy(Keys(name, additions))
  {
    groups := [];
    ghost var pairs := Keys(name, additions);
    var i := 0;
    while i < |additions|
      invariant 0 <= i <= |additions| && groups == GroupsBy(pairs[..i])
    {
      assert pairs[..i + 1][..i] == pairs[..i];
      var key := if name.Some? then KeyOf(name.value, additions[i]) else NO_KEY;
      groups := AddToGroup(groups, key, additions[i]);
      i := i + 1;
    }
    assert pairs[..i] == pairs;
  }

  /** Rows with one key: they become one row, together with the one inserted for that key before. */
  method AddKeyedGroup(c: Context, depth: int, ghost bound: nat, s: Settling, index: int, key: RowKey, nodes: seq<Byml>)
    returns (r: Option<Settling>)
    requires nodes != [] && KeyedInRange(s) && RowsWithin(nodes, bound) && (key.IsEmpty() || bound > 0)
    ensures r == KeyedGroup(c, depth, bound, s, index, key, nodes)
    ensures r.Some? ==> KeyedInRange(r.value)
    decreases bound, 2
  {
    if key.IsEmpty() {
      var inserted := InsertAdditions(s, index, nodes);
      return Some(inserted);
    }
    var marked, row := s, Some(nodes[0]);
    if key in s.keyed {
      var at := s.keyed[key];
      marked := s.(rows := s.rows[at := Marker(Remove)]);
      row := MergeKeyedAdditions(c, depth, bound, s.rows[at], nodes);
    } else if |nodes| > 1 {
      row := MergeKeyedAdditions(c, depth, bound, nodes[0], nodes[1..]);
    }
    if row.None? {
      return None;
    }
    var inserted := Insert(marked, index, row.value);
    return Some(inserted.(keyed := inserted.keyed[key := InsertAt(marked, index)]));
  }

  /** Several mods added a row with the same key: what each changes in the first is merged into it. */
  method MergeKeyedAdditions(c: Context, depth: int, ghost bound: nat, base: Byml, rows: seq<Byml>) returns (r: Option<Byml>)
    requires bound > 0 && RowsWithin(rows, bound)
    ensures r == MergeRows(c, depth, bound, base, rows)
    decreases bound, 1
  {
    var logs := LogRows(c, depth, base, rows);
    MergedRowsWithin(c, depth, bound, base, rows);
    r := MergeChangelogs(Context(c.rules, c.type_, None), bound, base, logs);
  }

  /** A document with changelogs merged into it one after the other, and all that was recorded applied. */
  method MergeChangelogs(c: Context, ghost bound: nat, base: Byml, logs: seq<Byml>) returns (r: Option<Byml>)
    requires var tree := MergeAll(c, 0, Fresh(base), logs); tree.Some? ==> Tallest(tree.value) < bound
    ensures r == match MergeAll(c, 0, Fresh(base), logs) case None => None case Some(tree) => Settle(c, tree)
    decreases bound, 0
  {
    var tracking := new Tracking(c);
    var node, i := base, 0;
    NothingTracked(base, tracking.maps, tracking.arrays);
    while i < |logs|
      invariant 0 <= i <= |logs| && tracking.depth == 0 && InPlace(node, tracking.ViewAt([]))
      invariant MergeAll(c, 0, Fresh(base), logs[..i]) == Some(Annotate(node, tracking.ViewAt([])))
    {
      MergeAllStep(c, Fresh(base), logs, i);
      var merged := tracking.Merge(node, logs[i], []);
      if merged.None? {
        MergeAllFails(c, Fresh(base), logs, i + 1);
        return None;
      }
      node := merged.value;
      i := i + 1;
    }
    assert logs[..i] == logs;
    r := tracking.Apply(node);
  }

  method LogRows(c: Context, depth: int, base: Byml, rows: seq<Byml>) returns (logs: seq<Byml>)
    ensures logs == seq(|rows|, i requires 0 <= i < |rows| => Diff(c.rules, c.type_, depth, rows[i], base).0)
  {
    var info := new ChangelogBuilder.TrackingInfo(c.rules, c.type_, depth);
    logs := [];
    var i := 0;
    while i < |rows|
      invariant 0 <= i <= |rows| && |logs| == i && info.depth == depth
      invariant forall k :: 0 <= k < i ==> logs[k] == Diff(c.rules, c.type_, depth, rows[k], base).0
    {
      var log, _ := info.LogChanges(rows[i], base);
      logs := logs + [log];
      i := i + 1;
    }
  }

  /** A document of the game with the changelogs of all mods, lowest priority first. */
  method MergeDocuments(c: Context, vanilla: Byml, changelogs: seq<Byml>) returns (r: Option<Byml>)
    ensures r == match MergeAll(c, 0, Fresh(vanilla), changelogs) case None => None case Some(tree) => Settle(c, tree)
  {
    ghost var tree := MergeAll(c, 0, Fresh(vanilla), changelogs);
    r := MergeChangelogs(c, if tree.Some? then Tallest(tree.value) + 1 else 0, vanilla, changelogs);
  }
}
