/** Merging rows that share a key does not change the key: what identifies a row is the same in all
    of them, so no changelog touches it. */
module KeyFields {
  import opened Documents
  import opened Changelogs
  import opened Pending

  /** The document holds a scalar under a path of names, and nothing is pending against it. */
  ghost predicate Holds(tree: Tree, path: seq<string>, value: Byml)
    decreases |path|
  {
    && path != [] && tree.PMap? && tree.kind == Named && Name(path[0]) in tree.entries && Name(path[0]) !in tree.removed
    && if |path| == 1 then tree.entries[Name(path[0])] == Plain(value) else Holds(tree.entries[Name(path[0])], path[1..], value)
  }

  /** A changelog says nothing about what is under a path of names. */
  ghost predicate LeavesAlone(log: Byml, path: seq<string>)
    decreases |path|
  {
    && path != [] && log.Map? && log.kind == Named
    && (Name(path[0]) in log.entries ==> |path| > 1 && LeavesAlone(log.entries[Name(path[0])], path[1..]))
  }

  lemma {:induction false} FreshHolds(row: Byml, path: seq<string>)
    requires row.Map? && row.kind == Named && Field(row.entries, path).Some? && Field(row.entries, path).value.Leaf?
    ensures Holds(Fresh(row), path, Field(row.entries, path).value)
    decreases |path|
  {
    if |path| > 1 {
      FreshHolds(row.entries[Name(path[0])], path[1..]);
    }
  }

  lemma {:induction false} DiffLeavesAlone(rules: Rules, type_: string, depth: int, src: Byml, vanilla: Byml, path: seq<string>)
    requires src.Map? && vanilla.Map? && src.kind == vanilla.kind == Named
    requires Field(src.entries, path).Some? && Field(src.entries, path).value.Leaf?
    requires Field(vanilla.entries, path) == Field(src.entries, path)
    ensures LeavesAlone(Diff(rules, type_, depth, src, vanilla).0, path)
    decreases |path|
  {
    var key := Name(path[0]);
    var log := DiffMap(rules, type_, depth, src, vanilla.entries);
    if |path| > 1 {
      DiffLeavesAlone(rules, type_, depth + 1, src.entries[key], vanilla.entries[key], path[1..]);
    }
    assert DiffEntry(rules, type_, depth + 1, key, src.entries[key], vanilla.entries[key])
        == Diff(rules, type_, depth + 1, src.entries[key], vanilla.entries[key]);
    assert key in log ==> log[key] == Diff(rules, type_, depth + 1, src.entries[key], vanilla.entries[key]).0;
  }

  lemma {:induction false} MergeHolds(c: Context, depth: int, base: Tree, log: Byml, path: seq<string>, value: Byml)
    requires Holds(base, path, value) && LeavesAlone(log, path) && Merge(c, depth, base, log).Some?
    ensures Holds(Merge(c, depth, base, log).value, path, value)
    decreases |path|
  {
    var key := Name(path[0]);
    var merged := Merge(c, depth, base, log).value;
    assert MergeMap(c, depth + 1, base, log) == Some(merged);
    if key in log.entries {
      assert Sets(log.entries, key);
      assert MergeEntry(c, depth + 1, key, base.entries[key], log.entries[key])
          == Merge(c, depth + 1, base.entries[key], log.entries[key]);
      MergeHolds(c, depth + 1, base.entries[key], log.entries[key], path[1..], value);
      assert merged.entries[key] == Merge(c, depth + 1, base.entries[key], log.entries[key]).value;
    } else {
      assert merged.entries[key] == base.entries[key];
    }
  }

  lemma {:induction false} MergeAllHolds(c: Context, base: Tree, logs: seq<Byml>, path: seq<string>, value: Byml)
    requires Holds(base, path, value) && MergeAll(c, 0, base, logs).Some?
    requires forall i :: 0 <= i < |logs| ==> LeavesAlone(logs[i], path)
    ensures Holds(MergeAll(c, 0, base, logs).value, path, value)
  {
    if logs != [] {
      var last := |logs| - 1;
      MergeAllHolds(c, base, logs[..last], path, value);
      MergeHolds(c, 0, MergeAll(c, 0, base, logs[..last]).value, logs[last], path, value);
    }
  }

  lemma {:induction false} SettledHolds(c: Context, tree: Tree, path: seq<string>, value: Byml)
    requires Holds(tree, path, value) && Settle(c, tree).Some?
    ensures Settle(c, tree).value.Map? && Settle(c, tree).value.kind == Named
    ensures Field(Settle(c, tree).value.entries, path) == Some(value)
    decreases |path|
  {
    var key := Name(path[0]);
    var settled := Settle(c, tree).value;
    assert settled.Map? && key in settled.entries && Settle(c, tree.entries[key]) == Some(settled.entries[key]);
    if |path| > 1 {
      SettledHolds(c, tree.entries[key], path[1..], value);
    }
  }

  ghost predicate HasScalar(row: Byml, path: seq<string>, value: Byml) {
    value.Leaf? && row.Map? && row.kind == Named && Field(row.entries, path) == Some(value)
  }

  lemma MergedRowsKeepField(c: Context, depth: int, bound: nat, base: Byml, rows: seq<Byml>, path: seq<string>, value: Byml)
    requires HasScalar(base, path, value) && forall i :: 0 <= i < |rows| ==> HasScalar(rows[i], path, value)
    requires MergeRows(c, depth, bound, base, rows).Some?
    ensures HasScalar(MergeRows(c, depth, bound, base, rows).value, path, value)
  {
    var logs := seq(|rows|, i requires 0 <= i < |rows| => Diff(c.rules, c.type_, depth, rows[i], base).0);
    var inner := Context(c.rules, c.type_, None);
    FreshHolds(base, path);
    forall i | 0 <= i < |logs|
      ensures LeavesAlone(logs[i], path)
    {
      DiffLeavesAlone(c.rules, c.type_, depth, rows[i], base, path);
    }
    MergeAllHolds(inner, Fresh(base), logs, path, value);
    SettledHolds(inner, MergeAll(inner, 0, Fresh(base), logs).value, path, value);
  }

  /** The key consists of scalars. */
  ghost predicate ScalarKey(name: KeyName, key: RowKey) {
    && key.primary.Some? && key.primary.value.Leaf?
    && (name.secondary.Some? ==> key.secondary.Some? && key.secondary.value.Leaf?)
  }

  ghost predicate HasScalars(row: Byml, name: KeyName, key: RowKey)
    requires ScalarKey(name, key)
  {
    && HasScalar(row, name.primary, key.primary.value)
    && if name.secondary.Some? then HasScalar(row, name.secondary.value, key.secondary.value) else key.secondary.None?
  }

  lemma ScalarKeyIs(name: KeyName, key: RowKey, row: Byml)
    requires ScalarKey(name, key)
    ensures KeyOf(name, row) == key <==> HasScalars(row, name, key)
  {
  }

  /** Rows sharing a key merge into a row with that key. */
  lemma MergedRowsKeepKey(c: Context, depth: int, bound: nat, base: Byml, rows: seq<Byml>, name: KeyName, key: RowKey)
    requires ScalarKey(name, key) && KeyOf(name, base) == key && forall i :: 0 <= i < |rows| ==> KeyOf(name, rows[i]) == key
    requires MergeRows(c, depth, bound, base, rows).Some?
    ensures KeyOf(name, MergeRows(c, depth, bound, base, rows).value) == key
  {
    ScalarKeyIs(name, key, base);
    forall i | 0 <= i < |rows|
      ensures HasScalars(rows[i], name, key)
    {
      ScalarKeyIs(name, key, rows[i]);
    }
    MergedRowsKeepField(c, depth, bound, base, rows, name.primary, key.primary.value);
    if name.secondary.Some? {
      MergedRowsKeepField(c, depth, bound, base, rows, name.secondary.value, key.secondary.value);
    }
    ScalarKeyIs(name, key, MergeRows(c, depth, bound, base, rows).value);
  }
}
