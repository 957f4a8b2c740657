/** What becomes of rows that several mods add under one key: at every path the last row that differs from the first decides. */
module MergedRows {
  import opened Documents
  import opened Changelogs
  import opened Pending
  import opened Commuting
  import opened LastWriter
  import ConflictLaws
  import RoundTripLaws

  /** Rows of maps and scalars whose nodes have the same kind wherever two of them have one. */
  ghost predicate StableRows(base: Byml, rows: seq<Byml>) {
    && base.Map? && RoundTripLaws.MapsOnly(base)
    && (forall i :: 0 <= i < |rows| ==> StableRow(base, rows[i]))
    && (forall i, j :: 0 <= i < |rows| && 0 <= j < |rows| ==> SameShapes(rows[i], rows[j]))
  }

  ghost predicate StableRow(base: Byml, row: Byml) {
    base.Map? && row.Map? && row.kind == base.kind && RoundTripLaws.MapsOnly(row) && SameShapes(base, row)
  }

  ghost predicate SameShapes(a: Byml, b: Byml) {
    forall path :: ShapesAt(a, b, path)
  }

  predicate ShapesAt(a: Byml, b: Byml, path: seq<Key>) {
    NodeAt(a, path).Some? && NodeAt(b, path).Some? ==> SameShape(NodeAt(a, path).value, NodeAt(b, path).value)
  }

  /** A row differs from the first at a path, and not just by lacking what the path leads through. */
  predicate Differs(base: Byml, row: Byml, path: seq<Key>)
    requires path != []
  {
    NodeAt(row, path[..|path| - 1]).Some? && NodeAt(row, path) != NodeAt(base, path)
  }

  /** What the last row that differs from the first at the path has there, if anything; the first's if none differs. */
  function Latest(base: Byml, rows: seq<Byml>, path: seq<Key>): Option<Byml>
    requires path != []
  {
    if rows == [] then NodeAt(base, path)
    else if Differs(base, rows[|rows| - 1], path) then NodeAt(rows[|rows| - 1], path)
    else Latest(base, rows[..|rows| - 1], path)
  }

  /** What one row has at a path once the rows are one. */
  ghost predicate DecidedAt(base: Byml, rows: seq<Byml>, r: Byml, path: seq<Key>)
    requires path != []
  {
    var node := NodeAt(r, path);
    && (node.Some? <==> forall n :: 0 < n <= |path| ==> Latest(base, rows, path[..n]).Some?)
    && (node.Some? ==> Latest(base, rows, path).Some? && SameShape(node.value, Latest(base, rows, path).value)
                       && (node.value.Leaf? ==> node == Latest(base, rows, path)))
  }

  // ---------- what a row's changelog says at a path ----------

  lemma {:induction false} DiffSameIff(rules: Rules, type_: string, depth: int, src: Byml, vanilla: Byml)
    requires RoundTripLaws.MapsOnly(src) && RoundTripLaws.MapsOnly(vanilla)
    ensures Diff(rules, type_, depth, src, vanilla).1 <==> src == vanilla
    decreases src
  {
    if src.Map? && vanilla.Map? && src.kind == vanilla.kind {
      var log := DiffMap(rules, type_, depth, src, vanilla.entries);
      forall k | k in src.entries && k in vanilla.entries
        ensures DiffEntry(rules, type_, depth + 1, k, src.entries[k], vanilla.entries[k]).1 <==> src.entries[k] == vanilla.entries[k]
      {
        DiffSameIff(rules, type_, depth + 1, src.entries[k], vanilla.entries[k]);
      }
      if log == map[] {
        forall k
          ensures k in src.entries <==> k in vanilla.entries
          ensures k in src.entries ==> src.entries[k] == vanilla.entries[k]
        {
          assert k !in log;
        }
        assert src.entries == vanilla.entries;
      }
      if src == vanilla {
        forall k ensures k !in log { }
      }
    }
  }

  /** The entry a row's changelog has at a path: none where the row does not differ, a mark where it lacks what the first has. */
  ghost predicate SaysAt(base: Byml, row: Byml, log: Byml, path: seq<Key>)
    requires path != []
  {
    var node := NodeAt(log, path);
    if !Differs(base, row, path) then node.None?
    else if NodeAt(row, path).None? then node == Some(Marker(Remove))
    else
      && node.Some? && !node.value.IsRemove() && SameShape(node.value, NodeAt(row, path).value)
      && (NodeAt(row, path).value.Leaf? ==> node == NodeAt(row, path))
  }

  lemma {:induction false} NoRemovesInside(node: Byml, path: seq<Key>)
    requires RoundTripLaws.MapsOnly(node)
    ensures NodeAt(node, path).Some? ==> RoundTripLaws.MapsOnly(NodeAt(node, path).value) && !NodeAt(node, path).value.IsRemove()
                                         && (NodeAt(node, path).value.Leaf? || NodeAt(node, path).value.Map?)
    decreases |path|
  {
    if path != [] && node.Map? && path[0] in node.entries { NoRemovesInside(node.entries[path[0]], path[1..]); }
  }

  lemma {:induction false} ParentIsThere(node: Byml, path: seq<Key>)
    requires path != [] && NodeAt(node, path).Some?
    ensures NodeAt(node, path[..|path| - 1]).Some?
    decreases |path|
  {
    if |path| > 1 {
      assert path[1..][..|path| - 2] == path[..|path| - 1][1..];
      ParentIsThere(node.entries[path[0]], path[1..]);
    }
  }

  lemma ShapesBelow(base: Byml, row: Byml, k: Key)
    requires SameShapes(base, row) && base.Map? && row.Map? && k in base.entries && k in row.entries
    ensures SameShapes(base.entries[k], row.entries[k]) && SameShape(base.entries[k], row.entries[k])
  {
    forall path
      ensures ShapesAt(base.entries[k], row.entries[k], path)
    {
      assert ([k] + path)[1..] == path;
      assert ShapesAt(base, row, [k] + path);
    }
    var here: seq<Key> := [];
    assert ShapesAt(base.entries[k], row.entries[k], here);
  }

  lemma DiffersBelow(base: Byml, row: Byml, path: seq<Key>)
    requires |path| > 1 && base.Map? && row.Map?
    ensures var k := path[0];
            Differs(base, row, path)
            <==> if k !in row.entries then false
                 else if k !in base.entries then NodeAt(row, path).Some?
                 else Differs(base.entries[k], row.entries[k], path[1..])
  {
    assert path[..|path| - 1][1..] == path[1..][..|path| - 2];
    if NodeAt(row, path).Some? { ParentIsThere(row, path); }
  }

  /** What the changelog has for one key. */
  lemma EntryOf(rules: Rules, type_: string, depth: int, base: Byml, row: Byml, k: Key)
    requires base.Map? && row.Map? && base.kind == row.kind && RoundTripLaws.MapsOnly(base) && RoundTripLaws.MapsOnly(row)
    ensures var log := Diff(rules, type_, depth, row, base).0;
            && log.Map? && log.kind == row.kind
            && Get(log.entries, k)
               == if Get(row.entries, k) == Get(base.entries, k) then None
                  else if k !in row.entries then Some(Marker(Remove))
                  else if k !in base.entries then Some(row.entries[k])
                  else Some(Diff(rules, type_, depth + 1, row.entries[k], base.entries[k]).0)
  {
    var log := DiffMap(rules, type_, depth, row, base.entries);
    if k in row.entries && k in base.entries {
      DiffSameIff(rules, type_, depth + 1, row.entries[k], base.entries[k]);
      assert DiffEntry(rules, type_, depth + 1, k, row.entries[k], base.entries[k])
          == Diff(rules, type_, depth + 1, row.entries[k], base.entries[k]);
    }
  }

  lemma OneStep(node: Byml, path: seq<Key>)
    requires path != [] && node.Map?
    ensures NodeAt(node, path) == if path[0] in node.entries then NodeAt(node.entries[path[0]], path[1..]) else None
  {
  }

  lemma NothingBelow(node: Byml, path: seq<Key>)
    requires path != [] && !node.Map?
    ensures NodeAt(node, path) == None
  {
  }

  lemma {:induction false} DiffSays(rules: Rules, type_: string, depth: int, base: Byml, row: Byml, path: seq<Key>)
    requires base.Map? && row.Map? && base.kind == row.kind && RoundTripLaws.MapsOnly(base) && RoundTripLaws.MapsOnly(row) && path != []
    requires SameShapes(base, row)
    ensures SaysAt(base, row, Diff(rules, type_, depth, row, base).0, path)
    decreases |path|
  {
    hide Diff, SameShapes;
    var k, rest := path[0], path[1..];
    EntryOf(rules, type_, depth, base, row, k);
    NoRemovesInside(row, path);
    if k in row.entries && k in base.entries {
      ShapesBelow(base, row, k);
      DiffKeepsShape(rules, type_, depth + 1, row.entries[k], base.entries[k]);
    }
    var log := Diff(rules, type_, depth, row, base).0;
    OneStep(row, path);
    OneStep(base, path);
    OneStep(log, path);
    if rest != [] {
      DiffersBelow(base, row, path);
      if k in row.entries && k in base.entries && row.entries[k].Map? {
        DiffSays(rules, type_, depth + 1, base.entries[k], row.entries[k], rest);
      } else if k in row.entries && k in base.entries {
        NothingBelow(row.entries[k], rest);
        NothingBelow(base.entries[k], rest);
        NothingBelow(Diff(rules, type_, depth + 1, row.entries[k], base.entries[k]).0, rest);
      }
    } else {
      assert path == [k];
    }
  }

  lemma DiffKeepsShape(rules: Rules, type_: string, depth: int, src: Byml, vanilla: Byml)
    requires SameShape(vanilla, src)
    ensures SameShape(Diff(rules, type_, depth, src, vanilla).0, src) && (src.Leaf? ==> Diff(rules, type_, depth, src, vanilla).0 == src)
  {
  }

  // ---------- all the rows ----------

  function Logs(rules: Rules, type_: string, depth: int, base: Byml, rows: seq<Byml>): seq<Byml> {
    seq(|rows|, i requires 0 <= i < |rows| => Diff(rules, type_, depth, rows[i], base).0)
  }

  lemma FewerRows(base: Byml, rows: seq<Byml>)
    requires StableRows(base, rows) && rows != []
    ensures StableRows(base, rows[..|rows| - 1]) && StableRow(base, rows[|rows| - 1])
  {
    hide SameShapes, StableRow;
  }

  lemma RowSays(rules: Rules, type_: string, depth: int, base: Byml, row: Byml, path: seq<Key>)
    requires base.Map? && RoundTripLaws.MapsOnly(base) && StableRow(base, row) && path != []
    ensures SaysAt(base, row, Diff(rules, type_, depth, row, base).0, path)
  {
    DiffSays(rules, type_, depth, base, row, path);
  }

  /** The changelogs' last word at a path is the last row's that differs there. */
  lemma {:induction false} LatestIs(rules: Rules, type_: string, depth: int, base: Byml, rows: seq<Byml>, path: seq<Key>)
    requires StableRows(base, rows) && path != []
    ensures var logs, latest := Logs(rules, type_, depth, base, rows), Latest(base, rows, path);
            && (Alive(base, logs, path) <==> latest.Some?)
            && (latest.Some? ==> LastSet(base, logs, path).Some? && SameShape(LastSet(base, logs, path).value, latest.value)
                                 && (latest.value.Leaf? ==> LastSet(base, logs, path) == latest))
    decreases |rows|
  {
    hide Diff, StableRow, SameShapes, NodeAt, Differs;
    NoRemovesInside(base, path);
    if rows != [] {
      var n := |rows| - 1;
      var logs := Logs(rules, type_, depth, base, rows);
      assert logs[..n] == Logs(rules, type_, depth, base, rows[..n]);
      FewerRows(base, rows);
      LatestIs(rules, type_, depth, base, rows[..n], path);
      RowSays(rules, type_, depth, base, rows[n], path);
    }
  }

  lemma SayShape(base: Byml, row: Byml, log: Byml, path: seq<Key>)
    requires path != [] && SaysAt(base, row, log, path) && NodeAt(log, path).Some?
    ensures var node := NodeAt(log, path).value;
            if node.IsRemove() then NodeAt(base, path).Some?
            else NodeAt(row, path).Some? && SameShape(node, NodeAt(row, path).value)
  {
    hide NodeAt, SameShape;
  }

  lemma SayShapes(base: Byml, first: Byml, second: Byml, a: Byml, b: Byml, path: seq<Key>)
    requires path != [] && SaysAt(base, first, a, path) && SaysAt(base, second, b, path)
    requires ShapesAt(base, first, path) && ShapesAt(first, second, path)
    ensures NodeAt(a, path).Some? ==>
              var node := NodeAt(a, path).value;
              if node.IsRemove() then NodeAt(base, path).Some?
              else
                && (NodeAt(base, path).Some? ==> SameShape(node, NodeAt(base, path).value))
                && (NodeAt(b, path).Some? && !NodeAt(b, path).value.IsRemove() ==> SameShape(node, NodeAt(b, path).value))
  {
    hide NodeAt, SaysAt;
    if NodeAt(a, path).Some? {
      SayShape(base, first, a, path);
      if NodeAt(b, path).Some? { SayShape(base, second, b, path); }
    }
  }

  lemma LogsSteadyAt(rules: Rules, type_: string, depth: int, base: Byml, rows: seq<Byml>, path: seq<Key>)
    requires StableRows(base, rows) && path != []
    ensures SteadyAt(base, Logs(rules, type_, depth, base, rows), path)
  {
    hide NodeAt, Diff, SaysAt;
    var logs := Logs(rules, type_, depth, base, rows);
    forall i, j | 0 <= i < |rows| && 0 <= j < |rows|
      ensures SaysAt(base, rows[i], logs[i], path) && SaysAt(base, rows[j], logs[j], path)
      ensures ShapesAt(base, rows[i], path) && ShapesAt(base, rows[j], path) && ShapesAt(rows[i], rows[j], path)
    {
      assert StableRow(base, rows[i]) && StableRow(base, rows[j]) && SameShapes(rows[i], rows[j]);
      RowSays(rules, type_, depth, base, rows[i], path);
      RowSays(rules, type_, depth, base, rows[j], path);
    }
    forall i, j | 0 <= i < |rows| && 0 <= j < |rows| { SayShapes(base, rows[i], rows[j], logs[i], logs[j], path); }
  }

  lemma LogsSteady(rules: Rules, type_: string, depth: int, base: Byml, rows: seq<Byml>)
    requires StableRows(base, rows)
    ensures Steady(base, Logs(rules, type_, depth, base, rows))
  {
    hide SteadyAt, SameShapes;
    var logs := Logs(rules, type_, depth, base, rows);
    ConflictLaws.MapsOnlyIsLog(base);
    forall i | 0 <= i < |logs|
      ensures logs[i].Map? && logs[i].kind == base.kind && MapLog(logs[i])
    {
      assert StableRow(base, rows[i]);
      ConflictLaws.DiffIsLog(rules, type_, depth, rows[i], base);
    }
    forall path: seq<Key> | path != []
      ensures SteadyAt(base, logs, path)
    {
      LogsSteadyAt(rules, type_, depth, base, rows, path);
    }
  }

  lemma {:induction false} MapTreeLow(tree: Tree)
    requires MapTree(tree)
    ensures Tallest(tree) == 0
    decreases tree
  {
    if tree.PMap? {
      forall k | k in tree.entries ensures Tallest(tree.entries[k]) == 0 { MapTreeLow(tree.entries[k]); }
    }
  }

  lemma {:induction false} MergeAllMapTree(c: Context, base: Tree, logs: seq<Byml>)
    requires base.PMap? && MapTree(base) && MergeAll(c, 0, base, logs).Some?
    requires forall i :: 0 <= i < |logs| ==> logs[i].Map? && MapLog(logs[i])
    ensures MergeAll(c, 0, base, logs).value.PMap? && MapTree(MergeAll(c, 0, base, logs).value)
    decreases |logs|
  {
    hide MapTree, MapLog, Merge;
    if logs != [] {
      var n := |logs| - 1;
      MergeAllMapTree(c, base, logs[..n]);
      MergeKeepsMaps(c, 0, MergeAll(c, 0, base, logs[..n]).value, logs[n]);
    }
  }

  /** Rows of one key become one, which has at every path what the last row that differs there from the first has: a field
      that row lacks is gone, and where none differs the first's stays. */
  lemma LastRowWins(c: Context, depth: int, bound: nat, base: Byml, rows: seq<Byml>)
    requires StableRows(base, rows) && bound > 0
    ensures var r := MergeRows(c, depth, bound, base, rows);
            r.Some? && r.value.Map? && r.value.kind == base.kind && forall path :: path != [] ==> DecidedAt(base, rows, r.value, path)
  {
    hide StableRows, Steady, MapTree, MapLog, SameShapes, DecidedAt, ResultAt;
    var inner, logs := Context(c.rules, c.type_, None), Logs(c.rules, c.type_, depth, base, rows);
    LogsSteady(c.rules, c.type_, depth, base, rows);
    LastWriterWins(inner, base, logs);
    var tree := MergeAll(inner, 0, Fresh(base), logs).value;
    LowMerge(inner, base, logs, tree);
    var r := MergeRows(c, depth, bound, base, rows).value;
    assert ResultBelow(base, logs, r);
    forall path: seq<Key> | path != []
      ensures DecidedAt(base, rows, r, path)
    {
      assert ResultAt(base, logs, r, path);
      DecidedFrom(c.rules, c.type_, depth, base, rows, r, path);
    }
  }

  lemma LowMerge(c: Context, base: Byml, logs: seq<Byml>, tree: Tree)
    requires Steady(base, logs) && MergeAll(c, 0, Fresh(base), logs) == Some(tree)
    ensures Tallest(tree) == 0
  {
    hide SteadyAt;
    FreshIsMapTree(base);
    MergeAllMapTree(c, Fresh(base), logs);
    MapTreeLow(tree);
  }

  lemma DecidedFrom(rules: Rules, type_: string, depth: int, base: Byml, rows: seq<Byml>, r: Byml, path: seq<Key>)
    requires StableRows(base, rows) && path != [] && ResultAt(base, Logs(rules, type_, depth, base, rows), r, path)
    ensures DecidedAt(base, rows, r, path)
  {
    hide StableRows, Logs, Alive, LastSet, Latest, NodeAt;
    var logs := Logs(rules, type_, depth, base, rows);
    forall n | 0 < n <= |path|
      ensures Alive(base, logs, path[..n]) <==> Latest(base, rows, path[..n]).Some?
    {
      LatestIs(rules, type_, depth, base, rows, path[..n]);
    }
    LatestIs(rules, type_, depth, base, rows, path);
    assert path[..|path|] == path;
  }
}
