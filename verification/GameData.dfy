/** A table of the GameDataList: what becomes of each of its rows when changelogs are merged, told row by
    row from the row's own history. */
module GameData {
  import opened Documents
  import opened Changelogs
  import opened Pending
  import opened RoundTrip

  const HASH := Name("Hash")

  /** How a table's rows are identified: by 32 or 64 bit hashes. */
  function HashLeaf(wide: bool, hash: nat): Byml { Leaf(if wide then UInt64(hash) else UInt32(hash)) }

  function HashIn(wide: bool, leaf: Byml): Option<nat> {
    match leaf
    case Leaf(UInt64(hash)) => if wide then Some(hash) else None
    case Leaf(UInt32(hash)) => if wide then None else Some(hash)
    case _ => None
  }

  function RowHash(wide: bool, row: Byml): Option<nat> {
    match row
    case Map(Named, fields) => if HASH in fields then HashIn(wide, fields[HASH]) else None
    case _ => None
  }

  /** The hash of a row something is still pending in, which nothing pending takes away. */
  function TreeHash(wide: bool, tree: Tree): Option<nat> {
    match tree
    case PMap(Named, entries, removed) =>
      if HASH in entries && HASH !in removed && entries[HASH].Plain? then HashIn(wide, entries[HASH].node) else None
    case _ => None
  }

  /** A changelog's entry for a row leaves the row's hash as it is. */
  predicate KeepsHash(wide: bool, hash: nat, change: Byml) {
    change.Map? && change.kind == Named && (HASH in change.entries ==> change.entries[HASH] == HashLeaf(wide, hash))
  }

  predicate WholeRow(wide: bool, hash: nat, row: Byml) {
    KeepsHash(wide, hash, row) && HASH in row.entries
  }

  /** Rows vanilla does not have are recorded whole; changes of the others keep their hash. */
  predicate Proper(wide: bool, vanilla: set<nat>, entries: map<nat, Byml>) {
    forall h :: h in entries && !entries[h].IsRemove() ==> if h in vanilla then KeepsHash(wide, h, entries[h]) else WholeRow(wide, h, entries[h])
  }

  // ---------- what becomes of one row ----------

  /** What is known of a row: not there; there from the start, with what is pending in it; or added, with the later
      changelogs' versions of it. */
  datatype Fate =
    | Absent
    | Vanilla(tree: Tree, dropped: bool)
    | Added(row: Byml, changes: seq<Byml>, dropped: bool)
  {
    predicate Present() { !Absent? && !dropped }

    /** The same row, to be dropped or not. */
    function Marked(drop: bool): Fate {
      match this
      case Absent => Absent
      case Vanilla(tree, _) => Vanilla(tree, drop)
      case Added(row, changes, _) => Added(row, changes, drop)
    }
  }

  /** What one changelog's entry for a row does to it. */
  function Step(c: Context, fate: Fate, entry: Option<Byml>): Option<Fate> {
    match entry
    case None => Some(fate)
    case Some(change) =>
      match fate
      case Absent => Some(if change.IsRemove() then Absent else Added(change, [], false))
      case Added(row, changes, _) => Some(if change.IsRemove() then Added(row, changes, true) else Added(row, changes + [change], false))
      case Vanilla(tree, _) =>
        if change.IsRemove() then Some(Vanilla(tree, true))
        else match Merge(c, 0, tree, change) case None => None case Some(merged) => Some(Vanilla(merged, false))
  }

  function Run(c: Context, fate: Fate, history: seq<Option<Byml>>): Option<Fate> {
    if history == [] then Some(fate)
    else
      match Run(c, fate, history[..|history| - 1])
      case None => None
      case Some(before) => Step(c, before, history[|history| - 1])
  }

  /** Whether the last changelog that mentions a row leaves it there. */
  predicate LastSays(initially: bool, history: seq<Option<Byml>>) {
    if history == [] then initially
    else
      match history[|history| - 1]
      case None => LastSays(initially, history[..|history| - 1])
      case Some(change) => !change.IsRemove()
  }

  /** A row is there in the end exactly when the last changelog that mentions it does not remove it, or none does and it
      was there. */
  lemma {:induction false} LastMentionDecides(c: Context, fate: Fate, history: seq<Option<Byml>>)
    requires Run(c, fate, history).Some?
    ensures Run(c, fate, history).value.Present() <==> LastSays(fate.Present(), history)
  {
    if history != [] {
      LastMentionDecides(c, fate, history[..|history| - 1]);
    }
  }

  /** How added rows that several changelogs mention are put together: how their versions are compared, and merged. */
  datatype Contexts = Contexts(main: Context, logging: Context, added: Context)

  function Logs(cx: Contexts, row: Byml, changes: seq<Byml>): seq<Byml> {
    seq(|changes|, i requires 0 <= i < |changes| => Diff(cx.logging.rules, cx.logging.type_, 0, changes[i], row).0)
  }

  ghost function Combined(cx: Contexts, row: Byml, changes: seq<Byml>): Option<Byml> {
    if changes == [] then Some(row)
    else
      match MergeAll(cx.added, 0, Fresh(row), Logs(cx, row, changes))
      case None => None
      case Some(tree) => Settle(cx.added, tree)
  }

  /** The row in the end, before dropped rows are taken out. */
  ghost function Settled(cx: Contexts, fate: Fate): Option<Byml>
    requires !fate.Absent?
  {
    match fate
    case Vanilla(tree, _) => Settle(cx.main, tree)
    case Added(row, changes, _) => Combined(cx, row, changes)
  }

  // ---------- hashes stay ----------

  lemma HashBack(wide: bool, hash: nat)
    ensures HashIn(wide, HashLeaf(wide, hash)) == Some(hash)
  {
  }

  lemma HashIs(wide: bool, leaf: Byml, hash: nat)
    requires HashIn(wide, leaf) == Some(hash)
    ensures leaf == HashLeaf(wide, hash)
  {
  }

  lemma MergeKeepsHash(c: Context, wide: bool, hash: nat, depth: int, tree: Tree, change: Byml)
    requires TreeHash(wide, tree) == Some(hash) && KeepsHash(wide, hash, change) && Merge(c, depth, tree, change).Some?
    ensures TreeHash(wide, Merge(c, depth, tree, change).value) == Some(hash)
  {
    HashBack(wide, hash);
    var merged := MergeMap(c, depth + 1, tree, change).value;
    assert Merge(c, depth, tree, change) == Some(merged);
    assert HASH in merged.entries && HASH !in merged.removed;
    if HASH in change.entries {
      assert Sets(change.entries, HASH);
      assert MergeEntry(c, depth + 1, HASH, tree.entries[HASH], change.entries[HASH]) == Some(Plain(HashLeaf(wide, hash)));
    }
  }

  lemma SettleKeepsHash(c: Context, wide: bool, tree: Tree)
    requires TreeHash(wide, tree).Some? && Settle(c, tree).Some?
    ensures RowHash(wide, Settle(c, tree).value) == TreeHash(wide, tree)
  {
    var row := Settle(c, tree).value;
    assert Settle(c, tree.entries[HASH]) == Some(tree.entries[HASH].node);
  }

  lemma FreshHash(wide: bool, row: Byml)
    ensures TreeHash(wide, Fresh(row)) == RowHash(wide, row)
  {
    if row.Map? && row.kind == Named && HASH in row.entries {
      assert Fresh(row).entries[HASH] == Fresh(row.entries[HASH]);
    }
  }

  lemma StripHash(wide: bool, tree: Tree)
    requires TreeHash(wide, tree).Some?
    ensures RowHash(wide, Strip(tree)) == TreeHash(wide, tree)
  {
  }

  lemma DiffKeepsHash(cx: Contexts, wide: bool, hash: nat, row: Byml, change: Byml)
    requires WholeRow(wide, hash, row) && WholeRow(wide, hash, change)
    ensures KeepsHash(wide, hash, Diff(cx.logging.rules, cx.logging.type_, 0, change, row).0)
  {
    var log := DiffMap(cx.logging.rules, cx.logging.type_, 0, change, row.entries);
    assert DiffEntry(cx.logging.rules, cx.logging.type_, 1, HASH, change.entries[HASH], row.entries[HASH]).1;
    assert HASH !in log;
    assert Diff(cx.logging.rules, cx.logging.type_, 0, change, row).0 == Map(Named, log);
  }

  lemma {:induction false} MergeAllKeepsHash(c: Context, wide: bool, hash: nat, base: Tree, logs: seq<Byml>)
    requires TreeHash(wide, base) == Some(hash) && MergeAll(c, 0, base, logs).Some?
    requires forall i :: 0 <= i < |logs| ==> KeepsHash(wide, hash, logs[i])
    ensures TreeHash(wide, MergeAll(c, 0, base, logs).value) == Some(hash)
  {
    if logs != [] {
      MergeAllKeepsHash(c, wide, hash, base, logs[..|logs| - 1]);
      MergeKeepsHash(c, wide, hash, 0, MergeAll(c, 0, base, logs[..|logs| - 1]).value, logs[|logs| - 1]);
    }
  }

  lemma CombinedKeepsHash(cx: Contexts, wide: bool, hash: nat, row: Byml, changes: seq<Byml>)
    requires WholeRow(wide, hash, row) && Combined(cx, row, changes).Some?
    requires forall i :: 0 <= i < |changes| ==> WholeRow(wide, hash, changes[i])
    ensures RowHash(wide, Combined(cx, row, changes).value) == Some(hash)
  {
    HashBack(wide, hash);
    if changes != [] {
      FreshHash(wide, row);
      forall i | 0 <= i < |changes|
        ensures KeepsHash(wide, hash, Logs(cx, row, changes)[i])
      {
        DiffKeepsHash(cx, wide, hash, row, changes[i]);
      }
      MergeAllKeepsHash(cx.added, wide, hash, Fresh(row), Logs(cx, row, changes));
      SettleKeepsHash(cx.added, wide, MergeAll(cx.added, 0, Fresh(row), Logs(cx, row, changes)).value);
    }
  }

  // ---------- a table being merged ----------

  /** A row a changelog added, and later changelogs' versions of it. */
  datatype Addition = Addition(hash: nat, changes: seq<Byml>)

  datatype Table = Table(rows: seq<Tree>, added: seq<Addition>, dropped: set<nat>)

  function FindRow(wide: bool, rows: seq<Tree>, hash: nat): (at: Option<nat>)
    ensures at.Some? ==> at.value < |rows| && TreeHash(wide, rows[at.value]) == Some(hash)
    ensures at.None? ==> forall i :: 0 <= i < |rows| ==> TreeHash(wide, rows[i]) != Some(hash)
  {
    if rows == [] then None
    else if TreeHash(wide, rows[|rows| - 1]) == Some(hash) then Some(|rows| - 1)
    else FindRow(wide, rows[..|rows| - 1], hash)
  }

  function FindAdded(added: seq<Addition>, hash: nat): (at: Option<nat>)
    ensures at.Some? ==> at.value < |added| && added[at.value].hash == hash
    ensures at.None? ==> forall i :: 0 <= i < |added| ==> added[i].hash != hash
  {
    if added == [] then None
    else if added[|added| - 1].hash == hash then Some(|added| - 1)
    else FindAdded(added[..|added| - 1], hash)
  }

  function FateOf(wide: bool, t: Table, hash: nat): Fate {
    match FindRow(wide, t.rows, hash)
    case None => Absent
    case Some(i) =>
      match FindAdded(t.added, hash)
      case None => Vanilla(t.rows[i], hash in t.dropped)
      case Some(j) => Added(Strip(t.rows[i]), t.added[j].changes, hash in t.dropped)
  }

  ghost predicate RowsHashed(wide: bool, rows: seq<Tree>) {
    && (forall i :: 0 <= i < |rows| ==> TreeHash(wide, rows[i]).Some?)
    && forall i, j :: 0 <= i < j < |rows| ==> TreeHash(wide, rows[i]) != TreeHash(wide, rows[j])
  }

  /** An added row is untouched so far, and whole, as are its later versions. */
  ghost predicate AdditionThere(wide: bool, vanilla: set<nat>, t: Table, j: nat)
    requires j < |t.added|
  {
    var hash := t.added[j].hash;
    && hash !in vanilla && FindRow(wide, t.rows, hash).Some?
    && (var tree := t.rows[FindRow(wide, t.rows, hash).value]; tree == Fresh(Strip(tree)) && WholeRow(wide, hash, Strip(tree)))
    && forall k :: 0 <= k < |t.added[j].changes| ==> WholeRow(wide, hash, t.added[j].changes[k])
  }

  /** Vanilla's rows and the added ones are told apart by their hashes. */
  ghost predicate Consistent(wide: bool, vanilla: set<nat>, t: Table) {
    && RowsHashed(wide, t.rows)
    && (forall j :: 0 <= j < |t.added| ==> AdditionThere(wide, vanilla, t, j))
    && (forall j, k :: 0 <= j < k < |t.added| ==> t.added[j].hash != t.added[k].hash)
    && (forall h :: h in t.dropped || h in vanilla ==> FindRow(wide, t.rows, h).Some?)
    && forall i :: 0 <= i < |t.rows| ==> TreeHash(wide, t.rows[i]).value in vanilla || FindAdded(t.added, TreeHash(wide, t.rows[i]).value).Some?
  }

  lemma RowAt(wide: bool, rows: seq<Tree>, i: nat)
    requires RowsHashed(wide, rows) && i < |rows|
    ensures FindRow(wide, rows, TreeHash(wide, rows[i]).value) == Some(i)
  {
  }

  lemma AddedAt(added: seq<Addition>, j: nat)
    requires j < |added| && forall j, k :: 0 <= j < k < |added| ==> added[j].hash != added[k].hash
    ensures FindAdded(added, added[j].hash) == Some(j)
  {
  }

  /** Exactly one row's fate changes. */
  ghost predicate OnlyFate(wide: bool, before: Table, after: Table, hash: nat, fate: Fate) {
    FateOf(wide, after, hash) == fate && forall h :: h != hash ==> FateOf(wide, after, h) == FateOf(wide, before, h)
  }

  lemma SameFinds(wide: bool, rows: seq<Tree>, i: nat, tree: Tree, hash: nat)
    requires RowsHashed(wide, rows) && i < |rows| && TreeHash(wide, tree) == TreeHash(wide, rows[i])
    ensures RowsHashed(wide, rows[i := tree]) && FindRow(wide, rows[i := tree], hash) == FindRow(wide, rows, hash)
  {
    hide FindRow;
    var more := rows[i := tree];
    forall k | 0 <= k < |rows| ensures TreeHash(wide, more[k]) == TreeHash(wide, rows[k]) {}
  }

  lemma RowMerged(wide: bool, vanilla: set<nat>, t: Table, i: nat, tree: Tree, hash: nat)
    requires Consistent(wide, vanilla, t) && i < |t.rows| && TreeHash(wide, t.rows[i]) == Some(hash) && TreeHash(wide, tree) == Some(hash)
    requires FindAdded(t.added, hash).None?
    ensures var after := Table(t.rows[i := tree], t.added, t.dropped - {hash});
            Consistent(wide, vanilla, after) && OnlyFate(wide, t, after, hash, Vanilla(tree, false))
  {
    hide FindRow, FindAdded, Fresh, Strip, WholeRow;
    var after := Table(t.rows[i := tree], t.added, t.dropped - {hash});
    RowAt(wide, t.rows, i);
    SameFinds(wide, t.rows, i, tree, hash);
    forall j | 0 <= j < |t.added|
      ensures AdditionThere(wide, vanilla, after, j)
    {
      assert AdditionThere(wide, vanilla, t, j);
      SameFinds(wide, t.rows, i, tree, t.added[j].hash);
    }
    forall h
      ensures FindRow(wide, after.rows, h) == FindRow(wide, t.rows, h)
    {
      SameFinds(wide, t.rows, i, tree, h);
    }
    forall h | h != hash
      ensures FateOf(wide, after, h) == FateOf(wide, t, h)
    {
    }
  }

  lemma RowDropped(wide: bool, vanilla: set<nat>, t: Table, i: nat, hash: nat, dropped: bool)
    requires Consistent(wide, vanilla, t) && i < |t.rows| && TreeHash(wide, t.rows[i]) == Some(hash)
    ensures var after := t.(dropped := if dropped then t.dropped + {hash} else t.dropped - {hash});
            Consistent(wide, vanilla, after)
            && OnlyFate(wide, t, after, hash, FateOf(wide, t, hash).Marked(dropped))
  {
    hide FindRow, FindAdded, Fresh, Strip, WholeRow;
    var after := t.(dropped := if dropped then t.dropped + {hash} else t.dropped - {hash});
    forall j | 0 <= j < |t.added|
      ensures AdditionThere(wide, vanilla, after, j)
    {
      assert AdditionThere(wide, vanilla, t, j);
    }
  }

  lemma VersionNoted(wide: bool, vanilla: set<nat>, t: Table, j: nat, change: Byml)
    requires Consistent(wide, vanilla, t) && j < |t.added| && WholeRow(wide, t.added[j].hash, change)
    ensures var hash, changes := t.added[j].hash, t.added[j].changes + [change];
            var after := t.(added := t.added[j := Addition(hash, changes)]);
            Consistent(wide, vanilla, after) && FateOf(wide, t, hash).Added?
            && OnlyFate(wide, t, after, hash, Added(FateOf(wide, t, hash).row, changes, hash in t.dropped))
  {
    hide FindRow, FindAdded, Fresh, Strip, WholeRow;
    var hash, changes := t.added[j].hash, t.added[j].changes + [change];
    var after := t.(added := t.added[j := Addition(hash, changes)]);
    assert AdditionThere(wide, vanilla, t, j);
    AddedAt(t.added, j);
    AddedAt(after.added, j);
    forall k | 0 <= k < |t.added|
      ensures AdditionThere(wide, vanilla, after, k)
    {
      assert AdditionThere(wide, vanilla, t, k);
    }
    forall h
      ensures FindAdded(after.added, h) == FindAdded(t.added, h)
    {
      SameAdded(t.added, j, changes, h);
    }
  }

  lemma SameAdded(added: seq<Addition>, j: nat, changes: seq<Byml>, hash: nat)
    requires j < |added| && forall j, k :: 0 <= j < k < |added| ==> added[j].hash != added[k].hash
    ensures FindAdded(added[j := Addition(added[j].hash, changes)], hash) == FindAdded(added, hash)
  {
    hide FindAdded;
    var more := added[j := Addition(added[j].hash, changes)];
    forall k | 0 <= k < |added| ensures more[k].hash == added[k].hash {}
  }

  lemma FindAppended(wide: bool, rows: seq<Tree>, tree: Tree, hash: nat, h: nat)
    requires RowsHashed(wide, rows) && TreeHash(wide, tree) == Some(hash) && FindRow(wide, rows, hash).None?
    ensures RowsHashed(wide, rows + [tree])
    ensures FindRow(wide, rows + [tree], h) == if h == hash then Some(|rows|) else FindRow(wide, rows, h)
  {
    var more := rows + [tree];
    assert more[..|more| - 1] == rows;
    forall i | 0 <= i < |rows| ensures TreeHash(wide, more[i]) != Some(hash) {}
  }

  lemma FindAlsoAdded(added: seq<Addition>, hash: nat, h: nat)
    ensures FindAdded(added + [Addition(hash, [])], h) == if h == hash then Some(|added|) else FindAdded(added, h)
  {
    var more := added + [Addition(hash, [])];
    assert more[..|more| - 1] == added;
  }

  lemma RowAppended(wide: bool, vanilla: set<nat>, t: Table, row: Byml, hash: nat)
    requires Consistent(wide, vanilla, t) && FateOf(wide, t, hash).Absent? && WholeRow(wide, hash, row) && hash !in vanilla
    ensures var after := Table(t.rows + [Fresh(row)], t.added + [Addition(hash, [])], t.dropped);
            Consistent(wide, vanilla, after) && OnlyFate(wide, t, after, hash, Added(row, [], false))
  {
    hide Fresh, Strip, WholeRow, FindRow, FindAdded;
    var after := Table(t.rows + [Fresh(row)], t.added + [Addition(hash, [])], t.dropped);
    WholeHash(wide, hash, row);
    FreshHash(wide, row);
    FreshStrips(row);
    forall h
      ensures FindRow(wide, after.rows, h) == if h == hash then Some(|t.rows|) else FindRow(wide, t.rows, h)
      ensures FindAdded(after.added, h) == if h == hash then Some(|t.added|) else FindAdded(t.added, h)
    {
      FindAppended(wide, t.rows, Fresh(row), hash, h);
      FindAlsoAdded(t.added, hash, h);
    }
    FindAppended(wide, t.rows, Fresh(row), hash, hash);
    AdditionsStay(wide, vanilla, t, after, hash);
    assert AdditionThere(wide, vanilla, after, |t.added|);
  }

  lemma AdditionsStay(wide: bool, vanilla: set<nat>, t: Table, after: Table, hash: nat)
    requires Consistent(wide, vanilla, t) && FindRow(wide, t.rows, hash).None? && |after.added| == |t.added| + 1 && after.added[..|t.added|] == t.added
    requires t.rows <= after.rows && forall h :: h != hash ==> FindRow(wide, after.rows, h) == FindRow(wide, t.rows, h)
    ensures forall j :: 0 <= j < |t.added| ==> AdditionThere(wide, vanilla, after, j) && t.added[j].hash != hash
  {
    hide FindRow, Fresh, Strip, WholeRow;
    forall j | 0 <= j < |t.added|
      ensures AdditionThere(wide, vanilla, after, j) && t.added[j].hash != hash
    {
      assert AdditionThere(wide, vanilla, t, j);
      assert after.added[j] == after.added[..|t.added|][j] == t.added[j];
    }
  }

  lemma WholeHash(wide: bool, hash: nat, row: Byml)
    requires WholeRow(wide, hash, row)
    ensures RowHash(wide, row) == Some(hash)
  {
    HashBack(wide, hash);
  }
}
