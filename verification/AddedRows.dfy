/** Which row is left for a key that several changelogs add rows with. */
module AddedRows {
  import opened Documents
  import opened Changelogs
  import opened Pending
  import opened Splice
  import opened KeyedInserts
  import Heights
  import KeyedRows
  import MergedRows

  /** The row remembered for a key. */
  function RowFor(s: Settling, key: RowKey): Option<Byml> {
    if key in s.keyed && s.keyed[key] < |s.rows| then Some(s.rows[s.keyed[key]]) else None
  }

  /** A row joined by more of its key. */
  ghost function Joined(c: Context, depth: int, bound: nat, before: Option<Byml>, nodes: seq<Byml>): Option<Byml> {
    if nodes == [] then before
    else if before.Some? then MergeRows(c, depth, bound, before.value, nodes)
    else if |nodes| == 1 then Some(nodes[0])
    else MergeRows(c, depth, bound, nodes[0], nodes[1..])
  }

  /** The row of a key in the end: by increasing index, the rows recorded at an index join what is there. */
  ghost function JoinedAll(c: Context, name: Option<KeyName>, depth: int, bound: nat, groups: seq<(int, seq<Byml>)>, key: RowKey): Option<Byml> {
    if groups == [] then None
    else
      var last := |groups| - 1;
      Joined(c, depth, bound, JoinedAll(c, name, depth, bound, groups[..last], key), KeyedRows.WithKey(name, groups[last].1, key))
  }

  /** A position before the next insertion stays what it is. */
  lemma InsertKeeps(s: Settling, index: int, node: Byml, at: nat)
    requires at < InsertAt(s, index)
    ensures var after := Insert(s, index, node); at < InsertAt(after, index) && after.rows[at] == s.rows[at] && after.keyed == s.keyed
  {
  }

  lemma {:induction false} InsertAllKeeps(s: Settling, index: int, nodes: seq<Byml>, at: nat)
    requires at < InsertAt(s, index)
    ensures var after := InsertAll(s, index, nodes); at < InsertAt(after, index) && after.rows[at] == s.rows[at] && after.keyed == s.keyed
    decreases |nodes|
  {
    hide Insert, InsertAt;
    if nodes != [] {
      var last := |nodes| - 1;
      InsertAllKeeps(s, index, nodes[..last], at);
      InsertKeeps(InsertAll(s, index, nodes[..last]), index, nodes[last], at);
    }
  }

  lemma PlacedAt(name: Option<KeyName>, s: Settling, tagged: seq<(Origin, Byml)>, base: seq<Byml>, index: int, key: RowKey)
    requires Placed(name, s, tagged, base, index) && key in s.keyed
    ensures !key.IsEmpty() && s.keyed[key] < InsertAt(s, index) <= |s.rows| && |tagged| == |s.rows| && tagged[s.keyed[key]].0 == Inserted(key)
  {
    assert KeyedAt(name, s, tagged, index, key);
  }

  /** The rows of one key join its row and leave the others alone. */
  lemma GroupJoins(c: Context, name: Option<KeyName>, depth: int, bound: nat, s: Settling, tagged: seq<(Origin, Byml)>, base: seq<Byml>,
                   index: int, key: RowKey, nodes: seq<Byml>, other: RowKey)
    requires Placed(name, s, tagged, base, index) && nodes != [] && KeyedGroup(c, depth, bound, s, index, key, nodes).Some? && !other.IsEmpty()
    ensures var after := KeyedGroup(c, depth, bound, s, index, key, nodes).value;
            RowFor(after, other) == if other == key then Joined(c, depth, bound, RowFor(s, key), nodes) else RowFor(s, other)
  {
    hide Placed, MergeRows, InsertAll;
    if other in s.keyed { PlacedAt(name, s, tagged, base, index, other); }
    if key.IsEmpty() {
      if other in s.keyed { InsertAllKeeps(s, index, nodes, s.keyed[other]); }
      NoneKeyed(s, index, nodes);
    } else {
      if key in s.keyed { PlacedAt(name, s, tagged, base, index, key); }
    }
  }

  lemma {:induction false} NoneKeyed(s: Settling, index: int, nodes: seq<Byml>)
    ensures InsertAll(s, index, nodes).keyed == s.keyed
    decreases |nodes|
  {
    if nodes != [] { NoneKeyed(s, index, nodes[..|nodes| - 1]); }
  }

  lemma LastGroupSelects(groups: seq<(RowKey, seq<Byml>)>, key: RowKey)
    requires groups != [] && DistinctKeys(groups)
    ensures var last := |groups| - 1;
            && DistinctKeys(groups[..last])
            && Select(PairsOf(groups), key) == (if groups[last].0 == key then groups[last].1 else Select(PairsOf(groups[..last]), key))
  {
    var last := |groups| - 1;
    assert groups == groups[..last] + [groups[last]];
    PairsAppend(groups[..last], groups[last]);
    SelectAppend(PairsOf(groups[..last]), Spread(groups[last].0, groups[last].1), key);
    SelectSpread(groups[last].0, groups[last].1, key);
    if groups[last].0 == key {
      assert !HasKey(groups[..last], key);
      SelectNone(groups[..last], key);
    }
  }

  lemma {:induction false} GroupsJoin(c: Context, name: Option<KeyName>, depth: int, bound: nat, s: Settling, tagged: seq<(Origin, Byml)>,
                                      base: seq<Byml>, index: int, groups: seq<(RowKey, seq<Byml>)>, key: RowKey)
    requires Placed(name, s, tagged, base, index) && GroupsOfKeys(name, groups) && DistinctKeys(groups) && NoEmptyGroup(groups)
    requires KeyedGroups(c, depth, bound, s, index, groups).Some? && !key.IsEmpty()
    ensures RowFor(KeyedGroups(c, depth, bound, s, index, groups).value, key)
            == Joined(c, depth, bound, RowFor(s, key), Select(PairsOf(groups), key))
    decreases |groups|
  {
    hide Placed, KeyedGroup, NodesOfKey, RowFor, Joined, Select;
    if groups == [] {
      NothingJoins(c, depth, bound, RowFor(s, key), key);
    } else {
      var last := |groups| - 1;
      var before := KeyedGroups(c, depth, bound, s, index, groups[..last]).value;
      var tags := KeyedGroupsPlaced(c, name, depth, bound, s, tagged, base, index, groups[..last]);
      LastGroupSelects(groups, key);
      GroupsJoin(c, name, depth, bound, s, tagged, base, index, groups[..last], key);
      assert NodesOfKey(name, groups[last].1, groups[last].0);
      GroupJoins(c, name, depth, bound, before, tags, base, index, groups[last].0, groups[last].1, key);
      if groups[last].0 == key { AloneJoins(c, depth, bound, RowFor(s, key), groups); }
    }
  }

  lemma NothingJoins(c: Context, depth: int, bound: nat, row: Option<Byml>, key: RowKey)
    ensures Joined(c, depth, bound, row, Select(PairsOf([]), key)) == row
  {
  }

  lemma AloneJoins(c: Context, depth: int, bound: nat, row: Option<Byml>, groups: seq<(RowKey, seq<Byml>)>)
    requires groups != [] && DistinctKeys(groups)
    ensures Joined(c, depth, bound, row, Select(PairsOf(groups[..|groups| - 1]), groups[|groups| - 1].0)) == row
  {
    hide MergeRows;
    assert !HasKey(groups[..|groups| - 1], groups[|groups| - 1].0);
    SelectNone(groups[..|groups| - 1], groups[|groups| - 1].0);
  }

  lemma {:induction false} AllJoin(c: Context, name: string, depth: int, bound: nat, rows: seq<Byml>, groups: seq<(int, seq<Byml>)>, key: RowKey)
    requires Ascending(groups) && SettleGroups(c, Some(name), depth, bound, Settling(rows, 0, map[]), groups).Some? && !key.IsEmpty()
    ensures RowFor(SettleGroups(c, Some(name), depth, bound, Settling(rows, 0, map[]), groups).value, key)
            == JoinedAll(c, c.rules.mergerKey(name, c.ApplyType(), depth), depth, bound, groups, key)
    decreases |groups|
  {
    hide Placed, KeysAre, KeyedGroups, GroupsOfKeys, Joined;
    if groups != [] {
      var keyName, start := c.rules.mergerKey(name, c.ApplyType(), depth), Settling(rows, 0, map[]);
      var last := |groups| - 1;
      var (index, nodes) := groups[last];
      var before := SettleGroups(c, Some(name), depth, bound, start, groups[..last]).value;
      AllJoin(c, name, depth, bound, rows, groups[..last], key);
      var tagged: seq<(Origin, Byml)>;
      if last == 0 {
        tagged := StartPlaced(keyName, rows, index);
        assert groups[..last] == [];
      } else {
        tagged := SettleGroupsPlaced(c, name, depth, bound, rows, groups[..last]);
        LaterIndex(keyName, before, tagged, rows, groups[last - 1].0, index);
      }
      GroupsHaveKeys(keyName, index, nodes, NO_KEY);
      GroupsByKeeps(Keys(keyName, nodes), key);
      GroupsJoin(c, keyName, depth, bound, before, tagged, rows, index, GroupsBy(Keys(keyName, nodes)), key);
    }
  }

  /** The one row left for a key is what the rows added with it join to, by increasing index and then in recorded order. */
  lemma RowOfKey(c: Context, rows: seq<Byml>, entry: ArrayEntry, key: RowKey)
    requires entry.name.Some? && SettleArray(c, rows, entry).Some?
    requires Adds(c.rules.mergerKey(entry.name.value, c.ApplyType(), entry.depth), Flatten(entry.additions), key)
    ensures var row := JoinedAll(c, c.rules.mergerKey(entry.name.value, c.ApplyType(), entry.depth), entry.depth, EntryHeight(entry),
                                 SortGroups(GroupsBy(Flatten(entry.additions))), key);
            row.Some? && row.value.Map? && row.value in SettleArray(c, rows, entry).value
  {
    hide SettleGroups, JoinedAll, Placed, Retained;
    var name, all := c.rules.mergerKey(entry.name.value, c.ApplyType(), entry.depth), Flatten(entry.additions);
    var groups, marked := SortGroups(GroupsBy(all)), Marked(rows, entry.removals);
    GroupsByKeeps(all, 0);
    SortGroupsKeeps(GroupsBy(all), 0);
    var s := SettleGroups(c, entry.name, entry.depth, EntryHeight(entry), Settling(marked, 0, map[]), groups).value;
    var tagged := SettleGroupsPlaced(c, entry.name.value, entry.depth, EntryHeight(entry), marked, groups);
    KeyedRows.SortGroupsBag(GroupsBy(all));
    KeyedRows.GroupsByBag(all);
    AddsSameBag(name, PairsOf(groups), all, key);
    OneRowPlaced(name, s, tagged, marked, if groups == [] then 0 else groups[|groups| - 1].0, key);
    AllJoin(c, entry.name.value, entry.depth, EntryHeight(entry), marked, groups, key);
    StaysIn(s.rows, s.keyed[key]);
  }

  lemma {:induction false} StaysIn(rows: seq<Byml>, i: nat)
    requires i < |rows| && !rows[i].IsRemove()
    ensures rows[i] in Retained(rows)
    decreases |rows|
  {
    if i < |rows| - 1 { StaysIn(rows[..|rows| - 1], i); }
  }

  // ---------- two mods ----------

  /** Two changelogs that each add a row. */
  function TwoAdditions(name: string, depth: int, i: int, a: Byml, j: int, b: Byml): ArrayEntry {
    ArrayEntry(Some(name), depth, [[(i, a)], [(j, b)]], {})
  }

  lemma TwoGroups(i: int, a: Byml, j: int, b: Byml)
    ensures Flatten([[(i, a)], [(j, b)]]) == [(i, a), (j, b)]
    ensures SortGroups(GroupsBy([(i, a), (j, b)]))
            == if i == j then [(i, [a, b])] else if i < j then [(i, [a]), (j, [b])] else [(j, [b]), (i, [a])]
  {
    var lists := [[(i, a)], [(j, b)]];
    var none: seq<seq<(int, Byml)>> := [];
    assert lists[..1] == [[(i, a)]] && lists[..1][..0] == none;
    assert Flatten(lists[..1]) == [(i, a)];
    var pairs := [(i, a), (j, b)];
    assert Flatten(lists) == pairs;
    var noPairs: seq<(int, Byml)> := [];
    var noGroups: seq<(int, seq<Byml>)> := [];
    var one: seq<(int, seq<Byml>)> := [(i, [a])];
    assert pairs[..1] == [(i, a)] && pairs[..1][..0] == noPairs && one[1..] == noGroups;
    assert GroupsBy(pairs[..1][..0]) == noGroups;
    assert GroupsBy(pairs[..1]) == one;
    assert GroupsBy(pairs) == AddToGroup(one, j, b);
    if i == j {
      assert [a] + [b] == [a, b] && AddToGroup(one, j, b) == [(i, [a, b])];
      OneSorted((i, [a, b]));
      assert GroupsBy(pairs) == [(i, [a, b])];
    } else {
      assert AddToGroup(one[1..], j, b) == [(j, [b])];
      assert AddToGroup(one, j, b) == [(i, [a]), (j, [b])];
      TwoSorted((i, [a]), (j, [b]));
    }
  }

  lemma OneSorted(g: (int, seq<Byml>))
    ensures SortGroups([g]) == [g]
  {
    var none: seq<(int, seq<Byml>)> := [];
    assert [g][..0] == none && SortGroups(none) == none;
  }

  lemma TwoSorted(g: (int, seq<Byml>), h: (int, seq<Byml>))
    requires g.0 != h.0
    ensures SortGroups([g, h]) == if g.0 < h.0 then [g, h] else [h, g]
  {
    var none: seq<(int, seq<Byml>)> := [];
    OneSorted(g);
    assert [g, h][..1] == [g] && [g][1..] == none;
    assert InsertGroup(none, h) == [h];
  }

  lemma KeyOfOne(name: KeyName, row: Byml, key: RowKey)
    ensures KeyedRows.WithKey(Some(name), [row], key) == if KeyOf(name, row) == key then [row] else []
  {
    KeyedRows.OneWithKey(Some(name), row, key);
  }

  lemma KeyOfTwo(name: KeyName, a: Byml, b: Byml)
    requires KeyOf(name, a) == KeyOf(name, b)
    ensures KeyedRows.WithKey(Some(name), [a, b], KeyOf(name, a)) == [a, b]
  {
    KeyOfOne(name, a, KeyOf(name, a));
    KeyOfOne(name, b, KeyOf(name, a));
    KeyedRows.KeysAppend(Some(name), [a], [b], KeyOf(name, a));
    assert [a] + [b] == [a, b];
  }

  lemma JoinedTwo(c: Context, name: KeyName, depth: int, bound: nat, i: int, a: Byml, j: int, b: Byml)
    requires KeyOf(name, a) == KeyOf(name, b)
    ensures JoinedAll(c, Some(name), depth, bound, SortGroups(GroupsBy([(i, a), (j, b)])), KeyOf(name, a))
            == if i <= j then MergeRows(c, depth, bound, a, [b]) else MergeRows(c, depth, bound, b, [a])
  {
    hide MergeRows, SortGroups, GroupsBy, KeyOf;
    var key := KeyOf(name, a);
    TwoGroups(i, a, j, b);
    var groups := SortGroups(GroupsBy([(i, a), (j, b)]));
    var none: seq<(int, seq<Byml>)> := [];
    KeyOfOne(name, a, key);
    KeyOfOne(name, b, key);
    if i == j {
      KeyOfTwo(name, a, b);
      assert groups[..0] == none;
      assert JoinedAll(c, Some(name), depth, bound, groups[..0], key) == None;
      assert [a, b][1..] == [b];
    } else {
      assert groups[..1][..0] == none && groups[..1] == [groups[0]];
      assert JoinedAll(c, Some(name), depth, bound, groups[..1][..0], key) == None;
      assert JoinedAll(c, Some(name), depth, bound, groups[..1], key) == Some(groups[0].1[0]);
    }
  }

  lemma RowHeight(name: string, depth: int, i: int, a: Byml, j: int, b: Byml)
    requires a.Map?
    ensures EntryHeight(TwoAdditions(name, depth, i, a, j, b)) > 0
  {
    Heights.AdditionHeight(TwoAdditions(name, depth, i, a, j, b), 0, 0);
  }

  /** Of two rows added under one key one is left, and of the two the one with the larger index decides, at every path where they
      differ, whichever mod it is from; at the same index the later mod's does. */
  lemma TwoModsOneRow(c: Context, rows: seq<Byml>, name: string, depth: int, key: KeyName, i: int, a: Byml, j: int, b: Byml) returns (row: Byml)
    requires c.rules.mergerKey(name, c.ApplyType(), depth) == Some(key) && KeyOf(key, a) == KeyOf(key, b) && !KeyOf(key, a).IsEmpty()
    requires MergedRows.StableRows(if i <= j then a else b, [if i <= j then b else a])
    requires SettleArray(c, rows, TwoAdditions(name, depth, i, a, j, b)).Some?
    ensures row in SettleArray(c, rows, TwoAdditions(name, depth, i, a, j, b)).value
    ensures var (first, second) := if i <= j then (a, b) else (b, a);
            forall path :: path != [] ==> MergedRows.DecidedAt(first, [second], row, path)
  {
    hide SettleArray, JoinedAll, MergeRows, KeyOf, MergedRows.StableRows, MergedRows.DecidedAt, EntryHeight, SortGroups, GroupsBy;
    var entry := TwoAdditions(name, depth, i, a, j, b);
    var (first, second) := if i <= j then (a, b) else (b, a);
    TwoGroups(i, a, j, b);
    assert Flatten(entry.additions)[0] == (i, a);
    RowOfKey(c, rows, entry, KeyOf(key, a));
    JoinedTwo(c, key, depth, EntryHeight(entry), i, a, j, b);
    KeyedIsMap(key, a);
    RowHeight(name, depth, i, a, j, b);
    MergedRows.LastRowWins(c, depth, EntryHeight(entry), first, [second]);
    row := MergeRows(c, depth, EntryHeight(entry), first, [second]).value;
  }

  lemma KeyedIsMap(name: KeyName, row: Byml)
    requires !KeyOf(name, row).IsEmpty()
    ensures row.Map?
  {
  }
}
