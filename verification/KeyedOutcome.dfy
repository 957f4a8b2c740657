/** How many rows are left of those several changelogs add to an array: one for each key, if the array is settled by key. */
module KeyedOutcome {
  import opened Documents
  import opened Changelogs
  import opened Pending
  import opened Splice
  import KeyedRows
  import opened KeyedInserts
  import RoundTrip
  import RoundTripLaws

  // ---------- counting the rows that are not marks ----------

  function Live(rows: seq<Byml>): nat { |Retained(rows)| }

  lemma {:induction false} LiveAppend(a: seq<Byml>, b: seq<Byml>)
    ensures Live(a + b) == Live(a) + Live(b)
  {
    if b == [] {
      assert a + b == a;
    } else {
      var last := |b| - 1;
      LiveAppend(a, b[..last]);
      assert (a + b)[..|a + b| - 1] == a + b[..last];
    }
  }

  lemma LiveOne(row: Byml)
    ensures Live([row]) == if row.IsRemove() then 0 else 1
  {
    assert Retained([row][..0]) == [];
  }

  lemma LiveInsert(rows: seq<Byml>, at: nat, row: Byml)
    requires at <= |rows|
    ensures Live(rows[..at] + [row] + rows[at..]) == Live(rows) + Live([row])
  {
    hide Live;
    LiveAppend(rows[..at] + [row], rows[at..]);
    LiveAppend(rows[..at], [row]);
    LiveAppend(rows[..at], rows[at..]);
    assert rows == rows[..at] + rows[at..];
  }

  lemma LiveMark(rows: seq<Byml>, at: nat)
    requires at < |rows| && !rows[at].IsRemove()
    ensures Live(rows[at := Marker(Remove)]) == Live(rows) - 1
  {
    hide Live;
    var others := rows[..at] + rows[at + 1..];
    LiveInsert(others, at, rows[at]);
    LiveInsert(others, at, Marker(Remove));
    LiveOne(rows[at]);
    LiveOne(Marker(Remove));
    assert others[..at] == rows[..at] && others[at..] == rows[at + 1..];
    assert rows == rows[..at] + [rows[at]] + rows[at + 1..];
    assert rows[at := Marker(Remove)] == rows[..at] + [Marker(Remove)] + rows[at + 1..];
  }

  lemma {:induction false} InsertAllLive(s: Settling, index: int, nodes: seq<Byml>)
    ensures var r := InsertAll(s, index, nodes); Live(r.rows) == Live(s.rows) + Live(nodes) && r.keyed == s.keyed
  {
    hide Live;
    if nodes == [] {
      assert Live(nodes) == 0 by { assert Retained(nodes) == []; NoneLive(); }
    } else {
      var last := |nodes| - 1;
      var before := InsertAll(s, index, nodes[..last]);
      InsertAllLive(s, index, nodes[..last]);
      LiveInsert(before.rows, InsertAt(before, index), nodes[last]);
      LiveAppend(nodes[..last], [nodes[last]]);
      assert nodes == nodes[..last] + [nodes[last]];
    }
  }

  lemma NoneLive()
    ensures Live([]) == 0
  {
  }

  // ---------- rows without a key ----------

  /** How many of some rows have no key, marks left aside. */
  function Keyless(name: Option<KeyName>, nodes: seq<Byml>): nat {
    if nodes == [] then 0
    else Keyless(name, nodes[..|nodes| - 1]) + if NodeKey(name, nodes[|nodes| - 1]).IsEmpty() then Live([nodes[|nodes| - 1]]) else 0
  }

  lemma {:induction false} KeylessAppend(name: Option<KeyName>, a: seq<Byml>, b: seq<Byml>)
    ensures Keyless(name, a + b) == Keyless(name, a) + Keyless(name, b)
  {
    hide Live, NodeKey;
    if b == [] {
      assert a + b == a;
    } else {
      var last := |b| - 1;
      KeylessAppend(name, a, b[..last]);
      assert (a + b)[..|a + b| - 1] == a + b[..last];
    }
  }

  lemma {:induction false} KeylessSameBag(name: Option<KeyName>, a: seq<Byml>, b: seq<Byml>)
    requires multiset(a) == multiset(b)
    ensures Keyless(name, a) == Keyless(name, b)
  {
    hide Keyless;
    if a == [] {
      assert |b| == |multiset(b)| == 0;
    } else {
      var left, right := KeyedRows.TakeOut(a, b);
      KeylessSameBag(name, a[1..], left + right);
      KeylessAppend(name, [a[0]], a[1..]);
      KeylessAppend(name, left + [a[0]], right);
      KeylessAppend(name, left, [a[0]]);
      KeylessAppend(name, left, right);
      assert a == [a[0]] + a[1..];
    }
  }

  lemma {:induction false} KeylessOfKey(name: Option<KeyName>, nodes: seq<Byml>, key: RowKey)
    requires forall i :: 0 <= i < |nodes| ==> NodeKey(name, nodes[i]) == key
    ensures Keyless(name, nodes) == if key.IsEmpty() then Live(nodes) else 0
  {
    hide Live, NodeKey;
    if nodes == [] {
      NoneLive();
    } else {
      var last := |nodes| - 1;
      KeylessOfKey(name, nodes[..last], key);
      LiveAppend(nodes[..last], [nodes[last]]);
      assert nodes == nodes[..last] + [nodes[last]];
    }
  }

  // ---------- settling by key, counted ----------

  ghost predicate Counted(before: Settling, after: Settling, keyless: nat) {
    Live(after.rows) + |before.keyed| == Live(before.rows) + |after.keyed| + keyless
  }

  lemma KeyedGroupLive(c: Context, name: Option<KeyName>, depth: int, bound: nat, s: Settling, tagged: seq<(Origin, Byml)>,
                       base: seq<Byml>, index: int, key: RowKey, nodes: seq<Byml>)
    requires Placed(name, s, tagged, base, index) && NodesOfKey(name, nodes, key)
    requires KeyedGroup(c, depth, bound, s, index, key, nodes).Some?
    ensures Counted(s, KeyedGroup(c, depth, bound, s, index, key, nodes).value, Keyless(name, nodes))
  {
    hide Live, Keyless, Placed, MergeRows;
    KeylessOfKey(name, nodes, key);
    if key.IsEmpty() {
      InsertAllLive(s, index, nodes);
    } else {
      assert nodes[0].Map?;
      if key in s.keyed {
        RememberedIsMap(name, s, tagged, base, index, key);
        LiveMark(s.rows, s.keyed[key]);
        MergedRowIsMap(c, depth, bound, s.rows[s.keyed[key]], nodes);
        var row := MergeRows(c, depth, bound, s.rows[s.keyed[key]], nodes).value;
        OneInserted(s.(rows := s.rows[s.keyed[key] := Marker(Remove)]), index, row, key);
      } else {
        MergedRowIsMap(c, depth, bound, nodes[0], nodes[1..]);
        var row := if |nodes| == 1 then nodes[0] else MergeRows(c, depth, bound, nodes[0], nodes[1..]).value;
        OneInserted(s, index, row, key);
      }
    }
  }

  lemma RememberedIsMap(name: Option<KeyName>, s: Settling, tagged: seq<(Origin, Byml)>, base: seq<Byml>, index: int, key: RowKey)
    requires Placed(name, s, tagged, base, index) && key in s.keyed
    ensures s.keyed[key] < |s.rows| && s.rows[s.keyed[key]].Map?
  {
    assert KeyedAt(name, s, tagged, index, key);
  }

  lemma OneInserted(s: Settling, index: int, row: Byml, key: RowKey)
    requires row.Map?
    ensures var inserted := Insert(s, index, row);
            var after := inserted.(keyed := inserted.keyed[key := InsertAt(s, index)]);
            Live(after.rows) == Live(s.rows) + 1 && |after.keyed| == |s.keyed| + if key in s.keyed then 0 else 1
  {
    hide Live;
    LiveInsert(s.rows, InsertAt(s, index), row);
    LiveOne(row);
    OneMoreKey(s.keyed, key, InsertAt(s, index));
  }

  lemma OneMoreKey(keyed: map<RowKey, nat>, key: RowKey, at: nat)
    ensures |keyed[key := at]| == |keyed| + if key in keyed then 0 else 1
  {
    assert keyed[key := at].Keys == keyed.Keys + {key};
    assert |keyed[key := at].Keys| == |keyed[key := at]| && |keyed.Keys| == |keyed|;
    if key in keyed { assert keyed.Keys + {key} == keyed.Keys; }
  }

  lemma {:induction false} KeyedGroupsLive(c: Context, name: Option<KeyName>, depth: int, bound: nat, s: Settling,
                                           tagged: seq<(Origin, Byml)>, base: seq<Byml>, index: int, groups: seq<(RowKey, seq<Byml>)>)
    requires Placed(name, s, tagged, base, index) && GroupsOfKeys(name, groups) && KeyedGroups(c, depth, bound, s, index, groups).Some?
    ensures Counted(s, KeyedGroups(c, depth, bound, s, index, groups).value, Keyless(name, KeyedRows.ValuesOf(PairsOf(groups))))
    decreases |groups|
  {
    hide Live, Placed, KeyedGroup, NodesOfKey;
    if groups != [] {
      var last := |groups| - 1;
      var before := KeyedGroups(c, depth, bound, s, index, groups[..last]).value;
      KeyedGroupsLive(c, name, depth, bound, s, tagged, base, index, groups[..last]);
      var tags := KeyedGroupsPlaced(c, name, depth, bound, s, tagged, base, index, groups[..last]);
      assert NodesOfKey(name, groups[last].1, groups[last].0);
      GroupHasNodes(name, groups[last]);
      KeyedGroupLive(c, name, depth, bound, before, tags, base, index, groups[last].0, groups[last].1);
      LastGroup(name, groups);
    }
  }

  lemma GroupHasNodes(name: Option<KeyName>, group: (RowKey, seq<Byml>))
    requires NodesOfKey(name, group.1, group.0)
    ensures group.1 != []
  {
  }

  lemma LastGroup<K>(name: Option<KeyName>, groups: seq<(K, seq<Byml>)>)
    requires groups != []
    ensures Keyless(name, KeyedRows.ValuesOf(PairsOf(groups)))
            == Keyless(name, KeyedRows.ValuesOf(PairsOf(groups[..|groups| - 1]))) + Keyless(name, groups[|groups| - 1].1)
  {
    hide Keyless;
    var front, group := groups[..|groups| - 1], groups[|groups| - 1];
    assert groups == front + [group];
    PairsAppend(front, group);
    assert KeyedRows.ValuesOf(PairsOf(groups)) == KeyedRows.ValuesOf(PairsOf(front)) + group.1;
    KeylessAppend(name, KeyedRows.ValuesOf(PairsOf(front)), group.1);
  }

  lemma KeylessByKey(name: Option<KeyName>, nodes: seq<Byml>)
    ensures Keyless(name, KeyedRows.ValuesOf(PairsOf(GroupsBy(Keys(name, nodes))))) == Keyless(name, nodes)
  {
    hide Keyless;
    var pairs := Keys(name, nodes);
    KeyedRows.GroupsByBag(pairs);
    KeyedRows.ValuesBag(PairsOf(GroupsBy(pairs)), pairs);
    assert KeyedRows.ValuesOf(pairs) == nodes;
    KeylessSameBag(name, KeyedRows.ValuesOf(PairsOf(GroupsBy(pairs))), nodes);
  }

  lemma {:induction false} SettleGroupsLive(c: Context, name: string, depth: int, bound: nat, rows: seq<Byml>, groups: seq<(int, seq<Byml>)>)
    requires Ascending(groups) && SettleGroups(c, Some(name), depth, bound, Settling(rows, 0, map[]), groups).Some?
    ensures Counted(Settling(rows, 0, map[]), SettleGroups(c, Some(name), depth, bound, Settling(rows, 0, map[]), groups).value,
                    Keyless(c.rules.mergerKey(name, c.ApplyType(), depth), KeyedRows.ValuesOf(PairsOf(groups))))
    decreases |groups|
  {
    hide Live, Placed, KeyedGroups, KeysAre;
    var keyName, start := c.rules.mergerKey(name, c.ApplyType(), depth), Settling(rows, 0, map[]);
    if groups != [] {
      var last := |groups| - 1;
      var (index, nodes) := groups[last];
      var before := SettleGroups(c, Some(name), depth, bound, start, groups[..last]).value;
      SettleGroupsLive(c, name, depth, bound, rows, groups[..last]);
      var tags := SettleGroupsPlaced(c, name, depth, bound, rows, groups[..last]);
      if last > 0 {
        LaterIndex(keyName, before, tags, rows, groups[last - 1].0, index);
      } else {
        tags := StartPlaced(keyName, rows, index);
      }
      GroupsHaveKeys(keyName, index, nodes, NO_KEY);
      KeyedGroupsLive(c, keyName, depth, bound, before, tags, rows, index, GroupsBy(Keys(keyName, nodes)));
      KeylessByKey(keyName, nodes);
      LastGroup(keyName, groups);
    }
  }

  // ---------- one row for each key ----------

  /** The keys, other than the empty one, of some rows. */
  function AddedKeys(name: Option<KeyName>, nodes: seq<Byml>): set<RowKey> {
    set i | 0 <= i < |nodes| && !NodeKey(name, nodes[i]).IsEmpty() :: NodeKey(name, nodes[i])
  }

  /** Of the rows added as many are left as there are different keys, rows without a key counting each. */
  ghost predicate OneForEachKey(name: Option<KeyName>, kept: seq<Byml>, added: seq<Byml>, result: seq<Byml>) {
    |result| == |kept| + |AddedKeys(name, added)| + Keyless(name, added)
  }

  lemma AddsIff(name: Option<KeyName>, pairs: seq<(int, Byml)>, key: RowKey)
    ensures Adds(name, pairs, key) <==> key in AddedKeys(name, KeyedRows.ValuesOf(pairs))
  {
    hide NodeKey;
    var nodes := KeyedRows.ValuesOf(pairs);
    if Adds(name, pairs, key) {
      var i :| 0 <= i < |pairs| && NodeKey(name, pairs[i].1) == key;
      assert nodes[i] == pairs[i].1;
    }
    if key in AddedKeys(name, nodes) {
      var i :| 0 <= i < |nodes| && NodeKey(name, nodes[i]) == key;
      assert nodes[i] == pairs[i].1;
    }
  }

  /** An array settled by key has one row for each key added. */
  lemma SettledByKey(c: Context, rows: seq<Byml>, entry: ArrayEntry)
    requires entry.name.Some? && SettleArray(c, rows, entry).Some?
    ensures OneForEachKey(c.rules.mergerKey(entry.name.value, c.ApplyType(), entry.depth), Retained(Marked(rows, entry.removals)),
                          KeyedRows.ValuesOf(Flatten(entry.additions)), SettleArray(c, rows, entry).value)
  {
    hide Live, Keyless, SettleGroups, AddedKeys, Placed, Retained;
    var name, all := c.rules.mergerKey(entry.name.value, c.ApplyType(), entry.depth), Flatten(entry.additions);
    var groups, marked := SortGroups(GroupsBy(all)), Marked(rows, entry.removals);
    GroupsByKeeps(all, 0);
    SortGroupsKeeps(GroupsBy(all), 0);
    SettleGroupsLive(c, entry.name.value, entry.depth, EntryHeight(entry), marked, groups);
    var tagged := SettleGroupsPlaced(c, entry.name.value, entry.depth, EntryHeight(entry), marked, groups);
    var s := SettleGroups(c, entry.name, entry.depth, EntryHeight(entry), Settling(marked, 0, map[]), groups).value;
    KeyedRows.SortGroupsBag(GroupsBy(all));
    KeyedRows.GroupsByBag(all);
    KeyedRows.ValuesBag(PairsOf(groups), all);
    KeylessSameBag(name, KeyedRows.ValuesOf(PairsOf(groups)), KeyedRows.ValuesOf(all));
    KeysOfSettling(name, s, PairsOf(groups), all);
    CountIs(marked, s, Keyless(name, KeyedRows.ValuesOf(all)));
  }

  lemma CountIs(marked: seq<Byml>, s: Settling, keyless: nat)
    requires Counted(Settling(marked, 0, map[]), s, keyless)
    ensures |Retained(s.rows)| == |Retained(marked)| + |s.keyed.Keys| + keyless
  {
    assert |s.keyed.Keys| == |s.keyed|;
  }

  lemma KeysOfSettling(name: Option<KeyName>, s: Settling, pairs: seq<(int, Byml)>, all: seq<(int, Byml)>)
    requires KeysAre(name, s, pairs) && multiset(pairs) == multiset(all)
    ensures s.keyed.Keys == AddedKeys(name, KeyedRows.ValuesOf(all))
  {
    hide Adds, AddedKeys;
    forall key
      ensures key in s.keyed.Keys <==> key in AddedKeys(name, KeyedRows.ValuesOf(all))
    {
      AddsSameBag(name, pairs, all, key);
      AddsIff(name, all, key);
    }
  }

  lemma KeyOnSome(name: Option<KeyName>, nodes: seq<Byml>, key: RowKey)
    requires !key.IsEmpty()
    ensures key in AddedKeys(name, nodes) <==> |KeyedRows.WithKey(name, nodes, key)| > 0
    decreases |nodes|
  {
    hide NodeKey;
    if nodes != [] {
      var front, row := nodes[..|nodes| - 1], nodes[|nodes| - 1];
      KeyOnSome(name, front, key);
      assert nodes == front + [row];
      KeyedRows.KeysAppend(name, front, [row], key);
      KeyedRows.OneWithKey(name, row, key);
      OneMoreAdded(name, nodes);
      assert Keys(name, [row])[0].0 == NodeKey(name, row) by { RowKeyIs(name, row); }
    } else {
      assert KeyedRows.WithKey(name, nodes, key) == [];
    }
  }

  lemma RowKeyIs(name: Option<KeyName>, row: Byml)
    ensures Keys(name, [row])[0].0 == NodeKey(name, row)
  {
  }

  lemma OneMoreAdded(name: Option<KeyName>, nodes: seq<Byml>)
    requires nodes != []
    ensures var key := NodeKey(name, nodes[|nodes| - 1]);
            AddedKeys(name, nodes) == AddedKeys(name, nodes[..|nodes| - 1]) + if key.IsEmpty() then {} else {key}
  {
    hide NodeKey;
    var last := |nodes| - 1;
    forall key
      ensures key in AddedKeys(name, nodes) <==> key in AddedKeys(name, nodes[..last]) || (key == NodeKey(name, nodes[last]) && !key.IsEmpty())
    {
      if key in AddedKeys(name, nodes) {
        var i :| 0 <= i < |nodes| && NodeKey(name, nodes[i]) == key;
        assert i < last ==> nodes[..last][i] == nodes[i];
      }
      if key in AddedKeys(name, nodes[..last]) {
        var i :| 0 <= i < last && NodeKey(name, nodes[..last][i]) == key;
        assert nodes[i] == nodes[..last][i];
      }
    }
  }

  lemma UniqueOneMore(name: Option<KeyName>, nodes: seq<Byml>)
    requires nodes != []
    ensures var key, front := NodeKey(name, nodes[|nodes| - 1]), nodes[..|nodes| - 1];
            KeyedRows.UniqueKeys(name, nodes) <==> KeyedRows.UniqueKeys(name, front) && key !in AddedKeys(name, front)
  {
    hide NodeKey, AddedKeys, KeyedRows.WithKey;
    var front, row := nodes[..|nodes| - 1], nodes[|nodes| - 1];
    var own := NodeKey(name, row);
    assert nodes == front + [row];
    forall key: RowKey | !key.IsEmpty()
      ensures |KeyedRows.WithKey(name, nodes, key)| == |KeyedRows.WithKey(name, front, key)| + if key == own then 1 else 0
      ensures key in AddedKeys(name, front) <==> |KeyedRows.WithKey(name, front, key)| > 0
    {
      KeyedRows.KeysAppend(name, front, [row], key);
      KeyedRows.OneWithKey(name, row, key);
      RowKeyIs(name, row);
      KeyOnSome(name, front, key);
    }
    if own.IsEmpty() { EmptyNotAdded(name, front, own); }
  }

  lemma EmptyNotAdded(name: Option<KeyName>, nodes: seq<Byml>, key: RowKey)
    requires key.IsEmpty()
    ensures key !in AddedKeys(name, nodes)
  {
  }

  /** As many rows as different keys, rows without a key counting each, exactly when no key is on two. */
  lemma {:induction false} CountAdded(name: Option<KeyName>, nodes: seq<Byml>)
    ensures Live(nodes) >= |AddedKeys(name, nodes)| + Keyless(name, nodes)
    ensures Live(nodes) == |AddedKeys(name, nodes)| + Keyless(name, nodes) <==> KeyedRows.UniqueKeys(name, nodes)
  {
    hide Live, AddedKeys, NodeKey, KeyedRows.UniqueKeys;
    if nodes == [] {
      NothingAdded(name);
    } else {
      var front, row := nodes[..|nodes| - 1], nodes[|nodes| - 1];
      CountAdded(name, front);
      OneMoreAdded(name, nodes);
      UniqueOneMore(name, nodes);
      LiveAppend(front, [row]);
      assert nodes == front + [row];
      var key := NodeKey(name, row);
      if key.IsEmpty() {
        EmptyNotAdded(name, front, key);
        assert AddedKeys(name, nodes) == AddedKeys(name, front);
      } else {
        KeyedIsLive(name, row);
        OneMoreOf(AddedKeys(name, front), key);
      }
    }
  }

  lemma OneMoreOf<T>(s: set<T>, x: T)
    ensures |s + {x}| == |s| + if x in s then 0 else 1
  {
    if x in s { assert s + {x} == s; }
  }

  lemma NothingAdded(name: Option<KeyName>)
    ensures Live([]) == 0 && AddedKeys(name, []) == {} && KeyedRows.UniqueKeys(name, [])
  {
    assert forall key :: KeyedRows.WithKey(name, [], key) == [];
  }

  lemma KeyedIsLive(name: Option<KeyName>, row: Byml)
    requires !NodeKey(name, row).IsEmpty()
    ensures Live([row]) == 1
  {
    LiveOne(row);
  }

  /** An array not settled by key keeps every row added. */
  lemma SettledUnkeyed(c: Context, rows: seq<Byml>, entry: ArrayEntry, name: Option<KeyName>)
    requires entry.name == None
    ensures SettleArray(c, rows, entry).Some?
    ensures OneForEachKey(name, Retained(Marked(rows, entry.removals)), KeyedRows.ValuesOf(Flatten(entry.additions)),
                          SettleArray(c, rows, entry).value)
            <==> KeyedRows.UniqueKeys(name, KeyedRows.ValuesOf(Flatten(entry.additions)))
  {
    hide Keyless, AddedKeys, KeyedRows.UniqueKeys, SettleArray;
    var pairs, marked := Flatten(entry.additions), Marked(rows, entry.removals);
    UnkeyedSettlesToSplice(c, rows, entry);
    KeyedRows.StableSortBag(pairs);
    RoundTrip.InterleaveBag(marked, 0, StableSort(pairs));
    LiveMix(Interleave(marked, 0, StableSort(pairs)), marked, KeyedRows.ValuesOf(pairs));
    CountAdded(name, KeyedRows.ValuesOf(pairs));
  }

  lemma {:induction false} LiveSameBag(a: seq<Byml>, b: seq<Byml>)
    requires multiset(a) == multiset(b)
    ensures Live(a) == Live(b)
  {
    hide Live;
    if a == [] {
      assert |b| == |multiset(b)| == 0;
    } else {
      var left, right := KeyedRows.TakeOut(a, b);
      LiveSameBag(a[1..], left + right);
      LiveAppend([a[0]], a[1..]);
      LiveAppend(left + [a[0]], right);
      LiveAppend(left, [a[0]]);
      LiveAppend(left, right);
      assert a == [a[0]] + a[1..];
    }
  }

  lemma LiveMix(all: seq<Byml>, a: seq<Byml>, b: seq<Byml>)
    requires multiset(all) == multiset(a) + multiset(b)
    ensures Live(all) == Live(a) + Live(b)
  {
    hide Live;
    assert multiset(a + b) == multiset(a) + multiset(b);
    LiveSameBag(all, a + b);
    LiveAppend(a, b);
  }

  // ---------- what several changelogs record ----------

  /** The first thing recorded for the array, edits aside. */
  function FirstRecorded(changes: seq<ArrayChange>): Option<ChangeType> {
    if changes == [] then None
    else if FirstRecorded(changes[..|changes| - 1]).Some? then FirstRecorded(changes[..|changes| - 1])
    else if changes[|changes| - 1].change.Edit? then None
    else Some(changes[|changes| - 1].change)
  }

  /** Every addition, in order. */
  function Additions(changes: seq<ArrayChange>): seq<(int, Byml)> {
    if changes == [] then []
    else
      var last := changes[|changes| - 1];
      Additions(changes[..|changes| - 1]) + if last.change.Add? then [(last.index, last.node)] else []
  }

  /** The changes several changelogs make in an array, one after the other. */
  function MergeLogs(c: Context, depth: int, name: string, tree: Tree, logs: seq<seq<ArrayChange>>): Option<Tree> {
    if logs == [] then Some(tree)
    else
      match MergeLogs(c, depth, name, tree, logs[..|logs| - 1])
      case None => None
      case Some(before) =>
        if before.PArray? then MergeArray(c, depth, Some(name), before.items, before.entry, logs[|logs| - 1]) else None
  }

  /** An entry has a name exactly when an addition was recorded first; all additions are in it, in order. */
  ghost predicate Recorded(entry: Option<ArrayEntry>, name: Option<string>, depth: int, changes: seq<ArrayChange>) {
    match entry
    case None => FirstRecorded(changes) == None && Additions(changes) == []
    case Some(e) =>
      && FirstRecorded(changes).Some? && Flatten(e.additions) == Additions(changes)
      && if FirstRecorded(changes) == Some(Add) then e.name == name && e.depth == depth else e.name == None
  }

  /** The list a changelog has opened is the last. */
  ghost predicate LastList(state: ArrayState) {
    state.list.Some? ==> state.entry.Some? && state.list.value == |state.entry.value.additions| - 1
  }

  lemma OneChange(changes: seq<ArrayChange>, change: ArrayChange)
    ensures FirstRecorded(changes + [change])
            == if FirstRecorded(changes).Some? then FirstRecorded(changes) else if change.change.Edit? then None else Some(change.change)
    ensures Additions(changes + [change]) == Additions(changes) + if change.change.Add? then [(change.index, change.node)] else []
  {
    assert (changes + [change])[..|changes|] == changes;
  }

  lemma RecordedMore(c: Context, depth: int, name: Option<string>, keyName: Option<KeyName>, state: ArrayState, change: ArrayChange,
                     changes: seq<ArrayChange>)
    requires Recorded(state.entry, name, depth, changes) && LastList(state)
    requires MergeChange(c, depth, name, keyName, state, change).Some?
    ensures var after := MergeChange(c, depth, name, keyName, state, change).value;
            Recorded(after.entry, name, depth, changes + [change]) && LastList(after)
  {
    hide FirstRecorded, Additions, BestMatch, Merge;
    OneChange(changes, change);
    if change.change.Add? {
      AdditionRecorded(depth, name, state, change.index, change.node);
    } else {
      assert Additions(changes + [change]) == Additions(changes);
    }
  }

  lemma AdditionRecorded(depth: int, name: Option<string>, state: ArrayState, index: int, node: Byml)
    requires LastList(state)
    ensures var after := WithAddition(state, depth, name, index, node);
            LastList(after) && after.entry.Some?
            && Flatten(after.entry.value.additions)
               == (if state.entry.Some? then Flatten(state.entry.value.additions) else []) + [(index, node)]
            && after.entry.value.name == (if state.entry.Some? then state.entry.value.name else name)
            && after.entry.value.depth == (if state.entry.Some? then state.entry.value.depth else depth)
  {
    var entry := if state.entry.Some? then state.entry.value else ArrayEntry(name, depth, [], {});
    FlattenLast(entry.additions, [(index, node)]);
    if state.list.Some? {
      FlattenLonger(entry.additions, (index, node));
    } else {
      var none: seq<(int, Byml)> := [];
      assert none + [(index, node)] == [(index, node)];
      assert (entry.additions + [none])[|entry.additions| := [(index, node)]] == entry.additions + [[(index, node)]];
    }
  }

  lemma FlattenLonger<T>(lists: seq<seq<T>>, x: T)
    requires lists != []
    ensures Flatten(lists[|lists| - 1 := lists[|lists| - 1] + [x]]) == Flatten(lists) + [x]
  {
    var last := |lists| - 1;
    var longer := lists[last := lists[last] + [x]];
    assert longer[..last] == lists[..last];
  }

  lemma FlattenLast<T>(lists: seq<seq<T>>, list: seq<T>)
    ensures Flatten(lists + [list]) == Flatten(lists) + list
  {
    assert (lists + [list])[..|lists|] == lists;
  }

  lemma {:induction false} ChangesRecorded(c: Context, depth: int, name: Option<string>, keyName: Option<KeyName>, state: ArrayState,
                                           before: seq<ArrayChange>, changes: seq<ArrayChange>)
    requires Recorded(state.entry, name, depth, before) && LastList(state)
    requires MergeChanges(c, depth, name, keyName, state, changes).Some?
    ensures var after := MergeChanges(c, depth, name, keyName, state, changes).value;
            Recorded(after.entry, name, depth, before + changes) && LastList(after)
    decreases |changes|
  {
    hide Recorded, LastList, MergeChange;
    if changes == [] {
      assert before + changes == before;
    } else {
      var last := |changes| - 1;
      ChangesRecorded(c, depth, name, keyName, state, before, changes[..last]);
      var now := MergeChanges(c, depth, name, keyName, state, changes[..last]).value;
      RecordedMore(c, depth, name, keyName, now, changes[last], before + changes[..last]);
      assert before + changes[..last] + [changes[last]] == before + changes;
    }
  }

  lemma {:induction false} LogsRecorded(c: Context, depth: int, name: string, items: seq<Tree>, logs: seq<seq<ArrayChange>>)
    requires MergeLogs(c, depth, name, PArray(items, None), logs).Some?
    ensures var tree := MergeLogs(c, depth, name, PArray(items, None), logs).value;
            tree.PArray? && Recorded(tree.entry, Some(name), depth, Flatten(logs))
    decreases |logs|
  {
    hide MergeChanges;
    if logs != [] {
      var last := |logs| - 1;
      LogsRecorded(c, depth, name, items, logs[..last]);
      var before := MergeLogs(c, depth, name, PArray(items, None), logs[..last]).value;
      ChangesRecorded(c, depth, Some(name), c.rules.mergerKey(name, c.MergeType(), depth), ArrayState(before.items, before.entry, None, None),
                      Flatten(logs[..last]), logs[last]);
    }
  }

  /** The rows left of those that were there. */
  function KeptRows(rows: seq<Byml>, entry: Option<ArrayEntry>): seq<Byml> {
    if entry.None? then rows else Retained(Marked(rows, entry.value.removals))
  }

  /** Of the rows any number of changelogs add to an array one is left for each key, exactly when the first thing any of them
      records, edits aside, is an addition, or no two of the rows share a key. */
  lemma OneRowForEachKeyIff(c: Context, depth: int, name: string, items: seq<Tree>, logs: seq<seq<ArrayChange>>, tree: Tree,
                            rows: seq<Byml>, result: seq<Byml>)
    requires MergeLogs(c, depth, name, PArray(items, None), logs) == Some(tree) && Settle(c, tree) == Some(Array(result))
    requires tree.PArray? && |rows| == |tree.items| && forall i :: 0 <= i < |rows| ==> Settle(c, tree.items[i]) == Some(rows[i])
    ensures var changes, keyName := Flatten(logs), c.rules.mergerKey(name, c.ApplyType(), depth);
            OneForEachKey(keyName, KeptRows(rows, tree.entry), KeyedRows.ValuesOf(Additions(changes)), result)
            <==> FirstRecorded(changes) == Some(Add) || KeyedRows.UniqueKeys(keyName, KeyedRows.ValuesOf(Additions(changes)))
  {
    hide MergeLogs, Settle, SettleArray, OneForEachKey, KeyedRows.UniqueKeys, FirstRecorded, Additions;
    var changes, keyName := Flatten(logs), c.rules.mergerKey(name, c.ApplyType(), depth);
    LogsRecorded(c, depth, name, items, logs);
    RoundTrip.SettledNode(c, tree.items, tree.entry, rows);
    if tree.entry.None? {
      assert KeyedRows.ValuesOf(Additions(changes)) == [];
      NothingToAdd(keyName, rows);
    } else if FirstRecorded(changes) == Some(Add) {
      SettledByKey(c, rows, tree.entry.value);
    } else {
      SettledUnkeyed(c, rows, tree.entry.value, keyName);
    }
  }

  lemma NothingToAdd(name: Option<KeyName>, rows: seq<Byml>)
    ensures OneForEachKey(name, rows, [], rows) && KeyedRows.UniqueKeys(name, [])
  {
    NothingAdded(name);
  }

  /** The first addition of a changelog opens a list of its own. */
  lemma OpensList(c: Context, depth: int, name: string, items: seq<Tree>, entry: ArrayEntry, index: int, node: Byml)
    ensures MergeArray(c, depth, Some(name), items, Some(entry), [Change(index, Add, node)])
            == Some(PArray(items, Some(entry.(additions := entry.additions + [[(index, node)]]))))
  {
    var keyName := c.rules.mergerKey(name, c.MergeType(), depth);
    var none: seq<(int, Byml)> := [];
    var state := ArrayState(items, Some(entry), None, None);
    var lists, n := entry.additions + [none], |entry.additions|;
    RoundTrip.MergeOneChange(c, depth, Some(name), keyName, state, Change(index, Add, node));
    assert lists[n] + [(index, node)] == [(index, node)];
    assert lists[n := [(index, node)]] == entry.additions + [[(index, node)]];
  }

  lemma OpensEntry(c: Context, depth: int, name: string, items: seq<Tree>, index: int)
    ensures MergeArray(c, depth, Some(name), items, None, [Change(index, Remove, NULL)])
            == Some(PArray(items, Some(ArrayEntry(None, 0, [], {index}))))
  {
    var keyName := c.rules.mergerKey(name, c.MergeType(), depth);
    RoundTrip.MergeOneChange(c, depth, Some(name), keyName, ArrayState(items, None, None, None), Change(index, Remove, NULL));
    assert {} + {index} == {index};
  }

  /** A row of maps and scalars compared with itself has no changes. */
  lemma {:induction false} NothingChanged(rules: Rules, type_: string, depth: int, row: Byml)
    requires RoundTripLaws.MapsOnly(row)
    ensures Diff(rules, type_, depth, row, row).1
    decreases row
  {
    if row.Map? {
      forall k | k in row.entries
        ensures DiffEntry(rules, type_, depth + 1, k, row.entries[k], row.entries[k]).1
      {
        NothingChanged(rules, type_, depth + 1, row.entries[k]);
      }
      assert DiffMap(rules, type_, depth, row, row.entries) == map[];
    }
  }

  lemma OnlyIndexed(key: KeyName, row: Byml)
    requires !KeyOf(key, row).IsEmpty()
    ensures IndexOf([row], key) == map[KeyOf(key, row) := 0]
  {
    assert [row][..0] == [];
  }

  /** Against an array of one row: taking it out, and putting another before it. */
  lemma OneRowLogs(rules: Rules, type_: string, depth: int, key: KeyName, row: Byml, a: Byml)
    requires RoundTripLaws.MapsOnly(row) && !KeyOf(key, row).IsEmpty() && !KeyOf(key, a).IsEmpty() && KeyOf(key, a) != KeyOf(key, row)
    ensures KeyedChanges(rules, type_, depth, key, [], [row]) == [Change(0, Remove, NULL)]
    ensures KeyedChanges(rules, type_, depth, key, [a, row], [row]) == [Change(0, Add, a)]
  {
    hide Diff, KeyOf;
    var vanilla, src := [row], [a, row];
    OnlyIndexed(key, row);
    NothingChanged(rules, type_, depth, row);
    assert RowRemovals(key, [], vanilla, 1) == [] && RowRemovals(key, src, vanilla, 1) == [];
    assert StandsFor(key, src[1], vanilla, 0);
    assert RowChanges(rules, type_, depth, key, src, vanilla, 2, 1) == [];
    assert RowChanges(rules, type_, depth, key, src, vanilla, 1, 1) == [];
  }

  /** One mod removes the only row of an array compared by key, two others each put a row before it.  Merged in this order
      both rows stay, also when they share their key. */
  lemma RemovalFirstKeepsBoth(c: Context, depth: int, name: string, key: KeyName, row: Byml, a: Byml, b: Byml)
    requires RoundTripLaws.MapsOnly(row) && !KeyOf(key, row).IsEmpty() && !KeyOf(key, a).IsEmpty() && !KeyOf(key, b).IsEmpty()
    requires KeyOf(key, a) != KeyOf(key, row) && KeyOf(key, b) != KeyOf(key, row)
    ensures var logs := [KeyedChanges(c.rules, c.type_, depth, key, [], [row]), KeyedChanges(c.rules, c.type_, depth, key, [a, row], [row]),
                         KeyedChanges(c.rules, c.type_, depth, key, [b, row], [row])];
            var merged := MergeLogs(c, depth, name, Fresh(Array([row])), logs);
            merged.Some? && Settle(c, merged.value) == Some(Array([a, b]))
  {
    hide MergeLogs, MergeArray, KeyedChanges, Settle, SettleArray, RoundTripLaws.MapsOnly;
    OneRowLogs(c.rules, c.type_, depth, key, row, a);
    OneRowLogs(c.rules, c.type_, depth, key, row, b);
    assert Fresh(Array([row])) == PArray([Fresh(row)], None) by { assert Fresh(Array([row])).items == [Fresh(row)]; }
    BothMerged(c, depth, name, row, a, b);
    RoundTrip.FreshSettles(c, row);
    BothStay(c, row, a, b);
    RoundTrip.SettledNode(c, [Fresh(row)], Some(ArrayEntry(None, 0, [[(0, a)], [(0, b)]], {0})), [row]);
  }

  lemma BothMerged(c: Context, depth: int, name: string, row: Byml, a: Byml, b: Byml)
    ensures MergeLogs(c, depth, name, PArray([Fresh(row)], None), [[Change(0, Remove, NULL)], [Change(0, Add, a)], [Change(0, Add, b)]])
            == Some(PArray([Fresh(row)], Some(ArrayEntry(None, 0, [[(0, a)], [(0, b)]], {0}))))
  {
    hide MergeArray, Fresh;
    var removal, first, second := [Change(0, Remove, NULL)], [Change(0, Add, a)], [Change(0, Add, b)];
    var items := [Fresh(row)];
    var removed, once := ArrayEntry(None, 0, [], {0}), ArrayEntry(None, 0, [[(0, a)]], {0});
    OpensEntry(c, depth, name, items, 0);
    OpensList(c, depth, name, items, removed, 0, a);
    OpensList(c, depth, name, items, once, 0, b);
    assert [] + [[(0, a)]] == [[(0, a)]] && [[(0, a)]] + [[(0, b)]] == [[(0, a)], [(0, b)]];
    var start := PArray(items, None);
    OneLog(c, depth, name, start, [], removal);
    OneLog(c, depth, name, start, [removal], first);
    OneLog(c, depth, name, start, [removal, first], second);
    assert [] + [removal] == [removal] && [removal] + [first] == [removal, first] && [removal, first] + [second] == [removal, first, second];
  }

  lemma OneLog(c: Context, depth: int, name: string, tree: Tree, logs: seq<seq<ArrayChange>>, log: seq<ArrayChange>)
    ensures var before := MergeLogs(c, depth, name, tree, logs);
            before.Some? && before.value.PArray? ==>
              MergeLogs(c, depth, name, tree, logs + [log]) == MergeArray(c, depth, Some(name), before.value.items, before.value.entry, log)
  {
    assert (logs + [log])[..|logs|] == logs;
  }

  lemma BothStay(c: Context, row: Byml, a: Byml, b: Byml)
    requires a.Map? && b.Map?
    ensures SettleArray(c, [row], ArrayEntry(None, 0, [[(0, a)], [(0, b)]], {0})) == Some([a, b])
  {
    hide SettleArray;
    var entry := ArrayEntry(None, 0, [[(0, a)], [(0, b)]], {0});
    var pairs: seq<(int, Byml)> := [(0, a), (0, b)];
    UnkeyedSettlesToSplice(c, [row], entry);
    RoundTrip.OneList([(0, a)]);
    assert entry.additions[..1] == [[(0, a)]];
    assert Flatten(entry.additions) == pairs;
    RoundTrip.SortedIsStable(pairs);
    var mark := Marker(Remove);
    assert Marked([row], {0}) == [mark];
    assert pairs[1..] == [(0, b)] && pairs[1..][1..] == [];
    assert Interleave([mark], 0, pairs[1..]) == [b] + Interleave([mark], 0, pairs[1..][1..]);
    assert Interleave([mark], 0, pairs) == [a] + Interleave([mark], 0, pairs[1..]);
    assert Interleave([mark], 0, pairs) == [a, b, mark];
    RoundTrip.RetainedPrefix([a, b, mark], 2);
    assert [a, b, mark][..2] == [a, b];
    RoundTrip.RetainedAll([a, b]);
  }
}
