/** The additions of an array, inserted with a running offset, come out as a plain splice. */
module Splice {
  import opened Documents
  import opened Changelogs
  import opened Pending

  // ---------- grouping keeps order inside each key ----------

  function Spread<K, V>(key: K, values: seq<V>): seq<(K, V)> {
    seq(|values|, i requires 0 <= i < |values| => (key, values[i]))
  }

  /** Groups, flattened back to pairs. */
  function PairsOf<K, V>(groups: seq<(K, seq<V>)>): seq<(K, V)> {
    if groups == [] then [] else Spread(groups[0].0, groups[0].1) + PairsOf(groups[1..])
  }

  /** The values recorded under one key, in order. */
  function Select<K(==), V>(pairs: seq<(K, V)>, key: K): seq<V> {
    if pairs == [] then []
    else if pairs[0].0 == key then [pairs[0].1] + Select(pairs[1..], key)
    else Select(pairs[1..], key)
  }

  ghost predicate DistinctKeys<K, V>(groups: seq<(K, seq<V>)>) {
    forall i, j :: 0 <= i < j < |groups| ==> groups[i].0 != groups[j].0
  }

  ghost predicate NoEmptyGroup<K, V>(groups: seq<(K, seq<V>)>) {
    forall i :: 0 <= i < |groups| ==> groups[i].1 != []
  }

  ghost predicate HasKey<K, V>(groups: seq<(K, seq<V>)>, key: K) {
    exists i :: 0 <= i < |groups| && groups[i].0 == key
  }

  lemma SelectAppend<K, V>(a: seq<(K, V)>, b: seq<(K, V)>, key: K)
    ensures Select(a + b, key) == Select(a, key) + Select(b, key)
  {
    if a == [] {
      assert a + b == b;
    } else {
      assert (a + b)[1..] == a[1..] + b;
      SelectAppend(a[1..], b, key);
    }
  }

  lemma SelectSpread<K, V>(k: K, values: seq<V>, key: K)
    ensures Select(Spread(k, values), key) == if k == key then values else []
  {
    if values != [] {
      assert Spread(k, values)[1..] == Spread(k, values[1..]);
      SelectSpread(k, values[1..], key);
    }
  }

  lemma SelectGroup<K, V>(groups: seq<(K, seq<V>)>, key: K)
    requires groups != []
    ensures Select(PairsOf(groups), key)
            == (if groups[0].0 == key then groups[0].1 else []) + Select(PairsOf(groups[1..]), key)
  {
    SelectAppend(Spread(groups[0].0, groups[0].1), PairsOf(groups[1..]), key);
    SelectSpread(groups[0].0, groups[0].1, key);
  }

  lemma SelectNone<K, V>(groups: seq<(K, seq<V>)>, key: K)
    requires !HasKey(groups, key)
    ensures Select(PairsOf(groups), key) == []
  {
    if groups != [] {
      SelectGroup(groups, key);
      HasKeySplit(groups);
      SelectNone(groups[1..], key);
    }
  }

  lemma FirstIsAlone<K, V>(groups: seq<(K, seq<V>)>)
    requires DistinctKeys(groups) && groups != []
    ensures !HasKey(groups[1..], groups[0].0)
  {
    forall i | 0 <= i < |groups[1..]| ensures groups[1..][i].0 != groups[0].0 { assert groups[i + 1].0 != groups[0].0; }
  }

  lemma {:induction false} AddToGroupSelects<K, V>(groups: seq<(K, seq<V>)>, key: K, value: V, other: K)
    requires DistinctKeys(groups)
    ensures Select(PairsOf(AddToGroup(groups, key, value)), other)
            == Select(PairsOf(groups), other) + if other == key then [value] else []
  {
    hide HasKey;
    var more := AddToGroup(groups, key, value);
    SelectGroup(more, other);
    if groups == [] {
      assert more[1..] == groups;
    } else {
      SelectGroup(groups, other);
      if groups[0].0 == key {
        assert more[1..] == groups[1..];
        if other == key {
          FirstIsAlone(groups);
          SelectNone(groups[1..], key);
        }
      } else {
        AddToGroupSelects(groups[1..], key, value, other);
        assert more[1..] == AddToGroup(groups[1..], key, value);
      }
    }
  }

  lemma {:induction false} AddToGroupKeys<K, V>(groups: seq<(K, seq<V>)>, key: K, value: V)
    requires DistinctKeys(groups) && NoEmptyGroup(groups)
    ensures var more := AddToGroup(groups, key, value);
            && DistinctKeys(more) && NoEmptyGroup(more)
            && forall k :: HasKey(more, k) <==> HasKey(groups, k) || k == key
  {
    var more := AddToGroup(groups, key, value);
    if groups == [] {
      assert HasKey(more, key) by { assert more[0].0 == key; }
    } else if groups[0].0 == key {
      assert more[1..] == groups[1..];
      assert more[0].0 == key && groups[0].0 == key;
      HasKeySame(groups, more);
    } else {
      hide HasKey;
      AddToGroupKeys(groups[1..], key, value);
      assert more[1..] == AddToGroup(groups[1..], key, value);
      HasKeySplit(groups);
      HasKeySplit(more);
      FirstIsAlone(groups);
      OneInFront(more);
    }
  }

  lemma OneInFront<K, V>(groups: seq<(K, seq<V>)>)
    requires groups != [] && DistinctKeys(groups[1..]) && !HasKey(groups[1..], groups[0].0)
    ensures DistinctKeys(groups)
  {
    var rest := groups[1..];
    forall i, j | 0 <= i < j < |groups|
      ensures groups[i].0 != groups[j].0
    {
      assert groups[j] == rest[j - 1];
      if i > 0 { assert groups[i] == rest[i - 1]; }
    }
  }

  lemma AddToGroupKeeps<K, V>(groups: seq<(K, seq<V>)>, key: K, value: V, other: K)
    requires DistinctKeys(groups) && NoEmptyGroup(groups)
    ensures var more := AddToGroup(groups, key, value);
            && DistinctKeys(more) && NoEmptyGroup(more)
            && (forall k :: HasKey(more, k) <==> HasKey(groups, k) || k == key)
            && Select(PairsOf(more), other) == Select(PairsOf(groups), other) + if other == key then [value] else []
  {
    hide DistinctKeys, NoEmptyGroup, HasKey, Select, PairsOf, AddToGroup;
    AddToGroupKeys(groups, key, value);
    AddToGroupSelects(groups, key, value, other);
  }

  lemma HasKeySplit<K, V>(groups: seq<(K, seq<V>)>)
    requires groups != []
    ensures forall k :: HasKey(groups, k) <==> k == groups[0].0 || HasKey(groups[1..], k)
  {
    forall k
      ensures HasKey(groups, k) <==> k == groups[0].0 || HasKey(groups[1..], k)
    {
      if HasKey(groups, k) {
        var i :| 0 <= i < |groups| && groups[i].0 == k;
        if i > 0 { assert groups[1..][i - 1].0 == k; }
      }
      if HasKey(groups[1..], k) {
        var i :| 0 <= i < |groups[1..]| && groups[1..][i].0 == k;
        assert groups[i + 1].0 == k;
      }
    }
  }

  lemma HasKeySame<K, V>(a: seq<(K, seq<V>)>, b: seq<(K, seq<V>)>)
    requires |a| == |b| && forall i :: 0 <= i < |a| ==> a[i].0 == b[i].0
    ensures forall k :: HasKey(a, k) <==> HasKey(b, k)
  {
    forall k
      ensures HasKey(a, k) <==> HasKey(b, k)
    {
      if HasKey(a, k) { var i :| 0 <= i < |a| && a[i].0 == k; assert b[i].0 == k; }
      if HasKey(b, k) { var i :| 0 <= i < |b| && b[i].0 == k; assert a[i].0 == k; }
    }
  }

  /** Grouping keeps every key's values in the order they were recorded; each key has one group. */
  lemma {:induction false} GroupsByKeeps<K, V>(pairs: seq<(K, V)>, key: K)
    ensures var groups := GroupsBy(pairs);
            && DistinctKeys(groups) && NoEmptyGroup(groups)
            && Select(PairsOf(groups), key) == Select(pairs, key)
  {
    if pairs != [] {
      var last := |pairs| - 1;
      GroupsByKeeps(pairs[..last], key);
      AddToGroupKeeps(GroupsBy(pairs[..last]), pairs[last].0, pairs[last].1, key);
      SelectAppend(pairs[..last], [pairs[last]], key);
      assert pairs == pairs[..last] + [pairs[last]];
      assert Select([pairs[last]], key) == if pairs[last].0 == key then [pairs[last].1] else [];
    }
  }

  // ---------- sorting groups ----------

  ghost predicate Ascending(groups: seq<(int, seq<Byml>)>) {
    forall i, j :: 0 <= i < j < |groups| ==> groups[i].0 < groups[j].0
  }

  lemma {:induction false} InsertGroupAscends(groups: seq<(int, seq<Byml>)>, group: (int, seq<Byml>))
    requires Ascending(groups) && !HasKey(groups, group.0)
    ensures var more := InsertGroup(groups, group);
            && Ascending(more) && |more| == |groups| + 1
            && (forall k :: HasKey(more, k) <==> HasKey(groups, k) || k == group.0)
  {
    var more := InsertGroup(groups, group);
    HasKeySplit(more);
    if groups == [] || group.0 < groups[0].0 {
      assert more[1..] == groups;
    } else {
      HasKeySplit(groups);
      InsertGroupAscends(groups[1..], group);
      var rest := InsertGroup(groups[1..], group);
      assert more[1..] == rest;
      AllAfterFirst(groups, group, rest);
    }
  }

  lemma AllAfterFirst(groups: seq<(int, seq<Byml>)>, group: (int, seq<Byml>), rest: seq<(int, seq<Byml>)>)
    requires groups != [] && Ascending(groups) && group.0 > groups[0].0
    requires forall k :: HasKey(rest, k) <==> HasKey(groups[1..], k) || k == group.0
    ensures forall j :: 0 <= j < |rest| ==> groups[0].0 < rest[j].0
  {
    forall j | 0 <= j < |rest|
      ensures groups[0].0 < rest[j].0
    {
      assert HasKey(rest, rest[j].0);
      if HasKey(groups[1..], rest[j].0) {
        var i :| 0 <= i < |groups[1..]| && groups[1..][i].0 == rest[j].0;
        assert groups[i + 1].0 == rest[j].0;
      }
    }
  }

  lemma {:induction false} InsertGroupKeeps(groups: seq<(int, seq<Byml>)>, group: (int, seq<Byml>), key: int)
    requires NoEmptyGroup(groups) && group.1 != [] && !HasKey(groups, group.0)
    ensures var more := InsertGroup(groups, group);
            && NoEmptyGroup(more)
            && Select(PairsOf(more), key) == Select(PairsOf(groups), key) + if group.0 == key then group.1 else []
  {
    var more := InsertGroup(groups, group);
    SelectGroup(more, key);
    if groups == [] || group.0 < groups[0].0 {
      assert more[1..] == groups;
      if group.0 == key {
        SelectNone(groups, key);
      }
    } else {
      HasKeySplit(groups);
      InsertGroupKeeps(groups[1..], group, key);
      assert more[1..] == InsertGroup(groups[1..], group);
      SelectGroup(groups, key);
      if group.0 == key {
        SelectNone(groups[1..], key);
      }
    }
  }

  lemma {:induction false} SortGroupsKeeps(groups: seq<(int, seq<Byml>)>, key: int)
    requires DistinctKeys(groups) && NoEmptyGroup(groups)
    ensures var sorted := SortGroups(groups);
            && Ascending(sorted) && NoEmptyGroup(sorted)
            && (forall k :: HasKey(sorted, k) <==> HasKey(groups, k))
            && Select(PairsOf(sorted), key) == Select(PairsOf(groups), key)
  {
    hide HasKey, DistinctKeys, Ascending, Select, InsertGroup;
    if groups == [] {
      NoneSorted();
    } else {
      var last := |groups| - 1;
      var before, group := groups[..last], groups[last];
      LastIsAlone(groups);
      SortGroupsKeeps(before, key);
      assert !HasKey(SortGroups(before), group.0);
      InsertGroupAscends(SortGroups(before), group);
      InsertGroupKeeps(SortGroups(before), group, key);
      assert groups == before + [group];
      PairsAppend(before, group);
      SelectAppend(PairsOf(before), Spread(group.0, group.1), key);
      SelectSpread(group.0, group.1, key);
    }
  }

  lemma NoneSorted()
    ensures Ascending([])
  {
  }

  lemma LastIsAlone(groups: seq<(int, seq<Byml>)>)
    requires DistinctKeys(groups) && NoEmptyGroup(groups) && groups != []
    ensures var before, last := groups[..|groups| - 1], groups[|groups| - 1];
            && DistinctKeys(before) && NoEmptyGroup(before) && !HasKey(before, last.0) && last.1 != []
            && forall k :: HasKey(groups, k) <==> HasKey(before, k) || k == last.0
  {
    var before, last := groups[..|groups| - 1], groups[|groups| - 1];
    forall i | 0 <= i < |before| ensures before[i].0 != last.0 { assert before[i] == groups[i]; }
    forall k
      ensures HasKey(groups, k) <==> HasKey(before, k) || k == last.0
    {
      if HasKey(before, k) { var i :| 0 <= i < |before| && before[i].0 == k; assert groups[i].0 == k; }
      if k == last.0 { assert groups[|groups| - 1].0 == k; }
    }
  }

  lemma PairsAppend<K, V>(groups: seq<(K, seq<V>)>, group: (K, seq<V>))
    ensures PairsOf(groups + [group]) == PairsOf(groups) + Spread(group.0, group.1)
  {
    if groups == [] {
      assert [group][1..] == [];
    } else {
      assert (groups + [group])[1..] == groups[1..] + [group];
      PairsAppend(groups[1..], group);
    }
  }

  // ---------- the splice ----------

  /** Rows numbered from `first` with the additions put in: an addition comes before the row at its
      index, those for no row come at the end, and none overtakes another. */
  function Interleave<T>(rows: seq<T>, first: nat, additions: seq<(int, T)>): (all: seq<T>)
    ensures |all| == |rows| + |additions|
    decreases |additions| + |rows|
  {
    if additions == [] then rows
    else if rows == [] || NonNegative(additions[0].0) <= first then
      [additions[0].1] + Interleave(rows, first, additions[1..])
    else
      [rows[0]] + Interleave(rows[1..], first + 1, additions)
  }

  ghost predicate Sorted<T>(additions: seq<(int, T)>) {
    forall i, k :: 0 <= i < k < |additions| ==> additions[i].0 <= additions[k].0
  }

  /** Puts `x` at a position, or at the end when there are not as many elements. */
  function Place<T>(s: seq<T>, target: nat, x: T): seq<T> {
    var at := if |s| > target then target else |s|;
    s[..at] + [x] + s[at..]
  }

  lemma PlacePast<T>(head: T, tail: seq<T>, target: nat, x: T)
    ensures [head] + Place(tail, target, x) == Place([head] + tail, target + 1, x)
  {
    var s := [head] + tail;
    var at := if |tail| > target then target else |tail|;
    assert s[..at + 1] == [head] + tail[..at];
    assert s[at + 1..] == tail[at..];
  }

  lemma {:induction false} PlaceOne<T>(rows: seq<T>, first: nat, index: int, x: T)
    requires first <= NonNegative(index)
    ensures Interleave(rows, first, [(index, x)]) == Place(rows, NonNegative(index) - first, x)
    decreases |rows|
  {
    var one := [(index, x)];
    assert one[1..] == [];
    if NonNegative(index) > first && rows != [] {
      assert rows == [rows[0]] + rows[1..];
      PlacePast(rows[0], rows[1..], NonNegative(index) - first - 1, x);
      PlaceOne(rows[1..], first + 1, index, x);
    }
  }

  ghost predicate NotAfter<T>(additions: seq<(int, T)>, index: int) {
    forall i :: 0 <= i < |additions| ==> additions[i].0 <= index
  }

  lemma AfterAddition<T>(rows: seq<T>, first: nat, additions: seq<(int, T)>, last: (int, T), target: nat)
    requires additions != [] && (rows == [] || NonNegative(additions[0].0) <= first)
    requires Interleave(rows, first, additions[1..] + [last]) == Place(Interleave(rows, first, additions[1..]), target, last.1)
    ensures Interleave(rows, first, additions + [last]) == Place(Interleave(rows, first, additions), target + 1, last.1)
  {
    assert (additions + [last])[1..] == additions[1..] + [last];
    PlacePast(additions[0].1, Interleave(rows, first, additions[1..]), target, last.1);
  }

  lemma AfterRow<T>(rows: seq<T>, first: nat, additions: seq<(int, T)>, last: (int, T), target: nat)
    requires additions != [] && rows != [] && NonNegative(additions[0].0) > first
    requires Interleave(rows[1..], first + 1, additions + [last]) == Place(Interleave(rows[1..], first + 1, additions), target, last.1)
    ensures Interleave(rows, first, additions + [last]) == Place(Interleave(rows, first, additions), target + 1, last.1)
  {
    PlacePast(rows[0], Interleave(rows[1..], first + 1, additions), target, last.1);
  }

  /** One more addition, with no smaller index than the others, lands at its index plus their number. */
  lemma {:induction false} InterleaveOneMore<T>(rows: seq<T>, first: nat, additions: seq<(int, T)>, index: int, x: T)
    requires first <= NonNegative(index) && NotAfter(additions, index)
    ensures Interleave(rows, first, additions + [(index, x)])
            == Place(Interleave(rows, first, additions), NonNegative(index) - first + |additions|, x)
    decreases |additions| + |rows|
  {
    hide Interleave, Place;
    if additions == [] {
      OnlyOne(rows, first, additions, index, x);
    } else if rows == [] || NonNegative(additions[0].0) <= first {
      InterleaveOneMore(rows, first, additions[1..], index, x);
      AfterAddition(rows, first, additions, (index, x), NonNegative(index) - first + |additions| - 1);
    } else {
      assert additions[0].0 <= index;
      InterleaveOneMore(rows[1..], first + 1, additions, index, x);
      AfterRow(rows, first, additions, (index, x), NonNegative(index) - first - 1 + |additions|);
    }
  }

  lemma OnlyOne<T>(rows: seq<T>, first: nat, additions: seq<(int, T)>, index: int, x: T)
    requires first <= NonNegative(index) && additions == []
    ensures Interleave(rows, first, additions + [(index, x)])
            == Place(Interleave(rows, first, additions), NonNegative(index) - first + |additions|, x)
  {
    assert additions + [(index, x)] == [(index, x)];
    PlaceOne(rows, first, index, x);
  }

  // ---------- settling an array whose rows have no key is a splice ----------

  lemma InsertInterleaves(rows: seq<Byml>, s: Settling, done: seq<(int, Byml)>, index: int, node: Byml)
    requires s.rows == Interleave(rows, 0, done) && s.offset == |done| && NotAfter(done, index)
    ensures var after := Insert(s, index, node);
            after.rows == Interleave(rows, 0, done + [(index, node)]) && after.offset == |done| + 1 && after.keyed == s.keyed
  {
    hide Interleave;
    InterleaveOneMore(rows, 0, done, index, node);
  }

  lemma {:induction false} InsertAllInterleaves(rows: seq<Byml>, s: Settling, done: seq<(int, Byml)>, index: int, nodes: seq<Byml>)
    requires s.rows == Interleave(rows, 0, done) && s.offset == |done| && NotAfter(done, index)
    ensures var after := InsertAll(s, index, nodes);
            && after.rows == Interleave(rows, 0, done + Spread(index, nodes))
            && after.offset == |done| + |nodes| && after.keyed == s.keyed
  {
    hide Interleave, Insert;
    if nodes == [] {
      assert done + Spread(index, nodes) == done;
    } else {
      var last := |nodes| - 1;
      InsertAllInterleaves(rows, s, done, index, nodes[..last]);
      var all := done + Spread(index, nodes[..last]);
      assert done + Spread(index, nodes) == all + [(index, nodes[last])];
      InsertInterleaves(rows, InsertAll(s, index, nodes[..last]), all, index, nodes[last]);
    }
  }

  /** Rows without a key field are all in one group. */
  lemma {:induction false} NoKeyOneGroup(nodes: seq<Byml>)
    requires nodes != []
    ensures GroupsBy(Keys(None, nodes)) == [(NO_KEY, nodes)]
  {
    var last := |nodes| - 1;
    assert Keys(None, nodes)[..last] == Keys(None, nodes[..last]);
    assert nodes == nodes[..last] + [nodes[last]];
    if last > 0 {
      NoKeyOneGroup(nodes[..last]);
    } else {
      assert nodes[..last] == [] && Keys(None, nodes[..last]) == [];
      assert GroupsBy(Keys(None, nodes[..last])) == [];
    }
  }

  ghost predicate Unkeyed(c: Context, name: Option<string>, depth: int) {
    name.None? || c.rules.mergerKey(name.value, c.ApplyType(), depth).None?
  }

  lemma KeylessGroup(c: Context, name: string, depth: int, bound: nat, s: Settling, index: int, nodes: seq<Byml>)
    requires nodes != []
    ensures KeyedGroups(c, depth, bound, s, index, GroupsBy(Keys(None, nodes))) == Some(InsertAll(s, index, nodes))
  {
    NoKeyOneGroup(nodes);
    var groups := [(NO_KEY, nodes)];
    assert groups[..0] == [];
    assert KeyedGroups(c, depth, bound, s, index, groups[..0]) == Some(s);
  }

  lemma {:induction false} UnkeyedGroups(c: Context, name: Option<string>, depth: int, bound: nat, rows: seq<Byml>,
                                         groups: seq<(int, seq<Byml>)>)
    requires Unkeyed(c, name, depth) && Ascending(groups) && NoEmptyGroup(groups)
    ensures SettleGroups(c, name, depth, bound, Settling(rows, 0, map[]), groups)
            == Some(Settling(Interleave(rows, 0, PairsOf(groups)), |PairsOf(groups)|, map[]))
  {
    hide InsertAll, KeyedGroups;
    if groups != [] {
      var last := |groups| - 1;
      var before, group := groups[..last], groups[last];
      UnkeyedGroups(c, name, depth, bound, rows, before);
      var s := Settling(Interleave(rows, 0, PairsOf(before)), |PairsOf(before)|, map[]);
      NotAfterLarger(before, group.0);
      InsertAllInterleaves(rows, s, PairsOf(before), group.0, group.1);
      assert groups == before + [group];
      PairsAppend(before, group);
      if name.Some? {
        KeylessGroup(c, name.value, depth, bound, s, group.0, group.1);
      }
    }
  }

  lemma NotAfterLarger(groups: seq<(int, seq<Byml>)>, index: int)
    requires forall i :: 0 <= i < |groups| ==> groups[i].0 < index
    ensures NotAfter(PairsOf(groups), index)
  {
    if groups != [] {
      NotAfterLarger(groups[1..], index);
    }
  }

  function StableSort(pairs: seq<(int, Byml)>): seq<(int, Byml)> {
    PairsOf(SortGroups(GroupsBy(pairs)))
  }

  lemma AscendingPairsSorted(groups: seq<(int, seq<Byml>)>)
    requires Ascending(groups)
    ensures Sorted(PairsOf(groups))
    ensures forall i, k :: 0 <= i < |PairsOf(groups)| && 0 <= k < |groups| && k == 0 ==> groups[k].0 <= PairsOf(groups)[i].0
  {
    if groups != [] {
      AscendingPairsSorted(groups[1..]);
      assert Ascending(groups[1..]);
    }
  }

  /** What `StableSort` does: it sorts by index and keeps the order recorded within each index. */
  lemma StableSortSorts(pairs: seq<(int, Byml)>, index: int)
    ensures Sorted(StableSort(pairs))
    ensures Select(StableSort(pairs), index) == Select(pairs, index)
  {
    GroupsByKeeps(pairs, index);
    SortGroupsKeeps(GroupsBy(pairs), index);
    AscendingPairsSorted(SortGroups(GroupsBy(pairs)));
  }

  /** Nothing else sorts that way. */
  lemma {:induction false} StableSortIsUnique(a: seq<(int, Byml)>, b: seq<(int, Byml)>)
    requires Sorted(a) && Sorted(b) && forall index :: Select(a, index) == Select(b, index)
    ensures a == b
  {
    if a == [] {
      FirstIsSelected(b);
    } else {
      assert Select(a, a[0].0) == Select(b, a[0].0);
      if b != [] {
        assert Select(a, b[0].0) == Select(b, b[0].0);
        var i := SelectedIsThere(b, a[0].0);
        var k := SelectedIsThere(a, b[0].0);
        assert b[0].0 <= b[i].0 && a[0].0 <= a[k].0;
        assert Select(a, a[0].0)[0] == a[0].1 && Select(b, b[0].0)[0] == b[0].1;
        forall index
          ensures Select(a[1..], index) == Select(b[1..], index)
        {
          assert Select(a, index) == Select(b, index);
          if index == a[0].0 {
            assert Select(a, index)[1..] == Select(a[1..], index);
            assert Select(b, index)[1..] == Select(b[1..], index);
          }
        }
        StableSortIsUnique(a[1..], b[1..]);
      }
    }
  }

  lemma FirstIsSelected<V>(pairs: seq<(int, V)>)
    ensures pairs == [] || Select(pairs, pairs[0].0) != []
  {
  }

  lemma SelectedIsThere<V>(pairs: seq<(int, V)>, index: int) returns (i: nat)
    requires Select(pairs, index) != []
    ensures i < |pairs| && pairs[i].0 == index
  {
    if pairs[0].0 == index {
      i := 0;
    } else {
      i := SelectedIsThere(pairs[1..], index);
      i := i + 1;
    }
  }

  /** Settling an array whose rows have no key: removals marked, the additions of every changelog
      sorted by index and spliced between the rows, marks dropped. */
  lemma UnkeyedSettlesToSplice(c: Context, rows: seq<Byml>, entry: ArrayEntry)
    requires Unkeyed(c, entry.name, entry.depth)
    ensures SettleArray(c, rows, entry)
            == Some(Retained(Interleave(Marked(rows, entry.removals), 0, StableSort(Flatten(entry.additions)))))
  {
    var pairs := Flatten(entry.additions);
    GroupsByKeeps(pairs, 0);
    SortGroupsKeeps(GroupsBy(pairs), 0);
    UnkeyedGroups(c, entry.name, entry.depth, EntryHeight(entry), Marked(rows, entry.removals), SortGroups(GroupsBy(pairs)));
  }

  // ---------- what a splice looks like ----------

  /** Additions past the last row are appended. */
  lemma {:induction false} InterleavePastEnd<T>(rows: seq<T>, first: nat, additions: seq<(int, T)>)
    requires forall i :: 0 <= i < |additions| ==> additions[i].0 >= first + |rows|
    ensures Interleave(rows, first, additions) == rows + seq(|additions|, i requires 0 <= i < |additions| => additions[i].1)
    decreases |additions| + |rows|
  {
    if additions != [] {
      if rows == [] {
        InterleavePastEnd(rows, first, additions[1..]);
      } else {
        InterleavePastEnd(rows[1..], first + 1, additions);
        assert rows == [rows[0]] + rows[1..];
      }
    }
  }

  /** Row `j` comes right after the additions at indices up to `j`, and before all others. */
  lemma {:induction false} InterleaveRowPosition<T>(rows: seq<T>, first: nat, additions: seq<(int, T)>, j: nat, before: nat)
    requires Sorted(additions) && j < |rows| && before <= |additions|
    requires forall i :: 0 <= i < before ==> NonNegative(additions[i].0) <= first + j
    requires forall i :: before <= i < |additions| ==> NonNegative(additions[i].0) > first + j
    ensures Interleave(rows, first, additions)[j + before] == rows[j]
    decreases |additions| + |rows|
  {
    if additions != [] {
      if NonNegative(additions[0].0) <= first {
        assert before > 0;
        InterleaveRowPosition(rows, first, additions[1..], j, before - 1);
      } else if j > 0 {
        InterleaveRowPosition(rows[1..], first + 1, additions, j - 1, before);
      } else {
        assert before == 0;
      }
    }
  }
}
