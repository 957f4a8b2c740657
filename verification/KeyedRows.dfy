/** Additions to arrays whose rows have keys. */
module KeyedRows {
  import opened Documents
  import opened Changelogs
  import opened Pending
  import opened Splice

  function ValuesOf<K, V>(pairs: seq<(K, V)>): seq<V> {
    seq(|pairs|, i requires 0 <= i < |pairs| => pairs[i].1)
  }

  // ---------- grouping and sorting lose and invent nothing ----------

  lemma {:induction false} AddToGroupBag<K, V>(groups: seq<(K, seq<V>)>, key: K, value: V)
    ensures multiset(PairsOf(AddToGroup(groups, key, value))) == multiset(PairsOf(groups)) + multiset{(key, value)}
  {
    var more := AddToGroup(groups, key, value);
    if groups == [] {
      assert PairsOf(more) == [(key, value)] + PairsOf(more[1..]);
      assert more[1..] == [];
    } else if groups[0].0 == key {
      assert more[1..] == groups[1..];
      assert Spread(key, groups[0].1 + [value]) == Spread(key, groups[0].1) + [(key, value)];
    } else {
      AddToGroupBag(groups[1..], key, value);
      assert more[1..] == AddToGroup(groups[1..], key, value);
    }
  }

  lemma {:induction false} GroupsByBag<K, V>(pairs: seq<(K, V)>)
    ensures multiset(PairsOf(GroupsBy(pairs))) == multiset(pairs)
  {
    if pairs != [] {
      var last := |pairs| - 1;
      GroupsByBag(pairs[..last]);
      AddToGroupBag(GroupsBy(pairs[..last]), pairs[last].0, pairs[last].1);
      assert pairs == pairs[..last] + [pairs[last]];
    }
  }

  lemma {:induction false} InsertGroupBag(groups: seq<(int, seq<Byml>)>, group: (int, seq<Byml>))
    ensures multiset(PairsOf(InsertGroup(groups, group))) == multiset(PairsOf(groups)) + multiset(Spread(group.0, group.1))
  {
    var more := InsertGroup(groups, group);
    if groups == [] || group.0 < groups[0].0 {
      assert more[1..] == groups;
    } else {
      InsertGroupBag(groups[1..], group);
      assert more[1..] == InsertGroup(groups[1..], group);
    }
  }

  lemma {:induction false} SortGroupsBag(groups: seq<(int, seq<Byml>)>)
    ensures multiset(PairsOf(SortGroups(groups))) == multiset(PairsOf(groups))
  {
    if groups != [] {
      var last := |groups| - 1;
      SortGroupsBag(groups[..last]);
      InsertGroupBag(SortGroups(groups[..last]), groups[last]);
      PairsAppend(groups[..last], groups[last]);
      assert groups == groups[..last] + [groups[last]];
    }
  }

  /** The first element of `a`, found in `b` and taken out of it. */
  lemma TakeOut<T>(a: seq<T>, b: seq<T>) returns (left: seq<T>, right: seq<T>)
    requires a != [] && multiset(a) == multiset(b)
    ensures b == left + [a[0]] + right
    ensures multiset(a[1..]) == multiset(left + right)
  {
    assert a[0] in multiset(b);
    var i :| 0 <= i < |b| && b[i] == a[0];
    left, right := b[..i], b[i + 1..];
    assert b == left + [a[0]] + right;
    assert multiset(b) == multiset(left) + multiset{a[0]} + multiset(right);
    assert a == [a[0]] + a[1..];
    assert multiset(a) == multiset{a[0]} + multiset(a[1..]);
    assert multiset(a[1..]) == multiset(a) - multiset{a[0]};
  }

  lemma {:induction false} ValuesBag<K, V>(a: seq<(K, V)>, b: seq<(K, V)>)
    requires multiset(a) == multiset(b)
    ensures multiset(ValuesOf(a)) == multiset(ValuesOf(b))
  {
    if a == [] {
      assert |b| == |multiset(b)| == 0;
    } else {
      var left, right := TakeOut(a, b);
      ValuesBag(a[1..], left + right);
      assert ValuesOf(a) == [a[0].1] + ValuesOf(a[1..]);
      assert ValuesOf(b) == ValuesOf(left) + [a[0].1] + ValuesOf(right);
      assert ValuesOf(left + right) == ValuesOf(left) + ValuesOf(right);
    }
  }

  /** Sorting additions by index changes only their order. */
  lemma StableSortBag(pairs: seq<(int, Byml)>)
    ensures multiset(StableSort(pairs)) == multiset(pairs)
    ensures multiset(ValuesOf(StableSort(pairs))) == multiset(ValuesOf(pairs))
  {
    GroupsByBag(pairs);
    SortGroupsBag(GroupsBy(pairs));
    ValuesBag(StableSort(pairs), pairs);
  }

  // ---------- rows with the same key ----------

  /** The nodes with a given key. */
  function WithKey(name: Option<KeyName>, nodes: seq<Byml>, key: RowKey): seq<Byml> {
    Select(Keys(name, nodes), key)
  }

  lemma KeysAppend(name: Option<KeyName>, a: seq<Byml>, b: seq<Byml>, key: RowKey)
    ensures Keys(name, a + b) == Keys(name, a) + Keys(name, b)
    ensures WithKey(name, a + b, key) == WithKey(name, a, key) + WithKey(name, b, key)
  {
    assert Keys(name, a + b) == Keys(name, a) + Keys(name, b);
    SelectAppend(Keys(name, a), Keys(name, b), key);
  }

  lemma OneWithKey(name: Option<KeyName>, row: Byml, key: RowKey)
    ensures WithKey(name, [row], key) == if Keys(name, [row])[0].0 == key then [row] else []
  {
    var none: seq<Byml> := [];
    var pairs := Keys(name, [row]);
    assert |pairs| == 1 && pairs[1..] == [];
    assert Select(pairs[1..], key) == none;
    assert [row] + none == [row];
  }

  lemma {:induction false} WithKeyBag(name: Option<KeyName>, a: seq<Byml>, b: seq<Byml>, key: RowKey)
    requires multiset(a) == multiset(b)
    ensures |WithKey(name, a, key)| == |WithKey(name, b, key)|
  {
    if a == [] {
      assert |b| == |multiset(b)| == 0;
    } else {
      var left, right := TakeOut(a, b);
      WithKeyBag(name, a[1..], left + right, key);
      assert a == [a[0]] + a[1..];
      KeysAppend(name, [a[0]], a[1..], key);
      KeysAppend(name, left + [a[0]], right, key);
      KeysAppend(name, left, [a[0]], key);
      KeysAppend(name, left, right, key);
    }
  }

  /** No key that is not empty is on two nodes. */
  ghost predicate UniqueKeys(name: Option<KeyName>, nodes: seq<Byml>) {
    forall key: RowKey {:trigger WithKey(name, nodes, key)} :: !key.IsEmpty() ==> |WithKey(name, nodes, key)| <= 1
  }

  // ---------- additions with distinct keys are all inserted ----------

  lemma InsertAddsOne(s: Settling, index: int, node: Byml)
    ensures multiset(Insert(s, index, node).rows) == multiset(s.rows) + multiset{node}
  {
    var at := InsertAt(s, index);
    assert s.rows == s.rows[..at] + s.rows[at..];
  }

  lemma {:induction false} InsertAllAdds(s: Settling, index: int, nodes: seq<Byml>)
    ensures multiset(InsertAll(s, index, nodes).rows) == multiset(s.rows) + multiset(nodes)
    ensures InsertAll(s, index, nodes).keyed == s.keyed
  {
    if nodes != [] {
      var last := |nodes| - 1;
      InsertAllAdds(s, index, nodes[..last]);
      hide Insert;
      var before := InsertAll(s, index, nodes[..last]);
      InsertAddsOne(before, index, nodes[last]);
      InsertKeeps(before, index, nodes[last]);
      LastInBag(nodes);
      Regroup(multiset(s.rows), multiset(nodes[..last]), multiset{nodes[last]});
    }
  }

  lemma InsertKeeps(s: Settling, index: int, node: Byml)
    ensures Insert(s, index, node).keyed == s.keyed
  {
  }

  lemma LastInBag<T>(items: seq<T>)
    requires items != []
    ensures multiset(items) == multiset(items[..|items| - 1]) + multiset{items[|items| - 1]}
  {
    assert items == items[..|items| - 1] + [items[|items| - 1]];
  }

  lemma Regroup<T>(a: multiset<T>, b: multiset<T>, c: multiset<T>)
    ensures a + b + c == a + (b + c)
  {
  }

  /** Inserted so far: the rows of `done`, under keys that are among theirs. */
  ghost predicate AllIn(name: Option<KeyName>, rows: seq<Byml>, done: seq<Byml>, s: Settling) {
    && multiset(s.rows) == multiset(rows) + multiset(done)
    && forall key {:trigger key in s.keyed} :: key in s.keyed ==> !key.IsEmpty() && WithKey(name, done, key) != []
  }

  lemma StillAmong(name: Option<KeyName>, done: seq<Byml>, nodes: seq<Byml>, s: Settling)
    requires forall key {:trigger key in s.keyed} :: key in s.keyed ==> !key.IsEmpty() && WithKey(name, done, key) != []
    ensures forall key {:trigger key in s.keyed} :: key in s.keyed ==> !key.IsEmpty() && WithKey(name, done + nodes, key) != []
  {
    forall key | key in s.keyed
      ensures WithKey(name, done + nodes, key) != []
    {
      KeysAppend(name, done, nodes, key);
    }
  }

  lemma KeyedGroupAdds(c: Context, name: Option<KeyName>, depth: int, bound: nat, rows: seq<Byml>, done: seq<Byml>,
                       s: Settling, index: int, key: RowKey, nodes: seq<Byml>)
    requires AllIn(name, rows, done, s) && UniqueKeys(name, done + nodes) && nodes != []
    requires WithKey(name, nodes, key) == nodes
    ensures var after := KeyedGroup(c, depth, bound, s, index, key, nodes);
            after.Some? && AllIn(name, rows, done + nodes, after.value)
  {
    hide WithKey, UniqueKeys, InsertAll, Insert, InsertAt, MergeRows, AllIn;
    if key.IsEmpty() {
      InsertAllAdds(s, index, nodes);
      BagAdded(name, rows, done, nodes, s, InsertAll(s, index, nodes));
    } else {
      OnlyOneOfKey(name, rows, done, s, key, nodes);
      InsertAddsOne(s, index, nodes[0]);
      InsertKeeps(s, index, nodes[0]);
      KeyedAdded(name, rows, done, s, Insert(s, index, nodes[0]), key, nodes, InsertAt(s, index));
    }
  }

  lemma OnlyOneOfKey(name: Option<KeyName>, rows: seq<Byml>, done: seq<Byml>, s: Settling, key: RowKey, nodes: seq<Byml>)
    requires AllIn(name, rows, done, s) && UniqueKeys(name, done + nodes) && nodes != [] && !key.IsEmpty()
    requires WithKey(name, nodes, key) == nodes
    ensures key !in s.keyed && nodes == [nodes[0]]
  {
    hide WithKey;
    KeysAppend(name, done, nodes, key);
    assert |WithKey(name, done + nodes, key)| <= 1;
  }

  lemma BagAdded(name: Option<KeyName>, rows: seq<Byml>, done: seq<Byml>, nodes: seq<Byml>, s: Settling, after: Settling)
    requires AllIn(name, rows, done, s) && multiset(after.rows) == multiset(s.rows) + multiset(nodes) && after.keyed == s.keyed
    ensures AllIn(name, rows, done + nodes, after)
  {
    hide WithKey;
    StillAmong(name, done, nodes, s);
    Regroup(multiset(rows), multiset(done), multiset(nodes));
  }

  lemma KeyedAdded(name: Option<KeyName>, rows: seq<Byml>, done: seq<Byml>, s: Settling, inserted: Settling, key: RowKey, nodes: seq<Byml>, at: nat)
    requires AllIn(name, rows, done, s) && multiset(inserted.rows) == multiset(s.rows) + multiset(nodes) && inserted.keyed == s.keyed
    requires !key.IsEmpty() && nodes != [] && WithKey(name, nodes, key) == nodes
    ensures AllIn(name, rows, done + nodes, inserted.(keyed := s.keyed[key := at]))
  {
    hide WithKey;
    BagAdded(name, rows, done, nodes, s, inserted);
    KeysAppend(name, done, nodes, key);
  }

  lemma UniquePart(name: Option<KeyName>, a: seq<Byml>, b: seq<Byml>)
    requires UniqueKeys(name, a + b)
    ensures UniqueKeys(name, a) && UniqueKeys(name, b)
  {
    forall key: RowKey | !key.IsEmpty()
      ensures |WithKey(name, a, key)| <= 1 && |WithKey(name, b, key)| <= 1
    {
      KeysAppend(name, a, b, key);
      assert |WithKey(name, a + b, key)| <= 1;
    }
  }

  /** Every group holds just the nodes with its key. */
  ghost predicate GroupedByKey(name: Option<KeyName>, groups: seq<(RowKey, seq<Byml>)>) {
    forall i :: 0 <= i < |groups| ==> groups[i].1 != [] && WithKey(name, groups[i].1, groups[i].0) == groups[i].1
  }

  lemma {:induction false} SelectedAtMost<K, V>(pairs: seq<(K, V)>, key: K)
    ensures |Select(pairs, key)| <= |pairs|
  {
    if pairs != [] {
      SelectedAtMost(pairs[1..], key);
    }
  }

  lemma FirstHasKey(name: Option<KeyName>, nodes: seq<Byml>, key: RowKey)
    requires nodes != [] && WithKey(name, nodes, key) == nodes
    ensures key == if name.Some? then KeyOf(name.value, nodes[0]) else NO_KEY
  {
    SelectedAtMost(Keys(name, nodes)[1..], key);
  }

  lemma {:induction false} AllHaveKey(name: Option<KeyName>, nodes: seq<Byml>, key: RowKey)
    requires WithKey(name, nodes, key) == nodes
    ensures forall i :: 0 <= i < |nodes| ==> key == if name.Some? then KeyOf(name.value, nodes[i]) else NO_KEY
  {
    if nodes != [] {
      FirstHasKey(name, nodes, key);
      assert Keys(name, nodes)[1..] == Keys(name, nodes[1..]);
      assert WithKey(name, nodes[1..], key) == nodes[1..];
      AllHaveKey(name, nodes[1..], key);
      forall i | 0 < i < |nodes|
        ensures key == if name.Some? then KeyOf(name.value, nodes[i]) else NO_KEY
      {
        assert nodes[i] == nodes[1..][i - 1];
      }
    }
  }

  lemma {:induction false} AllWithKey(name: Option<KeyName>, nodes: seq<Byml>, key: RowKey)
    requires forall i :: 0 <= i < |nodes| ==> Keys(name, nodes)[i].0 == key
    ensures WithKey(name, nodes, key) == nodes
  {
    if nodes != [] {
      assert Keys(name, nodes)[1..] == Keys(name, nodes[1..]);
      assert forall i :: 0 <= i < |nodes[1..]| ==> Keys(name, nodes[1..])[i] == Keys(name, nodes)[i + 1];
      AllWithKey(name, nodes[1..], key);
    }
  }

  lemma PairInGroup<K, V>(groups: seq<(K, seq<V>)>, g: nat, i: nat)
    requires g < |groups| && i < |groups[g].1|
    ensures (groups[g].0, groups[g].1[i]) in PairsOf(groups)
  {
    if g == 0 {
      assert Spread(groups[0].0, groups[0].1)[i] == (groups[0].0, groups[0].1[i]);
    } else {
      PairInGroup(groups[1..], g - 1, i);
    }
  }

  lemma GroupsAreByKey(name: Option<KeyName>, nodes: seq<Byml>)
    ensures GroupedByKey(name, GroupsBy(Keys(name, nodes)))
    ensures multiset(ValuesOf(PairsOf(GroupsBy(Keys(name, nodes))))) == multiset(nodes)
  {
    var pairs := Keys(name, nodes);
    var groups := GroupsBy(pairs);
    GroupsByBag(pairs);
    ValuesBag(PairsOf(groups), pairs);
    assert ValuesOf(pairs) == nodes;
    GroupsByKeeps(pairs, NO_KEY);
    forall g | 0 <= g < |groups|
      ensures WithKey(name, groups[g].1, groups[g].0) == groups[g].1
    {
      forall i | 0 <= i < |groups[g].1|
        ensures Keys(name, groups[g].1)[i].0 == groups[g].0
      {
        PairInGroup(groups, g, i);
        assert (groups[g].0, groups[g].1[i]) in multiset(PairsOf(groups));
        assert (groups[g].0, groups[g].1[i]) in pairs;
      }
      AllWithKey(name, groups[g].1, groups[g].0);
    }
  }

  lemma ValuesAppend<K, V>(a: seq<(K, V)>, b: seq<(K, V)>)
    ensures ValuesOf(a + b) == ValuesOf(a) + ValuesOf(b)
  {
  }

  lemma ValuesSpread<K, V>(key: K, values: seq<V>)
    ensures ValuesOf(Spread(key, values)) == values
  {
  }

  lemma {:induction false} KeyedGroupsAdd(c: Context, name: Option<KeyName>, depth: int, bound: nat, rows: seq<Byml>, done: seq<Byml>,
                                          s: Settling, index: int, groups: seq<(RowKey, seq<Byml>)>)
    requires AllIn(name, rows, done, s) && GroupedByKey(name, groups)
    requires UniqueKeys(name, done + ValuesOf(PairsOf(groups)))
    ensures var after := KeyedGroups(c, depth, bound, s, index, groups);
            after.Some? && AllIn(name, rows, done + ValuesOf(PairsOf(groups)), after.value)
  {
    hide AllIn, WithKey, UniqueKeys, KeyedGroup;
    if groups == [] {
      assert done + ValuesOf(PairsOf(groups)) == done;
    } else {
      var last := |groups| - 1;
      var before, group := groups[..last], groups[last];
      assert groups == before + [group];
      PairsAppend(before, group);
      ValuesAppend(PairsOf(before), Spread(group.0, group.1));
      ValuesSpread(group.0, group.1);
      var already := done + ValuesOf(PairsOf(before));
      assert done + ValuesOf(PairsOf(groups)) == already + group.1;
      UniquePart(name, already, group.1);
      KeyedGroupsAdd(c, name, depth, bound, rows, done, s, index, before);
      KeyedGroupAdds(c, name, depth, bound, rows, already, KeyedGroups(c, depth, bound, s, index, before).value, index, group.0, group.1);
    }
  }

  lemma AllInSameBag(name: Option<KeyName>, rows: seq<Byml>, a: seq<Byml>, b: seq<Byml>, s: Settling)
    requires AllIn(name, rows, a, s) && multiset(a) == multiset(b)
    ensures AllIn(name, rows, b, s)
  {
    forall key | key in s.keyed
      ensures WithKey(name, b, key) != []
    {
      WithKeyBag(name, a, b, key);
    }
  }

  lemma UniqueSameBag(name: Option<KeyName>, a: seq<Byml>, b: seq<Byml>)
    requires UniqueKeys(name, a) && multiset(a) == multiset(b)
    ensures UniqueKeys(name, b)
  {
    forall key: RowKey | !key.IsEmpty()
      ensures |WithKey(name, b, key)| <= 1
    {
      WithKeyBag(name, a, b, key);
      assert |WithKey(name, a, key)| <= 1;
    }
  }

  /** Additions none of which share a key are all inserted as they are. */
  lemma {:induction false} UniqueAdditionsAllInserted(c: Context, name: string, depth: int, bound: nat, rows: seq<Byml>,
                                                      groups: seq<(int, seq<Byml>)>)
    requires UniqueKeys(c.rules.mergerKey(name, c.ApplyType(), depth), ValuesOf(PairsOf(groups)))
    ensures var after := SettleGroups(c, Some(name), depth, bound, Settling(rows, 0, map[]), groups);
            && after.Some?
            && AllIn(c.rules.mergerKey(name, c.ApplyType(), depth), rows, ValuesOf(PairsOf(groups)), after.value)
  {
    var keyName := c.rules.mergerKey(name, c.ApplyType(), depth);
    if groups != [] {
      var last := |groups| - 1;
      var before, group := groups[..last], groups[last];
      assert groups == before + [group];
      PairsAppend(before, group);
      ValuesAppend(PairsOf(before), Spread(group.0, group.1));
      ValuesSpread(group.0, group.1);
      var done := ValuesOf(PairsOf(before));
      UniquePart(keyName, done, group.1);
      UniqueAdditionsAllInserted(c, name, depth, bound, rows, before);
      var s := SettleGroups(c, Some(name), depth, bound, Settling(rows, 0, map[]), before).value;
      GroupsAreByKey(keyName, group.1);
      var byKey := GroupsBy(Keys(keyName, group.1));
      UniqueSameBag(keyName, done + group.1, done + ValuesOf(PairsOf(byKey)));
      KeyedGroupsAdd(c, keyName, depth, bound, rows, done, s, group.0, byKey);
      AllInSameBag(keyName, rows, done + ValuesOf(PairsOf(byKey)), done + group.1,
                   KeyedGroups(c, depth, bound, s, group.0, byKey).value);
    }
  }
}
