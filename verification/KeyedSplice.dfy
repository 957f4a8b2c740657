/** Rows with keys of their own are inserted as if they had none: where their index says. */
module KeyedSplice {
  import opened Documents
  import opened Changelogs
  import opened Pending
  import opened Splice
  import opened KeyedRows
  import RoundTrip

  /** Every row has a key, and no two the same. */
  ghost predicate OwnKeys(name: KeyName, rows: seq<Byml>) {
    && (forall i :: 0 <= i < |rows| ==> !KeyOf(name, rows[i]).IsEmpty())
    && (forall i, j :: 0 <= i < j < |rows| ==> KeyOf(name, rows[i]) != KeyOf(name, rows[j]))
  }

  function KeySet(name: KeyName, rows: seq<Byml>): set<RowKey> {
    set i | 0 <= i < |rows| :: KeyOf(name, rows[i])
  }

  lemma KeySetAppend(name: KeyName, a: seq<Byml>, b: seq<Byml>)
    ensures KeySet(name, a + b) == KeySet(name, a) + KeySet(name, b)
  {
    hide KeyOf;
    var all := a + b;
    forall k
      ensures k in KeySet(name, all) <==> k in KeySet(name, a) || k in KeySet(name, b)
    {
      if k in KeySet(name, a) {
        var i :| 0 <= i < |a| && KeyOf(name, a[i]) == k;
        assert all[i] == a[i];
      }
      if k in KeySet(name, b) {
        var i :| 0 <= i < |b| && KeyOf(name, b[i]) == k;
        assert all[|a| + i] == b[i];
      }
    }
  }

  lemma KeySetOne(name: KeyName, row: Byml)
    ensures KeySet(name, [row]) == {KeyOf(name, row)}
  {
    hide KeyOf;
    assert KeyOf(name, [row][0]) in KeySet(name, [row]);
  }

  function Ones(name: KeyName, rows: seq<Byml>): seq<(RowKey, seq<Byml>)> {
    seq(|rows|, i requires 0 <= i < |rows| => (KeyOf(name, rows[i]), [rows[i]]))
  }

  lemma {:induction false} AddToGroupNew<K, V>(groups: seq<(K, seq<V>)>, key: K, value: V)
    requires forall i :: 0 <= i < |groups| ==> groups[i].0 != key
    ensures AddToGroup(groups, key, value) == groups + [(key, [value])]
    decreases |groups|
  {
    if groups != [] {
      AddToGroupNew(groups[1..], key, value);
      assert groups + [(key, [value])] == [groups[0]] + (groups[1..] + [(key, [value])]);
    }
  }

  lemma {:induction false} OneGroupEach(name: KeyName, rows: seq<Byml>)
    requires OwnKeys(name, rows)
    ensures GroupsBy(Keys(Some(name), rows)) == Ones(name, rows)
    decreases |rows|
  {
    hide KeyOf;
    if rows != [] {
      var last := |rows| - 1;
      var front := rows[..last];
      OneGroupEach(name, front);
      assert Keys(Some(name), rows)[..last] == Keys(Some(name), front);
      AddToGroupNew(Ones(name, front), KeyOf(name, rows[last]), rows[last]);
      assert Ones(name, rows) == Ones(name, front) + [(KeyOf(name, rows[last]), [rows[last]])];
    }
  }

  /** Settling that has inserted the same rows in the same places. */
  ghost predicate SameRows(s: Settling, t: Settling) { s.rows == t.rows && s.offset == t.offset }

  lemma {:induction false} OnesInserted(c: Context, name: KeyName, depth: int, bound: nat, s: Settling, index: int, rows: seq<Byml>)
    requires OwnKeys(name, rows) && KeySet(name, rows) !! s.keyed.Keys
    ensures var after := KeyedGroups(c, depth, bound, s, index, Ones(name, rows));
            && after.Some? && SameRows(after.value, InsertAll(s, index, rows))
            && after.value.keyed.Keys <= s.keyed.Keys + KeySet(name, rows)
    decreases |rows|
  {
    hide KeyOf, KeySet, KeyedGroup, InsertAll;
    if rows != [] {
      var last := |rows| - 1;
      var front, row := rows[..last], rows[last];
      assert rows == front + [row];
      KeySetAppend(name, front, [row]);
      KeySetOne(name, row);
      OwnKeysPart(name, front, [row]);
      assert !KeyOf(name, [row][0]).IsEmpty();
      OnesInserted(c, name, depth, bound, s, index, front);
      assert Ones(name, rows)[..last] == Ones(name, front);
      var before := KeyedGroups(c, depth, bound, s, index, Ones(name, front)).value;
      LastInserted(c, name, depth, bound, s, before, index, front, row);
    } else {
      assert Ones(name, rows) == [];
      NoneInserted(s, index);
    }
  }

  lemma NoneInserted(s: Settling, index: int)
    ensures InsertAll(s, index, []) == s
  {
  }

  lemma LastInserted(c: Context, name: KeyName, depth: int, bound: nat, s: Settling, before: Settling, index: int, front: seq<Byml>, row: Byml)
    requires SameRows(before, InsertAll(s, index, front)) && KeyOf(name, row) !in before.keyed && !KeyOf(name, row).IsEmpty()
    ensures var after := KeyedGroup(c, depth, bound, before, index, KeyOf(name, row), [row]);
            && after.Some? && SameRows(after.value, InsertAll(s, index, front + [row]))
            && after.value.keyed.Keys <= before.keyed.Keys + {KeyOf(name, row)}
  {
    hide KeyOf, MergeRows;
    assert (front + [row])[..|front|] == front;
  }

  lemma OwnKeysPart(name: KeyName, a: seq<Byml>, b: seq<Byml>)
    requires OwnKeys(name, a + b)
    ensures OwnKeys(name, a) && OwnKeys(name, b)
    ensures KeySet(name, a) !! KeySet(name, b)
  {
    hide KeyOf;
    var all := a + b;
    assert forall i :: 0 <= i < |a| ==> all[i] == a[i];
    assert forall j :: 0 <= j < |b| ==> all[|a| + j] == b[j];
    forall i, j | 0 <= i < |a| && 0 <= j < |b|
      ensures KeyOf(name, a[i]) != KeyOf(name, b[j])
    {
      assert KeyOf(name, all[i]) != KeyOf(name, all[|a| + j]);
    }
    forall i, j | 0 <= i < j < |b|
      ensures KeyOf(name, b[i]) != KeyOf(name, b[j])
    {
      assert KeyOf(name, all[|a| + i]) != KeyOf(name, all[|a| + j]);
    }
  }

  lemma {:induction false} SameInserts(s: Settling, t: Settling, index: int, nodes: seq<Byml>)
    requires SameRows(s, t)
    ensures SameRows(InsertAll(s, index, nodes), InsertAll(t, index, nodes))
    decreases |nodes|
  {
    if nodes != [] { SameInserts(s, t, index, nodes[..|nodes| - 1]); }
  }

  lemma {:induction false} OwnGroupsSplice(c: Context, name: string, key: KeyName, depth: int, bound: nat, rows: seq<Byml>,
                                           groups: seq<(int, seq<Byml>)>)
    requires c.rules.mergerKey(name, c.ApplyType(), depth) == Some(key)
    requires Ascending(groups) && NoEmptyGroup(groups) && OwnKeys(key, ValuesOf(PairsOf(groups)))
    ensures var after := SettleGroups(c, Some(name), depth, bound, Settling(rows, 0, map[]), groups);
            && after.Some?
            && after.value.rows == Interleave(rows, 0, PairsOf(groups)) && after.value.offset == |PairsOf(groups)|
            && after.value.keyed.Keys <= KeySet(key, ValuesOf(PairsOf(groups)))
    decreases |groups|
  {
    hide InsertAll, KeyedGroups, KeyOf, OwnKeys, Interleave, KeySet;
    if groups != [] {
      var last := |groups| - 1;
      var before, group := groups[..last], groups[last];
      assert groups == before + [group];
      PairsAppend(before, group);
      ValuesAppend(PairsOf(before), Spread(group.0, group.1));
      ValuesSpread(group.0, group.1);
      OwnKeysPart(key, ValuesOf(PairsOf(before)), group.1);
      KeySetAppend(key, ValuesOf(PairsOf(before)), group.1);
      OwnGroupsSplice(c, name, key, depth, bound, rows, before);
      var s := SettleGroups(c, Some(name), depth, bound, Settling(rows, 0, map[]), before).value;
      var plain := Settling(Interleave(rows, 0, PairsOf(before)), |PairsOf(before)|, map[]);
      NotAfterLarger(before, group.0);
      InsertAllInterleaves(rows, plain, PairsOf(before), group.0, group.1);
      SameInserts(s, plain, group.0, group.1);
      OneGroupEach(key, group.1);
      OnesInserted(c, key, depth, bound, s, group.0, group.1);
    } else {
      Nothing(rows);
    }
  }

  lemma Nothing(rows: seq<Byml>)
    ensures Interleave(rows, 0, []) == rows
  {
  }

  /** So an array of such rows settles to the splice. */
  lemma OwnKeysSettleToSplice(c: Context, key: KeyName, rows: seq<Byml>, entry: ArrayEntry)
    requires Unkeyed(c, entry.name, entry.depth) || c.rules.mergerKey(entry.name.value, c.ApplyType(), entry.depth) == Some(key)
    requires OwnKeys(key, ValuesOf(Flatten(entry.additions))) && Sorted(Flatten(entry.additions))
    ensures SettleArray(c, rows, entry) == Some(Retained(Interleave(Marked(rows, entry.removals), 0, Flatten(entry.additions))))
  {
    hide Interleave, SettleGroups, OwnKeys;
    var pairs := Flatten(entry.additions);
    GroupsByKeeps(pairs, 0);
    SortGroupsKeeps(GroupsBy(pairs), 0);
    RoundTrip.SortedIsStable(pairs);
    if Unkeyed(c, entry.name, entry.depth) {
      UnkeyedSettlesToSplice(c, rows, entry);
    } else {
      OwnGroupsSplice(c, entry.name.value, key, entry.depth, EntryHeight(entry), Marked(rows, entry.removals), SortGroups(GroupsBy(pairs)));
    }
  }
}
