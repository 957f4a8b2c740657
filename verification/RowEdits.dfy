/** Which row of an array an edit is for, however the rows have moved since the changelog was made. */
module RowEdits {
  import opened Documents
  import opened Changelogs
  import opened Pending
  import opened RoundTrip
  import ValueArrays

  predicate HasKey(rows: seq<Byml>, name: KeyName, key: RowKey, i: int) { 0 <= i < |rows| && KeyOf(name, rows[i]) == key }

  /** The index knows the keys there are, each by its last row. */
  lemma {:induction false} IndexKnows(rows: seq<Byml>, name: KeyName, key: RowKey)
    requires !key.IsEmpty()
    ensures key in IndexOf(rows, name) <==> exists i :: HasKey(rows, name, key, i)
    ensures key in IndexOf(rows, name) ==>
              HasKey(rows, name, key, IndexOf(rows, name)[key]) && forall i :: IndexOf(rows, name)[key] < i ==> !HasKey(rows, name, key, i)
    decreases |rows|
  {
    hide KeyOf;
    if rows != [] {
      var last := |rows| - 1;
      IndexKnows(rows[..last], name, key);
      forall i
        ensures HasKey(rows, name, key, i) <==> HasKey(rows[..last], name, key, i) || (i == last && KeyOf(name, rows[last]) == key)
      {
      }
      if KeyOf(name, rows[last]) == key { assert HasKey(rows, name, key, last); }
      if key in IndexOf(rows[..last], name) { assert HasKey(rows, name, key, IndexOf(rows[..last], name)[key]); }
    } else {
      forall i ensures !HasKey(rows, name, key, i) {}
    }
  }

  /** An edit without a key, or in an array whose rows have none, is for the row at its index. */
  lemma EditByIndex(rows: seq<Byml>, index: int, key: RowKey, keyName: Option<KeyName>, cache: Option<map<RowKey, nat>>)
    requires keyName.None? || key.IsEmpty()
    ensures BestMatch(rows, index, key, keyName, cache).0 == if 0 <= index < |rows| then Some(index) else None
  {
  }

  /** An edit with a key is for a row that has it: the one at its index if that has it, else the last.  It fails exactly
      when no row has the key. */
  lemma EditByKey(rows: seq<Byml>, index: int, key: RowKey, name: KeyName)
    requires !key.IsEmpty()
    ensures var at := BestMatch(rows, index, key, Some(name), None).0;
            && (at.Some? <==> exists i :: HasKey(rows, name, key, i))
            && (at.Some? ==> HasKey(rows, name, key, at.value))
            && (HasKey(rows, name, key, index) ==> at == Some(index))
            && (at.Some? && at.value != index ==> forall i :: at.value < i ==> !HasKey(rows, name, key, i))
  {
    hide KeyOf, IndexOf;
    IndexKnows(rows, name, key);
    if 0 <= index < |rows| && KeyOf(name, rows[index]) == key { assert HasKey(rows, name, key, index); }
  }

  /** Nothing but the row found and the removals is touched by an edit. */
  lemma OneRowEdited(c: Context, depth: int, name: Option<string>, keyName: Option<KeyName>, state: ArrayState, change: ArrayChange)
    requires change.change.Edit? && state.index.None?
    ensures var at := BestMatch(StripAll(state.items), change.index, change.key, keyName, None).0;
            var after := MergeChange(c, depth, name, keyName, state, change);
            if at.None? || at.value >= |state.items| then after.None?
            else
              var row := if change.node.IsContainer() then Merge(c, depth, state.items[at.value], change.node) else Some(Fresh(change.node));
              if row.None? then after.None?
              else
                && after.Some? && |after.value.items| == |state.items| && after.value.items[at.value] == row.value
                && (forall i :: 0 <= i < |state.items| && i != at.value ==> after.value.items[i] == state.items[i])
                && after.value.list == state.list
  {
    hide BestMatch, Merge, Fresh, StripAll;
  }

  /** A row that has moved, or that later rows were put before, is still the one edited. */
  lemma MovedRowEdited(c: Context, depth: int, name: string, rows: seq<Byml>, index: int, j: nat, key: RowKey, node: Byml)
    requires c.rules.mergerKey(name, c.MergeType(), depth).Some? && !key.IsEmpty() && j < |rows|
    requires var keyName := c.rules.mergerKey(name, c.MergeType(), depth).value;
             forall i :: HasKey(rows, keyName, key, i) <==> i == j
    ensures var tree := MergeArray(c, depth, Some(name), ValueArrays.FreshAll(rows), None, [ArrayChange(index, Edit, node, key)]);
            var row := if node.IsContainer() then Merge(c, depth, Fresh(rows[j]), node) else Some(Fresh(node));
            && (tree.Some? <==> row.Some?)
            && (row.Some? && Settle(c, row.value).Some? ==> Settle(c, tree.value) == Some(Array(rows[j := Settle(c, row.value).value])))
  {
    hide BestMatch, Merge, Fresh, Settle;
    var keyName := c.rules.mergerKey(name, c.MergeType(), depth).value;
    var items := ValueArrays.FreshAll(rows);
    var change := ArrayChange(index, Edit, node, key);
    var start := ArrayState(items, None, None, None);
    EditByKey(rows, index, key, keyName);
    assert HasKey(rows, keyName, key, j);
    AllStrip(rows);
    OneRowEdited(c, depth, Some(name), Some(keyName), start, change);
    OneChangeMerged(c, depth, Some(name), Some(keyName), start, change);
    var row := if node.IsContainer() then Merge(c, depth, Fresh(rows[j]), node) else Some(Fresh(node));
    if row.Some? && Settle(c, row.value).Some? {
      var after := MergeChange(c, depth, Some(name), Some(keyName), start, change).value;
      ValueArrays.FreshAllSettle(c, rows);
      SettledNode(c, after.items, None, rows[j := Settle(c, row.value).value]);
    }
  }

  lemma AllStrip(rows: seq<Byml>)
    ensures StripAll(ValueArrays.FreshAll(rows)) == rows
  {
    hide Strip, Fresh;
    forall i | 0 <= i < |rows| ensures Strip(Fresh(rows[i])) == rows[i] { FreshStrips(rows[i]); }
  }

  lemma OneChangeMerged(c: Context, depth: int, name: Option<string>, keyName: Option<KeyName>, state: ArrayState, change: ArrayChange)
    ensures MergeChanges(c, depth, name, keyName, state, [change]) == MergeChange(c, depth, name, keyName, state, change)
  {
    hide MergeChange;
    assert [change][..0] == [];
    assert MergeChanges(c, depth, name, keyName, state, [change][..0]) == Some(state);
  }

  /** The index of keys is made once for a changelog, when an edit first needs it: rows given other keys since are still
      found by the keys they had. */
  lemma {:induction false} IndexStays(c: Context, depth: int, name: Option<string>, keyName: Option<KeyName>, state: ArrayState,
                                      changes: seq<ArrayChange>)
    requires state.index.Some? && MergeChanges(c, depth, name, keyName, state, changes).Some?
    ensures MergeChanges(c, depth, name, keyName, state, changes).value.index == state.index
    decreases |changes|
  {
    hide KeyOf, IndexOf, Merge, Fresh;
    if changes != [] {
      IndexStays(c, depth, name, keyName, state, changes[..|changes| - 1]);
    }
  }
}
