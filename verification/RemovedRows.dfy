/** Which rows of an array are left once several changelogs were merged: removals and edits that undo them. */
module RemovedRows {
  import opened Documents
  import opened Changelogs
  import opened Pending
  import opened Splice
  import opened KeyedInserts
  import opened KeyedOutcome
  import KeyedRows
  import RoundTrip

  /** The last thing said about the row at an index, additions aside, which say nothing about rows that are there. */
  function LastAt(changes: seq<ArrayChange>, index: int): Option<ChangeType> {
    if changes == [] then None
    else
      var last := changes[|changes| - 1];
      if last.index == index && !last.change.Add? then Some(last.change) else LastAt(changes[..|changes| - 1], index)
  }

  /** The rows whose last mention is no removal, in their order. */
  function Survivors(rows: seq<Byml>, changes: seq<ArrayChange>): seq<Byml> {
    if rows == [] then []
    else
      var last := |rows| - 1;
      Survivors(rows[..last], changes) + if LastAt(changes, last) == Some(Remove) then [] else [rows[last]]
  }

  /** An index is among the removals exactly when it was last removed. */
  ghost predicate RemovedLast(entry: Option<ArrayEntry>, changes: seq<ArrayChange>) {
    forall i :: LastAt(changes, i) == Some(Remove) <==> entry.Some? && i in entry.value.removals
  }

  lemma OneMention(changes: seq<ArrayChange>, change: ArrayChange, index: int)
    ensures LastAt(changes + [change], index)
            == if change.index == index && !change.change.Add? then Some(change.change) else LastAt(changes, index)
  {
    assert (changes + [change])[..|changes|] == changes;
  }

  lemma MentionRecorded(c: Context, depth: int, name: Option<string>, keyName: Option<KeyName>, state: ArrayState, change: ArrayChange,
                        changes: seq<ArrayChange>)
    requires RemovedLast(state.entry, changes) && MergeChange(c, depth, name, keyName, state, change).Some?
    ensures RemovedLast(MergeChange(c, depth, name, keyName, state, change).value.entry, changes + [change])
  {
    hide LastAt, BestMatch, Merge;
    var after := MergeChange(c, depth, name, keyName, state, change).value;
    forall i
      ensures LastAt(changes + [change], i) == Some(Remove) <==> after.entry.Some? && i in after.entry.value.removals
    {
      OneMention(changes, change, i);
      assert LastAt(changes, i) == Some(Remove) <==> state.entry.Some? && i in state.entry.value.removals;
    }
  }

  lemma {:induction false} MentionsRecorded(c: Context, depth: int, name: Option<string>, keyName: Option<KeyName>, state: ArrayState,
                                            before: seq<ArrayChange>, changes: seq<ArrayChange>)
    requires RemovedLast(state.entry, before) && MergeChanges(c, depth, name, keyName, state, changes).Some?
    ensures RemovedLast(MergeChanges(c, depth, name, keyName, state, changes).value.entry, before + changes)
    decreases |changes|
  {
    hide RemovedLast, MergeChange;
    if changes == [] {
      assert before + changes == before;
    } else {
      var last := |changes| - 1;
      MentionsRecorded(c, depth, name, keyName, state, before, changes[..last]);
      var now := MergeChanges(c, depth, name, keyName, state, changes[..last]).value;
      MentionRecorded(c, depth, name, keyName, now, changes[last], before + changes[..last]);
      assert before + changes[..last] + [changes[last]] == before + changes;
    }
  }

  /** After any changelogs of an array an index is among the removals exactly when the last change there that is no addition is
      a removal. */
  lemma {:induction false} RemovalsRecorded(c: Context, depth: int, name: string, items: seq<Tree>, logs: seq<seq<ArrayChange>>)
    requires MergeLogs(c, depth, name, PArray(items, None), logs).Some?
    ensures var tree := MergeLogs(c, depth, name, PArray(items, None), logs).value;
            tree.PArray? && RemovedLast(tree.entry, Flatten(logs))
    decreases |logs|
  {
    hide MergeChanges;
    if logs != [] {
      var last := |logs| - 1;
      RemovalsRecorded(c, depth, name, items, logs[..last]);
      var before := MergeLogs(c, depth, name, PArray(items, None), logs[..last]).value;
      MentionsRecorded(c, depth, Some(name), c.rules.mergerKey(name, c.MergeType(), depth),
                       ArrayState(before.items, before.entry, None, None), Flatten(logs[..last]), logs[last]);
    }
  }

  // ---------- the rows of the document ----------

  lemma {:induction false} KeptAre(rows: seq<Byml>, entry: Option<ArrayEntry>, changes: seq<ArrayChange>)
    requires RemovedLast(entry, changes) && forall i :: 0 <= i < |rows| ==> !rows[i].IsRemove()
    ensures KeptRows(rows, entry) == Survivors(rows, changes)
  {
    hide LastAt;
    if rows != [] {
      var last := |rows| - 1;
      KeptAre(rows[..last], entry, changes);
      if entry.Some? {
        var marked := Marked(rows, entry.value.removals);
        assert marked[..last] == Marked(rows[..last], entry.value.removals);
      }
      assert rows == rows[..last] + [rows[last]];
      assert LastAt(changes, last) == Some(Remove) <==> entry.Some? && last in entry.value.removals;
    }
  }

  /** The rows that stay, each with where it comes from. */
  function Remaining(tagged: seq<(Origin, Byml)>): seq<(Origin, Byml)> {
    if tagged == [] then []
    else if tagged[0].1.IsRemove() then Remaining(tagged[1..])
    else [tagged[0]] + Remaining(tagged[1..])
  }

  lemma RetainedCons(row: Byml, rows: seq<Byml>)
    ensures Retained([row] + rows) == (if row.IsRemove() then [] else [row]) + Retained(rows)
    decreases |rows|
  {
    if rows != [] {
      var last := |rows| - 1;
      assert ([row] + rows)[..|rows|] == [row] + rows[..last];
      RetainedCons(row, rows[..last]);
    } else {
      assert [row] + rows == [row] && [row][..0] == rows;
    }
  }

  lemma {:induction false} RemainingRows(rows: seq<Byml>, tagged: seq<(Origin, Byml)>)
    requires TagsMatch(rows, tagged)
    ensures KeyedRows.ValuesOf(Remaining(tagged)) == Retained(rows)
    decreases |rows|
  {
    if rows != [] {
      hide Retained;
      RemainingRows(rows[1..], tagged[1..]);
      RetainedCons(rows[0], rows[1..]);
      assert rows == [rows[0]] + rows[1..];
      if !rows[0].IsRemove() {
        var rest := Remaining(tagged[1..]);
        assert KeyedRows.ValuesOf([tagged[0]] + rest) == [rows[0]] + KeyedRows.ValuesOf(rest);
      }
    }
  }

  lemma {:induction false} RemainingBase(tagged: seq<(Origin, Byml)>)
    ensures BaseRows(Remaining(tagged)) == Retained(BaseRows(tagged))
    decreases |tagged|
  {
    if tagged != [] {
      hide Retained;
      var rest := Remaining(tagged[1..]);
      RemainingBase(tagged[1..]);
      RetainedCons(tagged[0].1, BaseRows(tagged[1..]));
      assert ([tagged[0]] + rest)[1..] == rest;
    }
  }

  /** Every row of the array and every row added, marks included, with where it comes from. */
  lemma TagRows(c: Context, rows: seq<Byml>, entry: ArrayEntry) returns (tagged: seq<(Origin, Byml)>)
    requires SettleArray(c, rows, entry).Some?
    ensures BaseRows(tagged) == Marked(rows, entry.removals)
    ensures KeyedRows.ValuesOf(Remaining(tagged)) == SettleArray(c, rows, entry).value
  {
    hide Placed, KeysAre, SettleGroups;
    var all := Flatten(entry.additions);
    var groups, marked := SortGroups(GroupsBy(all)), Marked(rows, entry.removals);
    GroupsByKeeps(all, 0);
    SortGroupsKeeps(GroupsBy(all), 0);
    var s := SettleGroups(c, entry.name, entry.depth, EntryHeight(entry), Settling(marked, 0, map[]), groups).value;
    if entry.name.Some? {
      tagged := SettleGroupsPlaced(c, entry.name.value, entry.depth, EntryHeight(entry), marked, groups);
      PlacedMatches(c.rules.mergerKey(entry.name.value, c.ApplyType(), entry.depth), s, tagged, marked,
                    if groups == [] then 0 else groups[|groups| - 1].0);
    } else {
      tagged := UnnamedPlaced(c, entry.depth, EntryHeight(entry), marked, groups);
    }
    RemainingRows(s.rows, tagged);
  }

  lemma PlacedMatches(name: Option<KeyName>, s: Settling, tagged: seq<(Origin, Byml)>, base: seq<Byml>, index: int)
    requires Placed(name, s, tagged, base, index)
    ensures TagsMatch(s.rows, tagged) && BaseRows(tagged) == base
  {
  }

  lemma {:induction false} UnnamedPlaced(c: Context, depth: int, bound: nat, rows: seq<Byml>, groups: seq<(int, seq<Byml>)>)
    returns (tagged: seq<(Origin, Byml)>)
    requires SettleGroups(c, None, depth, bound, Settling(rows, 0, map[]), groups).Some?
    ensures TagsMatch(SettleGroups(c, None, depth, bound, Settling(rows, 0, map[]), groups).value.rows, tagged) && BaseRows(tagged) == rows
    decreases |groups|
  {
    if groups == [] {
      tagged := StartPlaced(None, rows, 0);
      return;
    }
    hide BaseRows, InsertAll;
    var last := |groups| - 1;
    var before := SettleGroups(c, None, depth, bound, Settling(rows, 0, map[]), groups[..last]).value;
    tagged := UnnamedPlaced(c, depth, bound, rows, groups[..last]);
    tagged := AllTagged(before, tagged, groups[last].0, groups[last].1);
  }

  lemma {:induction false} AllTagged(s: Settling, tagged: seq<(Origin, Byml)>, index: int, nodes: seq<Byml>) returns (tags: seq<(Origin, Byml)>)
    requires TagsMatch(s.rows, tagged)
    ensures TagsMatch(InsertAll(s, index, nodes).rows, tags) && BaseRows(tags) == BaseRows(tagged)
    decreases |nodes|
  {
    if nodes == [] {
      return tagged;
    }
    hide BaseRows;
    var last := |nodes| - 1;
    tags := AllTagged(s, tagged, index, nodes[..last]);
    var before := InsertAll(s, index, nodes[..last]);
    var at := InsertAt(before, index);
    InsertKeepsBase(tags, at, nodes[last], NO_KEY);
    InsertMatches(before.rows, tags, at, nodes[last], Inserted(NO_KEY));
    tags := TagInsert(tags, at, nodes[last], Inserted(NO_KEY));
  }

  /** Of the rows that were there the document keeps, in order and among the rows added, exactly those whose last mention in any
      of the changelogs is no removal. */
  lemma RowsLeft(c: Context, depth: int, name: string, items: seq<Tree>, logs: seq<seq<ArrayChange>>, tree: Tree,
                 rows: seq<Byml>, result: seq<Byml>)
    returns (tagged: seq<(Origin, Byml)>)
    requires MergeLogs(c, depth, name, PArray(items, None), logs) == Some(tree) && Settle(c, tree) == Some(Array(result))
    requires tree.PArray? && |rows| == |tree.items| && forall i :: 0 <= i < |rows| ==> Settle(c, tree.items[i]) == Some(rows[i])
    requires forall i :: 0 <= i < |rows| ==> !rows[i].IsRemove()
    ensures KeyedRows.ValuesOf(tagged) == result && BaseRows(tagged) == Survivors(rows, Flatten(logs))
    ensures |result| <= |Survivors(rows, Flatten(logs))| + |Additions(Flatten(logs))|
  {
    hide MergeLogs, Settle, SettleArray, Recorded, RemovedLast, Survivors, Additions, LastAt, AddedKeys, Keyless, KeyedRows.UniqueKeys;
    var changes := Flatten(logs);
    LogsRecorded(c, depth, name, items, logs);
    RemovalsRecorded(c, depth, name, items, logs);
    RoundTrip.SettledNode(c, tree.items, tree.entry, rows);
    KeptAre(rows, tree.entry, changes);
    if tree.entry.None? {
      tagged := StartPlaced(None, rows, 0);
      PlacedMatches(None, Settling(rows, 0, map[]), tagged, rows, 0);
      assert KeyedRows.ValuesOf(tagged) == rows;
    } else {
      var all := TagRows(c, rows, tree.entry.value);
      tagged := Remaining(all);
      RemainingBase(all);
    }
    LengthOf(c, depth, name, tree, rows, result, changes);
  }

  lemma LengthOf(c: Context, depth: int, name: string, tree: Tree, rows: seq<Byml>, result: seq<Byml>, changes: seq<ArrayChange>)
    requires tree.PArray? && Recorded(tree.entry, Some(name), depth, changes)
    requires if tree.entry.None? then result == rows else SettleArray(c, rows, tree.entry.value) == Some(result)
    ensures |result| <= |KeptRows(rows, tree.entry)| + |Additions(changes)|
  {
    hide SettleArray, AddedKeys, Keyless, KeyedRows.UniqueKeys, Additions, FirstRecorded;
    if tree.entry.Some? {
      var entry := tree.entry.value;
      var added := KeyedRows.ValuesOf(Additions(changes));
      LiveAtMost(added);
      if entry.name.Some? {
        SettledByKey(c, rows, entry);
        CountAdded(c.rules.mergerKey(entry.name.value, c.ApplyType(), entry.depth), added);
      } else {
        UnkeyedLength(c, rows, entry);
      }
    }
  }

  lemma {:induction false} LiveAtMost(rows: seq<Byml>)
    ensures Live(rows) <= |rows|
  {
    if rows != [] { LiveAtMost(rows[..|rows| - 1]); }
  }

  lemma UnkeyedLength(c: Context, rows: seq<Byml>, entry: ArrayEntry)
    requires entry.name == None && SettleArray(c, rows, entry).Some?
    ensures |SettleArray(c, rows, entry).value| == |Retained(Marked(rows, entry.removals))| + Live(KeyedRows.ValuesOf(Flatten(entry.additions)))
  {
    hide SettleArray, Interleave;
    var pairs, marked := Flatten(entry.additions), Marked(rows, entry.removals);
    UnkeyedSettlesToSplice(c, rows, entry);
    KeyedRows.StableSortBag(pairs);
    RoundTrip.InterleaveBag(marked, 0, StableSort(pairs));
    LiveMix(Interleave(marked, 0, StableSort(pairs)), marked, KeyedRows.ValuesOf(pairs));
  }

  lemma {:induction false} AllSelected(tagged: seq<(Origin, Byml)>)
    ensures |BaseRows(tagged)| <= |tagged|
    ensures |BaseRows(tagged)| == |tagged| ==> BaseRows(tagged) == KeyedRows.ValuesOf(tagged)
    decreases |tagged|
  {
    if tagged != [] {
      AllSelected(tagged[1..]);
      assert KeyedRows.ValuesOf(tagged) == [tagged[0].1] + KeyedRows.ValuesOf(tagged[1..]);
    }
  }

  /** Changelogs that add nothing leave exactly the rows last mentioned by no removal. */
  lemma NothingAddedLeft(c: Context, depth: int, name: string, items: seq<Tree>, logs: seq<seq<ArrayChange>>, tree: Tree,
                         rows: seq<Byml>, result: seq<Byml>)
    requires MergeLogs(c, depth, name, PArray(items, None), logs) == Some(tree) && Settle(c, tree) == Some(Array(result))
    requires tree.PArray? && |rows| == |tree.items| && forall i :: 0 <= i < |rows| ==> Settle(c, tree.items[i]) == Some(rows[i])
    requires (forall i :: 0 <= i < |rows| ==> !rows[i].IsRemove()) && Additions(Flatten(logs)) == []
    ensures result == Survivors(rows, Flatten(logs))
  {
    hide MergeLogs, Settle, Survivors, BaseRows;
    var tagged := RowsLeft(c, depth, name, items, logs, tree, rows, result);
    AllSelected(tagged);
  }
}
