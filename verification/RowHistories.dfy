/** What a row of the save data holds in the end, told from what the changelogs say of it. */
module RowHistories {
  import opened Documents
  import opened Changelogs
  import opened Pending
  import opened GameData
  import opened GameDataMerge
  import opened GameDataResult
  import RoundTrip

  /** What is said of a row, removals aside. */
  function Said(history: seq<Option<Byml>>): seq<Byml> {
    if history == [] then []
    else
      var before := Said(history[..|history| - 1]);
      match history[|history| - 1]
      case None => before
      case Some(change) => if change.IsRemove() then before else before + [change]
  }

  /** Everything said of vanilla's row is merged into it in order, what came before a removal too. */
  lemma {:induction false} VanillaRun(c: Context, tree: Tree, dropped: bool, history: seq<Option<Byml>>)
    ensures Run(c, Vanilla(tree, dropped), history)
            == match MergeAll(c, 0, tree, Said(history))
               case None => None
               case Some(merged) => Some(Vanilla(merged, !LastSays(!dropped, history)))
    decreases |history|
  {
    hide Merge;
    if history != [] {
      var last := |history| - 1;
      VanillaRun(c, tree, dropped, history[..last]);
      if history[last].Some? && !history[last].value.IsRemove() {
        assert Said(history)[..|Said(history)| - 1] == Said(history[..last]);
      }
    }
  }

  /** The first thing said of a row vanilla does not have is the row, the rest are later versions of it. */
  lemma {:induction false} AddedRun(c: Context, history: seq<Option<Byml>>)
    ensures Run(c, Absent, history)
            == Some(if Said(history) == [] then Absent else Added(Said(history)[0], Said(history)[1..], !LastSays(false, history)))
    decreases |history|
  {
    if history != [] {
      var last := |history| - 1;
      AddedRun(c, history[..last]);
      if history[last].Some? && !history[last].value.IsRemove() && Said(history[..last]) != [] {
        var before, change := Said(history[..last]), history[last].value;
        assert Said(history)[0] == before[0] && Said(history)[1..] == before[1..] + [change];
      }
    }
  }

  /** A row of the merged table: there exactly when the last mention leaves it, vanilla's with everything said of it merged in
      and applied, another's as the first that adds it has it, put together with the later versions. */
  lemma RowInTheEnd(cx: Contexts, wide: bool, rows: seq<Byml>, changelogs: seq<map<nat, Byml>>, result: seq<Byml>, h: nat)
    requires ToldApart(wide, rows) && RowByHistory(cx, wide, rows, changelogs, result, h)
    ensures var history := History(changelogs, h);
            var said := Said(history);
            && (forall i :: 0 <= i < |rows| && RowHash(wide, rows[i]) == Some(h) ==>
                  var tree := MergeAll(cx.main, 0, Fresh(rows[i]), said);
                  tree.Some? && Get(ByHash(wide, result), h) == if LastSays(true, history) then Settle(cx.main, tree.value) else None)
            && (h !in Hashes(wide, rows) ==>
                  Get(ByHash(wide, result), h) == if said != [] && LastSays(false, history) then Combined(cx, said[0], said[1..]) else None)
  {
    hide Run, Settle, ByHash, MergeAll, RowHash, LastSays, Said, Combined;
    var history := History(changelogs, h);
    forall i | 0 <= i < |rows| && RowHash(wide, rows[i]) == Some(h)
      ensures var tree := MergeAll(cx.main, 0, Fresh(rows[i]), Said(history));
              tree.Some? && Get(ByHash(wide, result), h) == if LastSays(true, history) then Settle(cx.main, tree.value) else None
    {
      ThereAtFirst(wide, rows, i);
      VanillaRun(cx.main, Fresh(rows[i]), false, history);
    }
    if h !in Hashes(wide, rows) {
      NotThereAtFirst(wide, rows, h);
      AddedRun(cx.main, history);
    }
  }

  lemma ThereAtFirst(wide: bool, rows: seq<Byml>, i: nat)
    requires ToldApart(wide, rows) && i < |rows|
    ensures AtFirst(wide, rows, RowHash(wide, rows[i]).value) == Vanilla(Fresh(rows[i]), false)
  {
    hide RowHash, TreeHash, Fresh, FindRow;
    UntouchedConsistent(wide, rows);
    FreshHash(wide, rows[i]);
    RowAt(wide, Untouched(rows), i);
  }

  lemma NotThereAtFirst(wide: bool, rows: seq<Byml>, h: nat)
    requires ToldApart(wide, rows) && h !in Hashes(wide, rows)
    ensures AtFirst(wide, rows, h) == Absent
  {
    hide RowHash, TreeHash, Fresh;
    PresentAtFirst(wide, rows, h);
  }
}
