/** A whole table of the GameDataList after all changelogs: applied, rows dropped, sorted. */
module GameDataResult {
  import opened Documents
  import opened Changelogs
  import opened Pending
  import opened Views
  import opened TrackingSteps
  import opened PathTracking
  import opened GameData
  import opened GameDataMerge
  import RoundTrip
  import SortedVectors

  // ---------- rows by hash ----------

  function HashOr0(wide: bool, row: Byml): nat { if RowHash(wide, row).Some? then RowHash(wide, row).value else 0 }

  function Pairs(wide: bool, rows: seq<Byml>): seq<(nat, Byml)> {
    seq(|rows|, i requires 0 <= i < |rows| => (HashOr0(wide, rows[i]), rows[i]))
  }

  ghost function ByHash(wide: bool, rows: seq<Byml>): map<nat, Byml> { SortedVectors.MapOf(Pairs(wide, rows)) }

  /** Strictly increasing by hash. */
  ghost predicate Sorted(wide: bool, rows: seq<Byml>) {
    && (forall i :: 0 <= i < |rows| ==> RowHash(wide, rows[i]).Some?)
    && forall i, j :: 0 <= i < j < |rows| ==> HashOr0(wide, rows[i]) < HashOr0(wide, rows[j])
  }

  lemma InByHash(wide: bool, rows: seq<Byml>, i: nat)
    requires ToldApart(wide, rows) && i < |rows|
    ensures Get(ByHash(wide, rows), RowHash(wide, rows[i]).value) == Some(rows[i])
  {
    hide SortedVectors.MapOf, RowHash;
    var pairs := Pairs(wide, rows);
    forall j | i < j < |pairs| ensures pairs[j].0 != pairs[i].0 { assert RowHash(wide, rows[i]) != RowHash(wide, rows[j]); }
    SortedVectors.InMap(pairs, i);
  }

  lemma NotInByHash(wide: bool, rows: seq<Byml>, hash: nat)
    requires ToldApart(wide, rows) && forall i :: 0 <= i < |rows| ==> RowHash(wide, rows[i]) != Some(hash)
    ensures hash !in ByHash(wide, rows)
  {
    hide SortedVectors.MapOf, RowHash;
    SortedVectors.FromEntry(Pairs(wide, rows), hash);
  }

  /** The position of the row with a hash. */
  method Position(wide: bool, rows: seq<Byml>, hash: nat) returns (at: Option<nat>)
    ensures at.Some? ==> at.value < |rows| && RowHash(wide, rows[at.value]) == Some(hash)
    ensures at.None? ==> forall i :: 0 <= i < |rows| ==> RowHash(wide, rows[i]) != Some(hash)
  {
    var i := 0;
    while i < |rows|
      invariant 0 <= i <= |rows| && forall k :: 0 <= k < i ==> RowHash(wide, rows[k]) != Some(hash)
    {
      if RowHash(wide, rows[i]) == Some(hash) { return Some(i); }
      i := i + 1;
    }
    return None;
  }

  // ---------- applying ----------

  /** Each row is what its fate says, dropped rows included. */
  ghost predicate RowFates(cx: Contexts, wide: bool, t: Table, rows: seq<Byml>) {
    |rows| == |t.rows| && forall i :: 0 <= i < |rows| ==> RowFate(cx, wide, t, rows[i], i)
  }

  ghost predicate RowFate(cx: Contexts, wide: bool, t: Table, row: Byml, i: nat)
    requires i < |t.rows|
  {
    && TreeHash(wide, t.rows[i]).Some? && RowHash(wide, row) == TreeHash(wide, t.rows[i])
    && (var fate := FateOf(wide, t, TreeHash(wide, t.rows[i]).value); !fate.Absent? && Settled(cx, fate) == Some(row))
  }

  /** Each row as it is once what is pending has been applied. */
  ghost predicate Applied(c: Context, trees: seq<Tree>, rows: seq<Byml>) {
    |rows| == |trees| && forall i :: 0 <= i < |rows| ==> Settle(c, trees[i]) == Some(rows[i])
  }

  lemma ApplyRows(c: Context, trees: seq<Tree>, r: Option<Byml>)
    requires r == Settle(c, PArray(trees, None))
    ensures r.Some? ==> r.value.Array? && Applied(c, trees, r.value.items)
    ensures r.None? ==> exists i :: 0 <= i < |trees| && Settle(c, trees[i]) == None
  {
  }

  lemma AppliedHashes(c: Context, wide: bool, trees: seq<Tree>, rows: seq<Byml>)
    requires Applied(c, trees, rows) && RowsHashed(wide, trees)
    ensures ToldApart(wide, rows) && forall i :: 0 <= i < |rows| ==> RowHash(wide, rows[i]) == TreeHash(wide, trees[i])
  {
    hide Settle, TreeHash, RowHash;
    forall i | 0 <= i < |rows|
      ensures RowHash(wide, rows[i]) == TreeHash(wide, trees[i]) && TreeHash(wide, trees[i]).Some?
    {
      SettleKeepsHash(c, wide, trees[i]);
    }
  }

  lemma VanillaFate(cx: Contexts, wide: bool, vanilla: set<nat>, t: Table, rows: seq<Byml>, i: nat)
    requires Consistent(wide, vanilla, t) && Applied(cx.main, t.rows, rows) && i < |rows|
    requires TreeHash(wide, t.rows[i]).Some? && FindAdded(t.added, TreeHash(wide, t.rows[i]).value).None?
    ensures RowFate(cx, wide, t, rows[i], i)
  {
    hide Settle, RowHash;
    RowAt(wide, t.rows, i);
    SettleKeepsHash(cx.main, wide, t.rows[i]);
  }

  /** An added row stands as it was added; its fate follows from its versions. */
  lemma AddedFate(cx: Contexts, wide: bool, vanilla: set<nat>, t: Table, rows: seq<Byml>, i: nat, j: nat, combined: Byml)
    requires Consistent(wide, vanilla, t) && Applied(cx.main, t.rows, rows) && i < |rows| && j < |t.added|
    requires TreeHash(wide, t.rows[i]) == Some(t.added[j].hash)
    ensures FateOf(wide, t, t.added[j].hash) == Added(rows[i], t.added[j].changes, t.added[j].hash in t.dropped)
    ensures Combined(cx, rows[i], t.added[j].changes) == Some(combined) ==> RowFate(cx, wide, t, combined, i)
  {
    hide Settle, RowHash, Combined, Fresh, Strip;
    RowAt(wide, t.rows, i);
    AddedAt(t.added, j);
    assert AdditionThere(wide, vanilla, t, j);
    var row := Strip(t.rows[i]);
    RoundTrip.FreshSettles(cx.main, row);
    assert rows[i] == row;
    if Combined(cx, row, t.added[j].changes) == Some(combined) {
      CombinedKeepsHash(cx, wide, t.added[j].hash, row, t.added[j].changes);
    }
  }

  /** The first `j` added rows are put together, the others are as they were applied. */
  ghost predicate RowSoFar(cx: Contexts, wide: bool, t: Table, applied: Byml, row: Byml, j: nat, i: nat)
    requires i < |t.rows|
  {
    && TreeHash(wide, t.rows[i]).Some? && RowHash(wide, row) == TreeHash(wide, t.rows[i])
    && var known := FindAdded(t.added, TreeHash(wide, t.rows[i]).value);
       if known.Some? && known.value < j then RowFate(cx, wide, t, row, i) else row == applied
  }

  ghost predicate CombinedSoFar(cx: Contexts, wide: bool, t: Table, applied: seq<Byml>, rows: seq<Byml>, j: nat) {
    |rows| == |applied| == |t.rows| && forall i :: 0 <= i < |rows| ==> RowSoFar(cx, wide, t, applied[i], rows[i], j, i)
  }

  lemma NoneCombined(cx: Contexts, wide: bool, vanilla: set<nat>, t: Table, applied: seq<Byml>)
    requires Consistent(wide, vanilla, t) && Applied(cx.main, t.rows, applied)
    ensures CombinedSoFar(cx, wide, t, applied, applied, 0)
  {
    hide RowHash, TreeHash, FindAdded, RowFate;
    AppliedHashes(cx.main, wide, t.rows, applied);
  }

  lemma HereIsAdded(cx: Contexts, wide: bool, vanilla: set<nat>, t: Table, applied: seq<Byml>, rows: seq<Byml>, j: nat, at: Option<nat>)
    requires Consistent(wide, vanilla, t) && CombinedSoFar(cx, wide, t, applied, rows, j) && j < |t.added|
    requires at.Some? ==> at.value < |rows| && RowHash(wide, rows[at.value]) == Some(t.added[j].hash)
    requires at.None? ==> forall i :: 0 <= i < |rows| ==> RowHash(wide, rows[i]) != Some(t.added[j].hash)
    ensures at.Some? && TreeHash(wide, t.rows[at.value]) == Some(t.added[j].hash) && rows[at.value] == applied[at.value]
  {
    hide RowHash, TreeHash, RowFate, FindAdded, FindRow, WholeRow, Fresh, Strip;
    assert AdditionThere(wide, vanilla, t, j);
    var i := FindRow(wide, t.rows, t.added[j].hash).value;
    assert RowSoFar(cx, wide, t, applied[i], rows[i], j, i);
    assert at.Some?;
    assert RowSoFar(cx, wide, t, applied[at.value], rows[at.value], j, at.value);
    AddedAt(t.added, j);
  }

  lemma CombinedMore(cx: Contexts, wide: bool, vanilla: set<nat>, t: Table, applied: seq<Byml>, rows: seq<Byml>, j: nat, at: nat, row: Byml)
    requires Consistent(wide, vanilla, t) && CombinedSoFar(cx, wide, t, applied, rows, j) && j < |t.added| && at < |rows|
    requires TreeHash(wide, t.rows[at]) == Some(t.added[j].hash) && RowFate(cx, wide, t, row, at)
    ensures CombinedSoFar(cx, wide, t, applied, rows[at := row], j + 1)
  {
    hide RowHash, TreeHash, FindAdded, FindRow, WholeRow, Fresh, Strip, Settled, FateOf, AdditionThere;
    AddedAt(t.added, j);
    forall i | 0 <= i < |rows|
      ensures RowSoFar(cx, wide, t, applied[i], rows[at := row][i], j + 1, i)
    {
      assert RowSoFar(cx, wide, t, applied[i], rows[i], j, i);
      if i != at {
        var known := FindAdded(t.added, TreeHash(wide, t.rows[i]).value);
        assert TreeHash(wide, t.rows[i]) != TreeHash(wide, t.rows[at]);
      }
    }
  }

  lemma AllCombined(cx: Contexts, wide: bool, vanilla: set<nat>, t: Table, applied: seq<Byml>, rows: seq<Byml>)
    requires Consistent(wide, vanilla, t) && Applied(cx.main, t.rows, applied) && CombinedSoFar(cx, wide, t, applied, rows, |t.added|)
    ensures RowFates(cx, wide, t, rows)
  {
    hide RowHash, TreeHash, FindAdded, FindRow, WholeRow, Fresh, Strip, Settled, FateOf, AdditionThere;
    forall i | 0 <= i < |rows|
      ensures RowFate(cx, wide, t, rows[i], i)
    {
      assert RowSoFar(cx, wide, t, applied[i], rows[i], |t.added|, i);
      if FindAdded(t.added, TreeHash(wide, t.rows[i]).value).None? {
        VanillaFate(cx, wide, vanilla, t, applied, i);
      }
    }
  }

  /** An added row and its later versions: what each changes in it is merged into it. */
  method Combine(cx: Contexts, row: Byml, changes: seq<Byml>) returns (r: Option<Byml>)
    ensures r == Combined(cx, row, changes)
  {
    if changes == [] { return Some(row); }
    var logs := LogRows(cx.logging, 0, row, changes);
    ghost var tree := MergeAll(cx.added, 0, Fresh(row), logs);
    r := MergeChangelogs(cx.added, if tree.Some? then Tallest(tree.value) + 1 else 0, row, logs);
  }

  /** Rows several changelogs mention are put together; the others stay. */
  method CombineAdded(cx: Contexts, wide: bool, ghost vanilla: set<nat>, ghost t: Table, added: seq<Addition>, applied: seq<Byml>)
    returns (r: Option<seq<Byml>>)
    requires Consistent(wide, vanilla, t) && Applied(cx.main, t.rows, applied) && added == t.added
    ensures r.Some? ==> RowFates(cx, wide, t, r.value)
    ensures r.None? ==> exists h :: !FateOf(wide, t, h).Absent? && Settled(cx, FateOf(wide, t, h)) == None
  {
    hide Consistent, RowFate, Applied, FateOf, Combined, RowHash, TreeHash, FindAdded, CombinedSoFar, RowFates;
    NoneCombined(cx, wide, vanilla, t, applied);
    var rows, j := applied, 0;
    while j < |added|
      invariant 0 <= j <= |added| && CombinedSoFar(cx, wide, t, applied, rows, j)
    {
      var at := Position(wide, rows, added[j].hash);
      HereIsAdded(cx, wide, vanilla, t, applied, rows, j, at);
      var combined := Combine(cx, rows[at.value], added[j].changes);
      SameLength(cx, wide, t, applied, rows, j);
      AddedFate(cx, wide, vanilla, t, applied, at.value, j, if combined.Some? then combined.value else rows[at.value]);
      if combined.None? {
        assert Settled(cx, FateOf(wide, t, added[j].hash)) == None;
        return None;
      }
      CombinedMore(cx, wide, vanilla, t, applied, rows, j, at.value, combined.value);
      rows := rows[at.value := combined.value];
      j := j + 1;
    }
    AllCombined(cx, wide, vanilla, t, applied, rows);
    r := Some(rows);
  }

  lemma SameLength(cx: Contexts, wide: bool, t: Table, applied: seq<Byml>, rows: seq<Byml>, j: nat)
    requires CombinedSoFar(cx, wide, t, applied, rows, j)
    ensures |rows| == |applied| == |t.rows|
  {
  }

  // ---------- dropping rows ----------

  /** The rows there are, told apart by hash, are the entries of a map. */
  ghost predicate Holding(wide: bool, rows: seq<Byml>, contents: map<nat, Byml>) {
    ToldApart(wide, rows) && ByHash(wide, rows) == contents
  }

  lemma RemovedRow(wide: bool, rows: seq<Byml>, at: nat, hash: nat)
    requires ToldApart(wide, rows) && at < |rows| && RowHash(wide, rows[at]) == Some(hash)
    ensures ToldApart(wide, rows[..at] + rows[at + 1..])
    ensures ByHash(wide, rows[..at] + rows[at + 1..]) == ByHash(wide, rows) - {hash}
  {
    hide SortedVectors.MapOf, RowHash;
    var pairs, rest := Pairs(wide, rows), rows[..at] + rows[at + 1..];
    var a, b := pairs[..at], pairs[at + 1..];
    assert pairs == a + [pairs[at]] + b && Pairs(wide, rest) == a + b;
    forall i | 0 <= i < |a| ensures a[i].0 != hash { assert RowHash(wide, rows[i]) != RowHash(wide, rows[at]); }
    forall i | 0 <= i < |b| ensures b[i].0 != hash { assert b[i] == pairs[at + 1 + i]; assert RowHash(wide, rows[at]) != RowHash(wide, rows[at + 1 + i]); }
    SortedVectors.MapOfMiddle(a, pairs[at], b);
    SortedVectors.MapOfTwo(a, b);
    SortedVectors.FromEntry(a, hash);
    SortedVectors.FromEntry(b, hash);
    SortedVectors.Without(SortedVectors.MapOf(a) + SortedVectors.MapOf(b), hash, pairs[at].1);
    RestApart(wide, rows, at);
  }

  lemma RestApart(wide: bool, rows: seq<Byml>, at: nat)
    requires ToldApart(wide, rows) && at < |rows|
    ensures ToldApart(wide, rows[..at] + rows[at + 1..])
  {
    hide RowHash;
    var rest := rows[..at] + rows[at + 1..];
    forall i, j | 0 <= i < j < |rest|
      ensures RowHash(wide, rest[i]) != RowHash(wide, rest[j])
    {
      assert rest[i] == rows[if i < at then i else i + 1] && rest[j] == rows[if j < at then j else j + 1];
    }
  }

  lemma NoSuchRow(wide: bool, rows: seq<Byml>, hash: nat)
    requires ToldApart(wide, rows) && forall i :: 0 <= i < |rows| ==> RowHash(wide, rows[i]) != Some(hash)
    ensures ByHash(wide, rows) - {hash} == ByHash(wide, rows)
  {
    hide ByHash;
    NotInByHash(wide, rows, hash);
  }

  method DropRows(wide: bool, rows: seq<Byml>, dropped: set<nat>) returns (r: seq<Byml>)
    requires ToldApart(wide, rows)
    ensures Holding(wide, r, ByHash(wide, rows) - dropped)
  {
    hide ByHash, RowHash, ToldApart;
    r := rows;
    var todo := dropped;
    ghost var done: set<nat> := {};
    ghost var all := ByHash(wide, rows);
    assert all - {} == all;
    while todo != {}
      invariant Holding(wide, r, all - done) && done + todo == dropped
      decreases |todo|
    {
      var hash :| hash in todo;
      var at := Position(wide, r, hash);
      if at.Some? {
        RemovedRow(wide, r, at.value, hash);
        r := r[..at.value] + r[at.value + 1..];
      } else {
        NoSuchRow(wide, r, hash);
      }
      LessOneMore(all, done, hash);
      done := done + {hash};
      todo := todo - {hash};
    }
    assert done == dropped;
  }

  // ---------- sorting ----------

  predicate NatLess(a: nat, b: nat) { a < b }

  lemma NatOrder()
    ensures SortedVectors.TotalOrder(NatLess)
  {
    forall a: nat, b: nat ensures SortedVectors.Once(NatLess, a, b) {}
  }

  lemma {:induction false} PlacedFrom(entries: seq<(nat, Byml)>, entry: (nat, Byml))
    ensures forall i :: 0 <= i < |SortedVectors.Place(NatLess, entries, entry)| ==>
              SortedVectors.Place(NatLess, entries, entry)[i] == entry || SortedVectors.Place(NatLess, entries, entry)[i] in entries
  {
    if entries != [] && NatLess(entry.0, entries[|entries| - 1].0) {
      PlacedFrom(entries[..|entries| - 1], entry);
    }
  }

  lemma {:induction false} PlacedIncreasing(entries: seq<(nat, Byml)>, entry: (nat, Byml))
    requires SortedVectors.Increasing(NatLess, entries) && SortedVectors.NoneIs(entries, entry.0)
    ensures SortedVectors.Increasing(NatLess, SortedVectors.Place(NatLess, entries, entry))
  {
    if entries != [] && NatLess(entry.0, entries[|entries| - 1].0) {
      var before, last := entries[..|entries| - 1], entries[|entries| - 1];
      PlacedIncreasing(before, entry);
      PlacedFrom(before, entry);
      forall i | 0 <= i < |SortedVectors.Place(NatLess, before, entry)|
        ensures NatLess(SortedVectors.Place(NatLess, before, entry)[i].0, last.0)
      {
        var placed := SortedVectors.Place(NatLess, before, entry)[i];
        if placed != entry { BelowLast(entries, placed); }
      }
    }
  }

  lemma BelowLast(entries: seq<(nat, Byml)>, e: (nat, Byml))
    requires SortedVectors.Increasing(NatLess, entries) && entries != [] && e in entries[..|entries| - 1]
    ensures NatLess(e.0, entries[|entries| - 1].0)
  {
    var i :| 0 <= i < |entries| - 1 && entries[i] == e;
  }

  lemma {:induction false} SortDistinct(pairs: seq<(nat, Byml)>)
    requires forall i, j :: 0 <= i < j < |pairs| ==> pairs[i].0 != pairs[j].0
    ensures SortedVectors.Increasing(NatLess, SortedVectors.StableSort(NatLess, pairs))
    ensures forall i :: 0 <= i < |SortedVectors.StableSort(NatLess, pairs)| ==> SortedVectors.StableSort(NatLess, pairs)[i] in pairs
  {
    if pairs != [] {
      var before, last := pairs[..|pairs| - 1], pairs[|pairs| - 1];
      var sorted := SortedVectors.StableSort(NatLess, before);
      SortDistinct(before);
      forall i | 0 <= i < |sorted| ensures sorted[i].0 != last.0 { assert sorted[i] in before; }
      PlacedIncreasing(sorted, last);
      PlacedFrom(sorted, last);
    }
  }

  method SortRows(wide: bool, rows: seq<Byml>) returns (r: seq<Byml>)
    requires ToldApart(wide, rows)
    ensures Sorted(wide, r) && ByHash(wide, r) == ByHash(wide, rows)
  {
    hide RowHash, SortedVectors.StableSort, SortedVectors.MapOf, SortedVectors.TotalOrder;
    ghost var pairs := Pairs(wide, rows);
    var sorted := SortedVectors.StableSort(NatLess, Pairs(wide, rows));
    NatOrder();
    forall i, j | 0 <= i < j < |pairs| ensures pairs[i].0 != pairs[j].0 { assert RowHash(wide, rows[i]) != RowHash(wide, rows[j]); }
    SortDistinct(pairs);
    SortedVectors.StableSortIs(NatLess, pairs);
    r := seq(|sorted|, i requires 0 <= i < |sorted| => sorted[i].1);
    forall i | 0 <= i < |r|
      ensures RowHash(wide, r[i]).Some? && HashOr0(wide, r[i]) == sorted[i].0
    {
      assert sorted[i] in pairs;
    }
    assert Pairs(wide, r) == sorted;
  }

  // ---------- the table in the end ----------

  /** The row there is in the end, if any. */
  ghost function Outcome(cx: Contexts, fate: Fate): Option<Byml> {
    if fate.Present() then Settled(cx, fate) else None
  }

  /** Every row's fate can be settled, and the table has exactly the rows that are present. */
  ghost predicate Finished(cx: Contexts, wide: bool, t: Table, rows: seq<Byml>) {
    && Sorted(wide, rows)
    && forall h :: FinishedRow(cx, wide, t, rows, h)
  }

  ghost predicate FinishedRow(cx: Contexts, wide: bool, t: Table, rows: seq<Byml>, h: nat) {
    var fate := FateOf(wide, t, h);
    (!fate.Absent? ==> Settled(cx, fate).Some?) && Get(ByHash(wide, rows), h) == Outcome(cx, fate)
  }

  lemma FatesApart(cx: Contexts, wide: bool, vanilla: set<nat>, t: Table, rows: seq<Byml>)
    requires Consistent(wide, vanilla, t) && RowFates(cx, wide, t, rows)
    ensures ToldApart(wide, rows)
  {
    hide RowHash, TreeHash, FateOf, Settled, AdditionThere;
    forall i | 0 <= i < |rows| ensures RowHash(wide, rows[i]) == TreeHash(wide, t.rows[i]) && RowHash(wide, rows[i]).Some? {
      assert RowFate(cx, wide, t, rows[i], i);
    }
  }

  lemma RowInTheEnd(cx: Contexts, wide: bool, vanilla: set<nat>, t: Table, whole: seq<Byml>, rows: seq<Byml>, h: nat)
    requires Consistent(wide, vanilla, t) && RowFates(cx, wide, t, whole) && ToldApart(wide, whole)
    requires ByHash(wide, rows) == ByHash(wide, whole) - t.dropped
    ensures FinishedRow(cx, wide, t, rows, h)
  {
    hide RowHash, TreeHash, Settled, AdditionThere, ByHash;
    var at := FindRow(wide, t.rows, h);
    if at.Some? {
      assert RowFate(cx, wide, t, whole[at.value], at.value);
      InByHash(wide, whole, at.value);
    } else {
      forall i | 0 <= i < |whole| ensures RowHash(wide, whole[i]) != Some(h) { assert RowFate(cx, wide, t, whole[i], i); }
      NotInByHash(wide, whole, h);
    }
  }

  /** Everything recorded is applied, added rows are put together, dropped ones taken out, and the table sorted. */
  method Finish(table: TableMerge) returns (r: Option<seq<Byml>>)
    requires table.Valid()
    modifies table.tracking
    ensures match r
            case Some(rows) => Finished(table.cx, table.wide, old(table.Value()), rows)
            case None => exists h :: !old(FateOf(table.wide, table.Value(), h)).Absent? && Settled(table.cx, old(FateOf(table.wide, table.Value(), h))) == None
  {
    hide Consistent, FateOf, Settled, RowFates, Applied, ByHash, ToldApart, InPlace, Settle, FinishedRow;
    ghost var t := table.Value();
    var cx, wide := table.cx, table.wide;
    ghost var view := table.tracking.ViewAt([]);
    assert Annotate(Array(table.rows), view) == PArray(t.rows, None) by { AtHere(table.tracking.maps, table.tracking.arrays, []); }
    var root := table.tracking.Apply(Array(table.rows));
    ApplyRows(cx.main, t.rows, root);
    if root.None? {
      NotApplied(cx, wide, table.vanilla, t);
      return None;
    }
    var whole := CombineAdded(cx, wide, table.vanilla, t, table.added, root.value.items);
    if whole.None? { return None; }
    FatesApart(cx, wide, table.vanilla, t, whole.value);
    var kept := DropRows(wide, whole.value, table.dropped);
    var rows := SortRows(wide, kept);
    forall h ensures FinishedRow(cx, wide, t, rows, h) { RowInTheEnd(cx, wide, table.vanilla, t, whole.value, rows, h); }
    r := Some(rows);
  }

  /** A row that cannot be settled is one of vanilla's: an added one has nothing pending. */
  lemma NotApplied(cx: Contexts, wide: bool, vanilla: set<nat>, t: Table)
    requires Consistent(wide, vanilla, t) && exists i :: 0 <= i < |t.rows| && Settle(cx.main, t.rows[i]) == None
    ensures exists h :: !FateOf(wide, t, h).Absent? && Settled(cx, FateOf(wide, t, h)) == None
  {
    hide Settle, Fresh, Strip, TreeHash, WholeRow;
    var i :| 0 <= i < |t.rows| && Settle(cx.main, t.rows[i]) == None;
    var hash := TreeHash(wide, t.rows[i]).value;
    RowAt(wide, t.rows, i);
    var known := FindAdded(t.added, hash);
    if known.Some? {
      assert AdditionThere(wide, vanilla, t, known.value);
      RoundTrip.FreshSettles(cx.main, Strip(t.rows[i]));
    }
    assert known.None?;
    assert FateOf(wide, t, hash) == Vanilla(t.rows[i], hash in t.dropped);
  }

  // ---------- all changelogs ----------

  /** What the changelogs say of one row, in order. */
  function History(changelogs: seq<map<nat, Byml>>, hash: nat): seq<Option<Byml>> {
    seq(|changelogs|, k requires 0 <= k < |changelogs| => Get(changelogs[k], hash))
  }

  /** A row before any changelog. */
  ghost function AtFirst(wide: bool, rows: seq<Byml>, hash: nat): Fate {
    FateOf(wide, Table(Untouched(rows), [], {}), hash)
  }

  /** What the first `n` changelogs have made of every row. */
  ghost predicate RunSoFar(c: Context, wide: bool, rows: seq<Byml>, changelogs: seq<map<nat, Byml>>, now: Table) {
    forall h :: RowRun(c, wide, rows, changelogs, now, h)
  }

  ghost predicate RowRun(c: Context, wide: bool, rows: seq<Byml>, changelogs: seq<map<nat, Byml>>, now: Table, h: nat) {
    Run(c, AtFirst(wide, rows, h), History(changelogs, h)) == Some(FateOf(wide, now, h))
  }

  lemma RunNext(c: Context, fate: Fate, changelogs: seq<map<nat, Byml>>, n: nat, h: nat)
    requires n < |changelogs|
    ensures Run(c, fate, History(changelogs[..n + 1], h))
            == match Run(c, fate, History(changelogs[..n], h)) case None => None case Some(before) => Step(c, before, Get(changelogs[n], h))
  {
    hide Step;
    assert History(changelogs[..n + 1], h)[..n] == History(changelogs[..n], h);
  }

  lemma {:induction false} RunFails(c: Context, fate: Fate, changelogs: seq<map<nat, Byml>>, n: nat, h: nat)
    requires n <= |changelogs| && Run(c, fate, History(changelogs[..n], h)) == None
    ensures Run(c, fate, History(changelogs, h)) == None
    decreases |changelogs| - n
  {
    hide Run;
    if n < |changelogs| {
      RunNext(c, fate, changelogs, n, h);
      RunFails(c, fate, changelogs, n + 1, h);
    } else {
      assert changelogs[..n] == changelogs;
    }
  }

  lemma RunMore(c: Context, wide: bool, rows: seq<Byml>, changelogs: seq<map<nat, Byml>>, n: nat, before: Table, after: Table)
    requires n < |changelogs| && RunSoFar(c, wide, rows, changelogs[..n], before)
    requires forall h :: Step(c, FateOf(wide, before, h), Get(changelogs[n], h)) == Some(FateOf(wide, after, h))
    ensures RunSoFar(c, wide, rows, changelogs[..n + 1], after)
  {
    hide Run, Step, FateOf, RowRun;
    var more := changelogs[..n + 1];
    forall h
      ensures RowRun(c, wide, rows, more, after, h)
    {
      RowRunMore(c, wide, rows, changelogs, n, before, after, h);
    }
  }

  lemma RowRunMore(c: Context, wide: bool, rows: seq<Byml>, changelogs: seq<map<nat, Byml>>, n: nat, before: Table, after: Table, h: nat)
    requires n < |changelogs| && RowRun(c, wide, rows, changelogs[..n], before, h)
    requires Step(c, FateOf(wide, before, h), Get(changelogs[n], h)) == Some(FateOf(wide, after, h))
    ensures RowRun(c, wide, rows, changelogs[..n + 1], after, h)
  {
    hide Run, Step, FateOf;
    RunNext(c, AtFirst(wide, rows, h), changelogs, n, h);
  }

  lemma RunStops(c: Context, wide: bool, rows: seq<Byml>, changelogs: seq<map<nat, Byml>>, n: nat, before: Table)
    requires n < |changelogs| && RunSoFar(c, wide, rows, changelogs[..n], before)
    requires exists h :: Step(c, FateOf(wide, before, h), Get(changelogs[n], h)) == None
    ensures exists h :: RowFails(c, wide, rows, changelogs, h)
  {
    hide Run, Step, FateOf;
    var h :| Step(c, FateOf(wide, before, h), Get(changelogs[n], h)) == None;
    assert RowRun(c, wide, rows, changelogs[..n], before, h);
    RunNext(c, AtFirst(wide, rows, h), changelogs, n, h);
    RunFails(c, AtFirst(wide, rows, h), changelogs, n + 1, h);
    assert RowFails(c, wide, rows, changelogs, h);
  }

  ghost predicate RowFails(c: Context, wide: bool, rows: seq<Byml>, changelogs: seq<map<nat, Byml>>, h: nat) {
    Run(c, AtFirst(wide, rows, h), History(changelogs, h)).None?
  }

  /** A row of the result is what its own history makes of it. */
  ghost predicate RowByHistory(cx: Contexts, wide: bool, rows: seq<Byml>, changelogs: seq<map<nat, Byml>>, result: seq<Byml>, h: nat) {
    match Run(cx.main, AtFirst(wide, rows, h), History(changelogs, h))
    case None => false
    case Some(fate) => (!fate.Absent? ==> Settled(cx, fate).Some?) && Get(ByHash(wide, result), h) == Outcome(cx, fate)
  }

  ghost predicate CannotSettle(cx: Contexts, wide: bool, rows: seq<Byml>, changelogs: seq<map<nat, Byml>>, h: nat) {
    match Run(cx.main, AtFirst(wide, rows, h), History(changelogs, h))
    case None => true
    case Some(fate) => !fate.Absent? && Settled(cx, fate) == None
  }

  /** A table with all changelogs that touch it: every row as its own history makes it, in order of hash; it fails exactly when
      some row's own history does. */
  method MergeTable(wide: bool, cx: Contexts, rows: seq<Byml>, changelogs: seq<map<nat, Byml>>) returns (r: Option<seq<Byml>>)
    requires ToldApart(wide, rows)
    requires forall n :: 0 <= n < |changelogs| ==> Proper(wide, Hashes(wide, rows), changelogs[n])
    ensures match r
            case Some(result) => Sorted(wide, result) && forall h :: RowByHistory(cx, wide, rows, changelogs, result, h)
            case None => exists h :: CannotSettle(cx, wide, rows, changelogs, h)
  {
    hide Consistent, FateOf, Settled, Run, Step, ByHash, ToldApart, InPlace, Sorted, Proper;
    var table := new TableMerge(wide, cx, rows);
    var n := 0;
    StartOfRun(cx.main, wide, rows, changelogs, table.Value());
    while n < |changelogs|
      invariant 0 <= n <= |changelogs| && table.Valid() && table.cx == cx && table.wide == wide && table.vanilla == Hashes(wide, rows)
      invariant RunSoFar(cx.main, wide, rows, changelogs[..n], table.Value())
      invariant fresh(table) && fresh(table.tracking)
    {
      ghost var before := table.Value();
      var ok := table.MergeEntries(changelogs[n]);
      if !ok {
        RunStops(cx.main, wide, rows, changelogs, n, before);
        NoResult(cx, wide, rows, changelogs);
        return None;
      }
      RunMore(cx.main, wide, rows, changelogs, n, before, table.Value());
      n := n + 1;
    }
    assert changelogs[..n] == changelogs;
    ghost var t := table.Value();
    r := Finish(table);
    if r.Some? {
      AllByHistory(cx, wide, rows, changelogs, t, r.value);
    } else {
      SomeUnsettled(cx, wide, rows, changelogs, t);
    }
  }

  lemma StartOfRun(c: Context, wide: bool, rows: seq<Byml>, changelogs: seq<map<nat, Byml>>, t: Table)
    requires t == Table(Untouched(rows), [], {})
    ensures RunSoFar(c, wide, rows, changelogs[..0], t)
  {
    hide FateOf;
    forall h ensures RowRun(c, wide, rows, changelogs[..0], t, h) { assert History(changelogs[..0], h) == []; }
  }

  lemma NoResult(cx: Contexts, wide: bool, rows: seq<Byml>, changelogs: seq<map<nat, Byml>>)
    requires exists h :: RowFails(cx.main, wide, rows, changelogs, h)
    ensures exists h :: CannotSettle(cx, wide, rows, changelogs, h)
  {
    hide Run, Settled;
    var h :| RowFails(cx.main, wide, rows, changelogs, h);
    assert CannotSettle(cx, wide, rows, changelogs, h);
  }

  lemma AllByHistory(cx: Contexts, wide: bool, rows: seq<Byml>, changelogs: seq<map<nat, Byml>>, t: Table, result: seq<Byml>)
    requires RunSoFar(cx.main, wide, rows, changelogs, t) && Finished(cx, wide, t, result)
    ensures forall h :: RowByHistory(cx, wide, rows, changelogs, result, h)
  {
    hide Run, Settled, FateOf, ByHash, Sorted;
    forall h
      ensures RowByHistory(cx, wide, rows, changelogs, result, h)
    {
      assert RowRun(cx.main, wide, rows, changelogs, t, h) && FinishedRow(cx, wide, t, result, h);
    }
  }

  lemma SomeUnsettled(cx: Contexts, wide: bool, rows: seq<Byml>, changelogs: seq<map<nat, Byml>>, t: Table)
    requires RunSoFar(cx.main, wide, rows, changelogs, t) && exists h :: !FateOf(wide, t, h).Absent? && Settled(cx, FateOf(wide, t, h)) == None
    ensures exists h :: CannotSettle(cx, wide, rows, changelogs, h)
  {
    hide Run, Settled, FateOf;
    var h :| !FateOf(wide, t, h).Absent? && Settled(cx, FateOf(wide, t, h)) == None;
    assert RowRun(cx.main, wide, rows, changelogs, t, h);
    assert CannotSettle(cx, wide, rows, changelogs, h);
  }

  /** The hashes of the result: vanilla's and the added ones, except those whose last mention is a removal. */
  lemma HashesInTheEnd(cx: Contexts, wide: bool, rows: seq<Byml>, changelogs: seq<map<nat, Byml>>, result: seq<Byml>, h: nat)
    requires ToldApart(wide, rows) && RowByHistory(cx, wide, rows, changelogs, result, h)
    ensures h in ByHash(wide, result) <==> LastSays(h in Hashes(wide, rows), History(changelogs, h))
  {
    hide Run, Settled, ByHash, RowHash;
    var first := AtFirst(wide, rows, h);
    PresentAtFirst(wide, rows, h);
    LastMentionDecides(cx.main, first, History(changelogs, h));
  }

  lemma PresentAtFirst(wide: bool, rows: seq<Byml>, h: nat)
    requires ToldApart(wide, rows)
    ensures AtFirst(wide, rows, h).Present() <==> h in Hashes(wide, rows)
  {
    hide RowHash, TreeHash, Fresh;
    var trees := Untouched(rows);
    forall i | 0 <= i < |rows| ensures TreeHash(wide, trees[i]) == RowHash(wide, rows[i]) { FreshHash(wide, rows[i]); }
  }
}
