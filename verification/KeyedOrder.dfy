/** In what order the rows of an array compared by key come back. */
module KeyedOrder {
  import opened Documents
  import opened Changelogs
  import opened Pending
  import opened Splice
  import opened KeyedRows
  import opened KeyedSplice
  import opened RoundTrip
  import KeyedOutcome
  import RemovedRows

  // ---------- where rows belong ----------

  predicate Kept(name: KeyName, row: Byml, vanilla: seq<Byml>) { KeyOf(name, row) in IndexOf(vanilla, name) }

  /** How many of the first `i` rows stand for rows of vanilla. */
  function KeptBefore(name: KeyName, src: seq<Byml>, vanilla: seq<Byml>, i: nat): (kept: nat)
    requires i <= |src|
    ensures kept <= i
  {
    if i == 0 then 0 else KeptBefore(name, src, vanilla, i - 1) + if Kept(name, src[i - 1], vanilla) then 1 else 0
  }

  /** A row that stands for one of vanilla's belongs where that is, a new one before the row of vanilla it has as many kept rows
      before it as. */
  function PlaceOf(name: KeyName, src: seq<Byml>, vanilla: seq<Byml>, i: nat): nat
    requires i < |src|
  {
    if Kept(name, src[i], vanilla) then 2 * IndexOf(vanilla, name)[KeyOf(name, src[i])] + 1 else 2 * KeptBefore(name, src, vanilla, i)
  }

  predicate Precedes(name: KeyName, src: seq<Byml>, vanilla: seq<Byml>, i: nat, j: nat)
    requires i < |src| && j < |src|
  {
    PlaceOf(name, src, vanilla, i) < PlaceOf(name, src, vanilla, j) || (PlaceOf(name, src, vanilla, i) == PlaceOf(name, src, vanilla, j) && i < j)
  }

  ghost predicate InOrder(name: KeyName, src: seq<Byml>, vanilla: seq<Byml>, order: seq<nat>) {
    forall k, l :: 0 <= k < l < |order| ==> order[k] < |src| && order[l] < |src| && Precedes(name, src, vanilla, order[k], order[l])
  }

  /** All the rows, by the places they belong in; the only such order. */
  ghost predicate ByPlace(name: KeyName, src: seq<Byml>, vanilla: seq<Byml>, order: seq<nat>) {
    (forall i: nat :: i in order <==> i < |src|) && InOrder(name, src, vanilla, order)
  }

  /** The rows of an array are those of the mod in this order, up to the order of rows deeper down. */
  ghost predicate Arranged(c: Context, depth: int, result: seq<Byml>, src: seq<Byml>, order: seq<nat>) {
    && |result| == |order|
    && forall k :: 0 <= k < |order| ==>
         order[k] < |src| && Normal(c.rules, c.type_, depth, result[k]) == Normal(c.rules, c.type_, depth, src[order[k]])
  }

  // ---------- what the changelog adds ----------

  /** The new rows from `i` on. */
  function NewFrom(name: KeyName, src: seq<Byml>, vanilla: seq<Byml>, i: nat): (news: seq<nat>)
    requires i <= |src|
    ensures forall k :: 0 <= k < |news| ==> i <= news[k] < |src| && !Kept(name, src[news[k]], vanilla)
    ensures forall k, l :: 0 <= k < l < |news| ==> news[k] < news[l]
    ensures forall k :: i <= k < |src| && !Kept(name, src[k], vanilla) ==> k in news
    decreases |src| - i
  {
    if i == |src| then [] else (if Kept(name, src[i], vanilla) then [] else [i]) + NewFrom(name, src, vanilla, i + 1)
  }

  /** The index a new row is added at. */
  function IndexFor(name: KeyName, src: seq<Byml>, vanilla: seq<Byml>, i: nat): nat
    requires i <= |src|
  {
    var kept := KeptBefore(name, src, vanilla, i);
    if |vanilla| > kept then kept else i
  }

  function PairsAt(name: KeyName, src: seq<Byml>, vanilla: seq<Byml>, news: seq<nat>): seq<(int, Byml)>
    requires forall k :: 0 <= k < |news| ==> news[k] < |src|
  {
    seq(|news|, k requires 0 <= k < |news| => (IndexFor(name, src, vanilla, news[k]), src[news[k]]))
  }

  lemma {:induction false} AdditionsAppend(a: seq<ArrayChange>, b: seq<ArrayChange>)
    ensures KeyedOutcome.Additions(a + b) == KeyedOutcome.Additions(a) + KeyedOutcome.Additions(b)
    decreases |b|
  {
    if b == [] {
      assert a + b == a;
    } else {
      var last := |b| - 1;
      assert (a + b)[..|a + b| - 1] == a + b[..last];
      AdditionsAppend(a, b[..last]);
    }
  }

  lemma OneAddition(change: ArrayChange)
    ensures KeyedOutcome.Additions([change]) == if change.change.Add? then [(change.index, change.node)] else []
  {
    assert [change][..0] == [];
  }

  lemma {:induction false} RemovalsAddNothing(name: KeyName, src: seq<Byml>, vanilla: seq<Byml>, j: nat)
    requires j <= |vanilla|
    ensures KeyedOutcome.Additions(RowRemovals(name, src, vanilla, j)) == []
    decreases |vanilla| - j
  {
    if j < |vanilla| {
      var rest := RowRemovals(name, src, vanilla, j + 1);
      RemovalsAddNothing(name, src, vanilla, j + 1);
      if !Found(name, src, vanilla, j) {
        OneAddition(Change(j, Remove, NULL));
        AdditionsAppend([Change(j, Remove, NULL)], rest);
      } else {
        assert [] + rest == rest;
      }
    }
  }

  /** What the row at `i` records, and where. */
  lemma RowRecorded(rules: Rules, type_: string, depth: int, name: KeyName, src: seq<Byml>, vanilla: seq<Byml>, i: nat, added: nat)
    returns (here: seq<ArrayChange>, more: nat)
    requires added <= i < |src| && !KeyOf(name, src[i]).IsEmpty()
    ensures more <= i + 1 && more == added + if Kept(name, src[i], vanilla) then 0 else 1
    ensures RowChanges(rules, type_, depth, name, src, vanilla, i, added)
            == here + RowChanges(rules, type_, depth, name, src, vanilla, i + 1, more)
    ensures KeyedOutcome.Additions(here)
            == if Kept(name, src[i], vanilla) then [] else [(if |vanilla| > i - added then i - added else i, src[i])]
  {
    hide Diff, KeyOf, IndexOf, KeyedOutcome.Additions;
    IndexInRange(vanilla, name);
    var index, key := IndexOf(vanilla, name), KeyOf(name, src[i]);
    NoAdditions();
    if Kept(name, src[i], vanilla) {
      var (node, same) := Diff(rules, type_, depth, src[i], vanilla[index[key]]);
      var change := ArrayChange(index[key], Edit, node, key);
      OneAddition(change);
      here, more := if same then [] else [change], added;
    } else {
      var change := Change(if |vanilla| > i - added then i - added else i, Add, src[i]);
      OneAddition(change);
      here, more := [change], added + 1;
    }
  }

  lemma PairsCons(name: KeyName, src: seq<Byml>, vanilla: seq<Byml>, i: nat, news: seq<nat>)
    requires i < |src| && forall k :: 0 <= k < |news| ==> news[k] < |src|
    ensures PairsAt(name, src, vanilla, [i] + news) == [(IndexFor(name, src, vanilla, i) as int, src[i])] + PairsAt(name, src, vanilla, news)
  {
  }

  lemma NewPairs(name: KeyName, src: seq<Byml>, vanilla: seq<Byml>, i: nat)
    requires i < |src|
    ensures PairsAt(name, src, vanilla, NewFrom(name, src, vanilla, i))
            == (if Kept(name, src[i], vanilla) then [] else [(IndexFor(name, src, vanilla, i) as int, src[i])])
               + PairsAt(name, src, vanilla, NewFrom(name, src, vanilla, i + 1))
  {
    hide Kept, IndexFor;
    var rest := NewFrom(name, src, vanilla, i + 1);
    if Kept(name, src[i], vanilla) {
      assert [] + rest == rest;
    } else {
      PairsCons(name, src, vanilla, i, rest);
    }
  }

  lemma {:induction false} RowsAdded(rules: Rules, type_: string, depth: int, name: KeyName, src: seq<Byml>, vanilla: seq<Byml>, i: nat)
    requires i <= |src| && forall k :: 0 <= k < |src| ==> !KeyOf(name, src[k]).IsEmpty()
    ensures KeyedOutcome.Additions(RowChanges(rules, type_, depth, name, src, vanilla, i, i - KeptBefore(name, src, vanilla, i)))
            == PairsAt(name, src, vanilla, NewFrom(name, src, vanilla, i))
    decreases |src| - i
  {
    hide RowChanges, KeyOf, Kept, KeyedOutcome.Additions, NewFrom, PairsAt;
    if i < |src| {
      var added := i - KeptBefore(name, src, vanilla, i);
      var here, more := RowRecorded(rules, type_, depth, name, src, vanilla, i, added);
      RowsAdded(rules, type_, depth, name, src, vanilla, i + 1);
      AdditionsAppend(here, RowChanges(rules, type_, depth, name, src, vanilla, i + 1, more));
      NewPairs(name, src, vanilla, i);
    } else {
      NoRows(rules, type_, depth, name, src, vanilla);
      NoNewRows(name, src, vanilla);
    }
  }

  lemma NoNewRows(name: KeyName, src: seq<Byml>, vanilla: seq<Byml>)
    ensures PairsAt(name, src, vanilla, NewFrom(name, src, vanilla, |src|)) == []
  {
  }

  lemma NoRows(rules: Rules, type_: string, depth: int, name: KeyName, src: seq<Byml>, vanilla: seq<Byml>)
    ensures forall added: nat :: added <= |src| ==> KeyedOutcome.Additions(RowChanges(rules, type_, depth, name, src, vanilla, |src|, added)) == []
  {
  }

  lemma NoAdditions()
    ensures KeyedOutcome.Additions([]) == []
  {
  }

  // ---------- weaving the new rows in ----------

  /** The row that stands for vanilla's row `j`, if any. */
  ghost function Stander(name: KeyName, src: seq<Byml>, vanilla: seq<Byml>, j: nat): (stander: Option<nat>)
    ensures stander.Some? ==> stander.value < |src| && StandsFor(name, src[stander.value], vanilla, j)
    ensures stander.None? ==> !FoundBefore(name, src, vanilla, j, |src|)
  {
    if FoundBefore(name, src, vanilla, j, |src|) then
      var i: nat :| i < |src| && StandsFor(name, src[i], vanilla, j);
      Some(i)
    else None
  }

  /** The rows that stand for vanilla's from `j` on, in vanilla's order, with new rows before the row at their index. */
  ghost function Weave(name: KeyName, src: seq<Byml>, vanilla: seq<Byml>, news: seq<nat>, j: nat): seq<nat>
    requires j <= |vanilla| && forall k :: 0 <= k < |news| ==> news[k] < |src|
    decreases |news| + |vanilla| - j
  {
    if j == |vanilla| && news == [] then []
    else if news != [] && (j == |vanilla| || IndexFor(name, src, vanilla, news[0]) <= j) then
      [news[0]] + Weave(name, src, vanilla, news[1..], j)
    else
      (match Stander(name, src, vanilla, j) case None => [] case Some(i) => [i]) + Weave(name, src, vanilla, news, j + 1)
  }

  lemma ArrangedCons(c: Context, depth: int, head: Byml, result: seq<Byml>, src: seq<Byml>, i: nat, order: seq<nat>)
    requires Arranged(c, depth, result, src, order) && i < |src|
    requires Normal(c.rules, c.type_, depth, head) == Normal(c.rules, c.type_, depth, src[i])
    ensures Arranged(c, depth, [head] + result, src, [i] + order)
  {
    hide Normal;
  }

  lemma {:induction false} WovenRows(c: Context, depth: int, name: KeyName, src: seq<Byml>, vanilla: seq<Byml>, rows: seq<Byml>,
                                     marked: seq<Byml>, news: seq<nat>, j: nat)
    requires KeyedSettled(c, depth, name, src, vanilla, rows) && marked == Marked(rows, Unfound(name, src, vanilla, |src|, |vanilla|))
    requires j <= |vanilla| && (forall k :: 0 <= k < |news| ==> news[k] < |src|) && forall i :: 0 <= i < |src| ==> !src[i].IsRemove()
    ensures Arranged(c, depth, Retained(Interleave(marked[j..], j, PairsAt(name, src, vanilla, news))), src, Weave(name, src, vanilla, news, j))
    decreases |news| + |vanilla| - j
  {
    hide Normal, Unfound, StandsFor, IndexFor, Retained, Arranged;
    var pairs := PairsAt(name, src, vanilla, news);
    if j == |vanilla| && news == [] {
      assert marked[j..] == [] && pairs == [];
      NothingArranged(c, depth, src);
    } else if news != [] && (j == |vanilla| || IndexFor(name, src, vanilla, news[0]) <= j) {
      assert news == [news[0]] + news[1..];
      PairsCons(name, src, vanilla, news[0], news[1..]);
      var rest := Interleave(marked[j..], j, PairsAt(name, src, vanilla, news[1..]));
      WovenRows(c, depth, name, src, vanilla, rows, marked, news[1..], j);
      RemovedRows.RetainedCons(src[news[0]], rest);
      ArrangedCons(c, depth, src[news[0]], Retained(rest), src, news[0], Weave(name, src, vanilla, news[1..], j));
    } else {
      var rest := Interleave(marked[j + 1..], j + 1, pairs);
      assert marked[j..] == [marked[j]] + marked[j + 1..];
      assert Interleave(marked[j..], j, pairs) == [marked[j]] + rest;
      WovenRows(c, depth, name, src, vanilla, rows, marked, news, j + 1);
      RemovedRows.RetainedCons(marked[j], rest);
      var stander := Stander(name, src, vanilla, j);
      if stander.Some? {
        KeptRow(c, depth, name, src, vanilla, rows, j, stander.value);
        ArrangedCons(c, depth, marked[j], Retained(rest), src, stander.value, Weave(name, src, vanilla, news, j + 1));
      } else {
        assert j in Unfound(name, src, vanilla, |src|, |vanilla|);
        assert [] + Retained(rest) == Retained(rest);
        assert [] + Weave(name, src, vanilla, news, j + 1) == Weave(name, src, vanilla, news, j + 1);
      }
    }
  }

  lemma NothingArranged(c: Context, depth: int, src: seq<Byml>)
    ensures Arranged(c, depth, Retained([]), src, [])
  {
  }

  lemma KeptRow(c: Context, depth: int, name: KeyName, src: seq<Byml>, vanilla: seq<Byml>, rows: seq<Byml>, j: nat, i: nat)
    requires KeyedSettled(c, depth, name, src, vanilla, rows) && j < |vanilla| && i < |src| && StandsFor(name, src[i], vanilla, j)
    ensures j !in Unfound(name, src, vanilla, |src|, |vanilla|)
    ensures Normal(c.rules, c.type_, depth, rows[j]) == Normal(c.rules, c.type_, depth, src[i]) && !rows[j].IsRemove()
  {
    assert FoundBefore(name, src, vanilla, j, |src|);
  }

  // ---------- the rows are in their places ----------

  lemma {:induction false} KeptGrows(name: KeyName, src: seq<Byml>, vanilla: seq<Byml>, i: nat, k: nat)
    requires i <= k <= |src|
    ensures KeptBefore(name, src, vanilla, i) <= KeptBefore(name, src, vanilla, k)
    decreases k - i
  {
    if i < k { KeptGrows(name, src, vanilla, i, k - 1); }
  }

  lemma OnlyStander(name: KeyName, src: seq<Byml>, vanilla: seq<Byml>, j: nat, i: nat)
    requires UniqueKeys(Some(name), src) && i < |src| && StandsFor(name, src[i], vanilla, j)
    ensures Stander(name, src, vanilla, j) == Some(i)
  {
    assert FoundBefore(name, src, vanilla, j, |src|);
    var k := Stander(name, src, vanilla, j).value;
    if k < i { OneStandsFor(name, src, vanilla, k, i, j); }
    if i < k { OneStandsFor(name, src, vanilla, i, k, j); }
  }

  /** The row stands for a row of vanilla from `j` on. */
  predicate KeptFrom(name: KeyName, row: Byml, vanilla: seq<Byml>, j: nat) {
    Kept(name, row, vanilla) && IndexOf(vanilla, name)[KeyOf(name, row)] >= j
  }

  lemma {:induction false} WovenMembers(name: KeyName, src: seq<Byml>, vanilla: seq<Byml>, news: seq<nat>, j: nat)
    requires j <= |vanilla| && (forall k :: 0 <= k < |news| ==> news[k] < |src|) && UniqueKeys(Some(name), src)
    ensures forall i: nat :: i in Weave(name, src, vanilla, news, j) <==> i in news || (i < |src| && KeptFrom(name, src[i], vanilla, j))
    decreases |news| + |vanilla| - j
  {
    hide KeyOf, IndexOf, IndexFor, UniqueKeys;
    IndexInRange(vanilla, name);
    if j == |vanilla| && news == [] {
    } else if news != [] && (j == |vanilla| || IndexFor(name, src, vanilla, news[0]) <= j) {
      assert news == [news[0]] + news[1..];
      WovenMembers(name, src, vanilla, news[1..], j);
    } else {
      WovenMembers(name, src, vanilla, news, j + 1);
      forall i | 0 <= i < |src|
        ensures KeptFrom(name, src[i], vanilla, j) <==> Stander(name, src, vanilla, j) == Some(i) || KeptFrom(name, src[i], vanilla, j + 1)
      {
        if StandsFor(name, src[i], vanilla, j) { OnlyStander(name, src, vanilla, j, i); }
      }
      var tail := Weave(name, src, vanilla, news, j + 1);
      forall i: nat
        ensures i in Weave(name, src, vanilla, news, j) <==> Stander(name, src, vanilla, j) == Some(i) || i in tail
      {
      }
    }
  }

  lemma SortedCons(name: KeyName, src: seq<Byml>, vanilla: seq<Byml>, head: nat, tail: seq<nat>)
    requires InOrder(name, src, vanilla, tail) && head < |src|
    requires forall l :: 0 <= l < |tail| ==> tail[l] < |src| && Precedes(name, src, vanilla, head, tail[l])
    ensures InOrder(name, src, vanilla, [head] + tail)
  {
    hide Precedes;
    var all := [head] + tail;
    forall k, l | 0 <= k < l < |all|
      ensures all[k] < |src| && all[l] < |src| && Precedes(name, src, vanilla, all[k], all[l])
    {
      assert all[l] == tail[l - 1];
      if k > 0 { assert all[k] == tail[k - 1]; }
    }
  }

  /** New rows, in order. */
  ghost predicate News(name: KeyName, src: seq<Byml>, vanilla: seq<Byml>, news: seq<nat>) {
    && (forall k :: 0 <= k < |news| ==> news[k] < |src| && !Kept(name, src[news[k]], vanilla))
    && forall k, l :: 0 <= k < l < |news| ==> news[k] < news[l]
  }

  lemma NewPrecedes(name: KeyName, src: seq<Byml>, vanilla: seq<Byml>, news: seq<nat>, j: nat, y: nat)
    requires News(name, src, vanilla, news) && news != [] && j <= |vanilla| && (j == |vanilla| || IndexFor(name, src, vanilla, news[0]) <= j)
    requires y in news[1..] || (y < |src| && KeptFrom(name, src[y], vanilla, j))
    ensures y < |src| && Precedes(name, src, vanilla, news[0], y)
  {
    hide KeyOf, IndexOf;
    IndexInRange(vanilla, name);
    if y in news[1..] {
      var k :| 0 <= k < |news[1..]| && news[1..][k] == y;
      assert news[0] < news[k + 1] == y;
      KeptGrows(name, src, vanilla, news[0], y);
    }
  }

  lemma KeptPrecedes(name: KeyName, src: seq<Byml>, vanilla: seq<Byml>, news: seq<nat>, j: nat, i: nat, y: nat)
    requires News(name, src, vanilla, news) && j < |vanilla| && (news != [] ==> IndexFor(name, src, vanilla, news[0]) > j)
    requires i < |src| && StandsFor(name, src[i], vanilla, j)
    requires y in news || (y < |src| && KeptFrom(name, src[y], vanilla, j + 1))
    ensures y < |src| && Precedes(name, src, vanilla, i, y)
  {
    hide KeyOf, IndexOf;
    if y in news {
      var k :| 0 <= k < |news| && news[k] == y;
      assert news[0] <= y;
      KeptGrows(name, src, vanilla, news[0], y);
    }
  }

  lemma {:induction false} WovenSorted(name: KeyName, src: seq<Byml>, vanilla: seq<Byml>, news: seq<nat>, j: nat)
    requires j <= |vanilla| && News(name, src, vanilla, news) && UniqueKeys(Some(name), src)
    ensures InOrder(name, src, vanilla, Weave(name, src, vanilla, news, j))
    decreases |news| + |vanilla| - j
  {
    hide KeyOf, IndexOf, IndexFor, UniqueKeys, Kept, Precedes, StandsFor, KeptFrom, InOrder;
    if j == |vanilla| && news == [] {
      NothingInOrder(name, src, vanilla);
    } else if news != [] && (j == |vanilla| || IndexFor(name, src, vanilla, news[0]) <= j) {
      var tail := Weave(name, src, vanilla, news[1..], j);
      WovenSorted(name, src, vanilla, news[1..], j);
      WovenMembers(name, src, vanilla, news[1..], j);
      forall l | 0 <= l < |tail|
        ensures tail[l] < |src| && Precedes(name, src, vanilla, news[0], tail[l])
      {
        assert tail[l] in tail;
        NewPrecedes(name, src, vanilla, news, j, tail[l]);
      }
      SortedCons(name, src, vanilla, news[0], tail);
    } else {
      var tail := Weave(name, src, vanilla, news, j + 1);
      WovenSorted(name, src, vanilla, news, j + 1);
      WovenMembers(name, src, vanilla, news, j + 1);
      var stander := Stander(name, src, vanilla, j);
      if stander.Some? {
        forall l | 0 <= l < |tail|
          ensures tail[l] < |src| && Precedes(name, src, vanilla, stander.value, tail[l])
        {
          assert tail[l] in tail;
          KeptPrecedes(name, src, vanilla, news, j, stander.value, tail[l]);
        }
        SortedCons(name, src, vanilla, stander.value, tail);
      } else {
        assert [] + tail == tail;
      }
    }
  }

  lemma NothingInOrder(name: KeyName, src: seq<Byml>, vanilla: seq<Byml>)
    ensures InOrder(name, src, vanilla, [])
  {
  }

  lemma WovenByPlace(name: KeyName, src: seq<Byml>, vanilla: seq<Byml>)
    requires UniqueKeys(Some(name), src)
    ensures ByPlace(name, src, vanilla, Weave(name, src, vanilla, NewFrom(name, src, vanilla, 0), 0))
  {
    hide KeyOf, IndexOf, Weave, PlaceOf, UniqueKeys;
    var news := NewFrom(name, src, vanilla, 0);
    WovenSorted(name, src, vanilla, news, 0);
    WovenMembers(name, src, vanilla, news, 0);
  }

  // ---------- the array ----------

  /** What the changelog of an array, merged into vanilla's, settles to. */
  ghost function KeyedResult(c: Context, depth: int, arrayName: Option<string>, name: KeyName, src: seq<Byml>, vanilla: seq<Byml>): Option<Byml> {
    match MergeArray(c, depth, arrayName, Fresh(Array(vanilla)).items, None, KeyedChanges(c.rules, c.type_, depth, name, src, vanilla))
    case None => None
    case Some(tree) => Settle(c, tree)
  }

  /** An array compared by key whose changelog can rebuild it, all of its rows with keys. */
  ghost predicate KeyedArray(c: Context, depth: int, arrayName: Option<string>, name: KeyName, src: seq<Byml>, vanilla: seq<Byml>) {
    && Keyed(name) == (match arrayName case None => UnnamedBuilder(c.type_, depth) case Some(n) => c.rules.builder(n, c.type_, depth))
    && RebuildableArray(c, depth, arrayName, Keyed(name), src, vanilla)
    && (forall i :: 0 <= i < |src| ==> Clean(src[i]) && !KeyOf(name, src[i]).IsEmpty()) && (forall i :: 0 <= i < |vanilla| ==> Clean(vanilla[i]))
  }

  lemma SortedPairs(name: KeyName, src: seq<Byml>, vanilla: seq<Byml>)
    ensures Sorted(PairsAt(name, src, vanilla, NewFrom(name, src, vanilla, 0)))
  {
    hide Kept;
    var news := NewFrom(name, src, vanilla, 0);
    forall k, l | 0 <= k < l < |news|
      ensures IndexFor(name, src, vanilla, news[k]) <= IndexFor(name, src, vanilla, news[l])
    {
      KeptGrows(name, src, vanilla, news[k], news[l]);
    }
  }

  lemma {:induction false} NewRowsOwn(name: KeyName, src: seq<Byml>, vanilla: seq<Byml>)
    requires UniqueKeys(Some(name), src) && forall i :: 0 <= i < |src| ==> !KeyOf(name, src[i]).IsEmpty()
    ensures OwnKeys(name, ValuesOf(PairsAt(name, src, vanilla, NewFrom(name, src, vanilla, 0))))
  {
    hide Kept, KeyOf, IndexFor, UniqueKeys;
    var news := NewFrom(name, src, vanilla, 0);
    forall k, l | 0 <= k < l < |news|
      ensures KeyOf(name, src[news[k]]) != KeyOf(name, src[news[l]])
    {
      KeysApart(name, src, news[k], news[l]);
    }
  }

  lemma RowLaws(c: Context, depth: int, arrayName: Option<string>, name: KeyName, src: seq<Byml>, vanilla: seq<Byml>)
    requires KeyedArray(c, depth, arrayName, name, src, vanilla)
    ensures forall k, j :: 0 <= k < |src| && 0 <= j < |vanilla| && StandsFor(name, src[k], vanilla, j) ==> ItemLaw(c, depth, src[k], vanilla[j])
  {
    forall k, j | 0 <= k < |src| && 0 <= j < |vanilla| && StandsFor(name, src[k], vanilla, j)
      ensures ItemLaw(c, depth, src[k], vanilla[j])
    {
      RebuildsItem(c, depth, src[k], vanilla[j]);
    }
  }

  lemma AllAdditions(rules: Rules, type_: string, depth: int, name: KeyName, src: seq<Byml>, vanilla: seq<Byml>)
    requires forall i :: 0 <= i < |src| ==> !KeyOf(name, src[i]).IsEmpty()
    ensures KeyedOutcome.Additions(KeyedChanges(rules, type_, depth, name, src, vanilla)) == PairsAt(name, src, vanilla, NewFrom(name, src, vanilla, 0))
  {
    hide RowChanges, RowRemovals, KeyOf, KeyedOutcome.Additions, NewFrom;
    var rows, removals := RowChanges(rules, type_, depth, name, src, vanilla, 0, 0), RowRemovals(name, src, vanilla, 0);
    RowsAdded(rules, type_, depth, name, src, vanilla, 0);
    RemovalsAddNothing(name, src, vanilla, 0);
    AdditionsAppend(rows, removals);
  }

  /** The array settles to a splice of its new rows into those kept. */
  lemma KeyedSplices(c: Context, depth: int, arrayName: Option<string>, name: KeyName, src: seq<Byml>, vanilla: seq<Byml>)
    returns (rows: seq<Byml>)
    requires KeyedArray(c, depth, arrayName, name, src, vanilla)
    ensures KeyedSettled(c, depth, name, src, vanilla, rows)
    ensures KeyedResult(c, depth, arrayName, name, src, vanilla)
            == Some(Array(Retained(Interleave(Marked(rows, Unfound(name, src, vanilla, |src|, |vanilla|)), 0,
                                              PairsAt(name, src, vanilla, NewFrom(name, src, vanilla, 0))))))
  {
    hide Normal, Settle, UniqueKeys, ItemLaw, KeyedChanges, Clean, KeyOf, SettleArray, NewFrom, Interleave, KeyedState, Unfound, RebuildableItem,
         PairsAt, KeyedSettled;
    RowLaws(c, depth, arrayName, name, src, vanilla);
    var state, entry := KeyedRuns(c, depth, arrayName, name, src, vanilla);
    rows := SettledRows(c, depth, arrayName, name, src, vanilla, state);
    SettledNode(c, state.items, entry, rows);
    AllAdditions(c.rules, c.type_, depth, name, src, vanilla);
    EntryRecorded(c, depth, arrayName, name, src, vanilla, state, entry);
    EntryIs(c, depth, arrayName, name, src, vanilla, state, entry);
    SpliceOf(c, depth, arrayName, name, src, vanilla, rows, entry);
  }

  /** What is noted for the array in the end. */
  ghost predicate Noted(name: KeyName, src: seq<Byml>, vanilla: seq<Byml>, arrayName: Option<string>, depth: int, entry: Option<ArrayEntry>) {
    var pairs, missing := PairsAt(name, src, vanilla, NewFrom(name, src, vanilla, 0)), Unfound(name, src, vanilla, |src|, |vanilla|);
    if entry.None? then pairs == [] && missing == {}
    else
      && entry.value.removals == missing && Flatten(entry.value.additions) == pairs
      && (entry.value.name == None || (entry.value.name == arrayName && entry.value.depth == depth))
  }

  lemma EntryIs(c: Context, depth: int, arrayName: Option<string>, name: KeyName, src: seq<Byml>, vanilla: seq<Byml>, state: ArrayState,
                entry: Option<ArrayEntry>)
    requires KeyedState(c, depth, arrayName, name, src, vanilla, |src|, state)
    requires entry == WithRemovals(state.entry, Unfound(name, src, vanilla, |src|, |vanilla|))
    requires KeyedOutcome.Recorded(entry, arrayName, depth, KeyedChanges(c.rules, c.type_, depth, name, src, vanilla))
    requires KeyedOutcome.Additions(KeyedChanges(c.rules, c.type_, depth, name, src, vanilla))
             == PairsAt(name, src, vanilla, NewFrom(name, src, vanilla, 0))
    ensures Noted(name, src, vanilla, arrayName, depth, entry)
  {
    hide KeyedChanges, PairsAt, NewFrom, Rebuilt, StandsFor, KeyOf, NewRows, KeyedOutcome.FirstRecorded, KeyedOutcome.Additions;
    var missing := Unfound(name, src, vanilla, |src|, |vanilla|);
    if entry.Some? {
      EntryOf(arrayName, depth, NewRows(name, src, vanilla, |src|), state, missing);
    }
  }

  lemma SpliceOf(c: Context, depth: int, arrayName: Option<string>, name: KeyName, src: seq<Byml>, vanilla: seq<Byml>, rows: seq<Byml>,
                 entry: Option<ArrayEntry>)
    requires KeyedArray(c, depth, arrayName, name, src, vanilla) && Noted(name, src, vanilla, arrayName, depth, entry)
    requires KeyedSettled(c, depth, name, src, vanilla, rows)
    ensures var settled := Retained(Interleave(Marked(rows, Unfound(name, src, vanilla, |src|, |vanilla|)), 0,
                                               PairsAt(name, src, vanilla, NewFrom(name, src, vanilla, 0))));
            if entry.None? then rows == settled else SettleArray(c, rows, entry.value) == Some(settled)
  {
    hide UniqueKeys, KeyOf, Clean, PairsAt, NewFrom, SettleArray, RebuildableItem, StandsFor, OwnKeys, Retained;
    var missing := Unfound(name, src, vanilla, |src|, |vanilla|);
    if entry.None? {
      NothingMissing(name, src, vanilla, rows, missing);
      Nothing(Marked(rows, missing));
    } else {
      NewRowsOwn(name, src, vanilla);
      SortedPairs(name, src, vanilla);
      OwnKeysSettleToSplice(c, name, rows, entry.value);
    }
  }

  lemma EntryRecorded(c: Context, depth: int, arrayName: Option<string>, name: KeyName, src: seq<Byml>, vanilla: seq<Byml>, state: ArrayState,
                      entry: Option<ArrayEntry>)
    requires var keyName := if arrayName.Some? then c.rules.mergerKey(arrayName.value, c.MergeType(), depth) else None;
             MergeChanges(c, depth, arrayName, keyName, ArrayState(Fresh(Array(vanilla)).items, None, None, None),
                          KeyedChanges(c.rules, c.type_, depth, name, src, vanilla)) == Some(state.(entry := entry))
    ensures KeyedOutcome.Recorded(entry, arrayName, depth, KeyedChanges(c.rules, c.type_, depth, name, src, vanilla))
    ensures RemovedRows.RemovedLast(entry, KeyedChanges(c.rules, c.type_, depth, name, src, vanilla))
  {
    hide MergeChanges, KeyedChanges;
    var keyName := if arrayName.Some? then c.rules.mergerKey(arrayName.value, c.MergeType(), depth) else None;
    var start := ArrayState(Fresh(Array(vanilla)).items, None, None, None);
    var changes := KeyedChanges(c.rules, c.type_, depth, name, src, vanilla);
    KeyedOutcome.ChangesRecorded(c, depth, arrayName, keyName, start, [], changes);
    RemovedRows.MentionsRecorded(c, depth, arrayName, keyName, start, [], changes);
    assert [] + changes == changes;
  }

  /** The rows of an array compared by key come back, every one, in the order of their places. */
  lemma KeyedArrayArranged(c: Context, depth: int, arrayName: Option<string>, name: KeyName, src: seq<Byml>, vanilla: seq<Byml>)
    returns (result: seq<Byml>, order: seq<nat>)
    requires KeyedArray(c, depth, arrayName, name, src, vanilla)
    ensures KeyedResult(c, depth, arrayName, name, src, vanilla) == Some(Array(result))
    ensures ByPlace(name, src, vanilla, order) && Arranged(c, depth, result, src, order)
  {
    hide KeyedResult, UniqueKeys, KeyOf, Clean, Interleave, Retained, Marked, PairsAt, NewFrom, Weave, ByPlace, Arranged, RebuildableItem, StandsFor,
         KeyedSettled, Unfound;
    var rows := KeyedSplices(c, depth, arrayName, name, src, vanilla);
    var news := NewFrom(name, src, vanilla, 0);
    var marked, pairs := Marked(rows, Unfound(name, src, vanilla, |src|, |vanilla|)), PairsAt(name, src, vanilla, news);
    result := Retained(Interleave(marked, 0, pairs));
    order := Weave(name, src, vanilla, news, 0);
    assert marked[0..] == marked;
    CleanNoMarks(src);
    WovenRows(c, depth, name, src, vanilla, rows, marked, news, 0);
    WovenByPlace(name, src, vanilla);
  }

  lemma CleanNoMarks(rows: seq<Byml>)
    requires forall i :: 0 <= i < |rows| ==> Clean(rows[i])
    ensures forall i :: 0 <= i < |rows| ==> !rows[i].IsRemove()
  {
  }
}
