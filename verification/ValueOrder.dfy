/** In what order the entries of an array compared by value come back. */
module ValueOrder {
  import opened Documents
  import opened Changelogs
  import opened Pending
  import opened Splice
  import opened KeyedRows
  import opened RoundTrip
  import opened ValueArrays
  import KeyedOrder
  import KeyedOutcome
  import RemovedRows

  // ---------- what is recorded ----------

  lemma {:induction false} EditsAddNothing(rules: Rules, type_: string, depth: int, src: seq<Byml>, vanilla: seq<Byml>, taken: set<nat>,
                                           matched: set<nat>, queue: seq<nat>, i: nat)
    requires i <= |vanilla|
    ensures KeyedOutcome.Additions(ValueChanges(rules, type_, depth, src, vanilla, taken, matched, queue, i).0) == []
    decreases |vanilla| - i
  {
    hide Diff, KeyedOutcome.Additions;
    if i == |vanilla| {
      KeyedOrder.NoAdditions();
    } else if i in taken {
      EditsAddNothing(rules, type_, depth, src, vanilla, taken, matched, queue, i + 1);
    } else {
      var edited := i < |src| && i !in matched;
      var rest := if edited then (if queue == [] then [] else queue[1..]) else queue;
      EditsAddNothing(rules, type_, depth, src, vanilla, taken, matched, rest, i + 1);
      var change := if edited then Change(i, Edit, Diff(rules, type_, depth, src[i], vanilla[i]).0) else Change(i, Remove, NULL);
      KeyedOrder.OneAddition(change);
      KeyedOrder.AdditionsAppend([change], ValueChanges(rules, type_, depth, src, vanilla, taken, matched, rest, i + 1).0);
    }
  }

  lemma {:induction false} AddsAll(index: int, values: seq<Byml>)
    ensures KeyedOutcome.Additions(ValueArrays.Additions(index, values)) == Spread(index, values)
    decreases |values|
  {
    if values != [] {
      var last := |values| - 1;
      AddsAll(index, values[..last]);
      assert ValueArrays.Additions(index, values)[..last] == ValueArrays.Additions(index, values[..last]);
      assert Spread(index, values) == Spread(index, values[..last]) + [(index, values[last])];
    }
  }

  // ---------- where it goes ----------

  lemma {:induction false} NoKeysOneGroup(name: Option<KeyName>, nodes: seq<Byml>)
    requires nodes != [] && Scalars(nodes)
    ensures GroupsBy(Keys(name, nodes)) == [(NO_KEY, nodes)]
    decreases |nodes|
  {
    var last := |nodes| - 1;
    var front := nodes[..last];
    assert nodes[last].Leaf?;
    assert Keys(name, nodes)[..last] == Keys(name, front);
    assert nodes == front + [nodes[last]];
    if last > 0 {
      NoKeysOneGroup(name, front);
    } else {
      assert front == [] && Keys(name, front) == [];
      assert GroupsBy(Keys(name, front)) == [];
    }
  }

  lemma {:induction false} OneIndexGroup(index: int, values: seq<Byml>)
    requires values != []
    ensures GroupsBy(Spread(index, values)) == [(index, values)] && SortGroups([(index, values)]) == [(index, values)]
    decreases |values|
  {
    var last := |values| - 1;
    var front := values[..last];
    var none: seq<(int, seq<Byml>)> := [];
    assert [(index, values)][..0] == none;
    assert Spread(index, values)[..last] == Spread(index, front);
    assert values == front + [values[last]];
    if last > 0 {
      OneIndexGroup(index, front);
    } else {
      assert front == [] && Spread(index, front) == [];
      assert GroupsBy(Spread(index, front)) == none;
    }
  }

  /** Scalars all added at one index are inserted there, whatever the tables say of the array. */
  lemma ScalarsSplice(c: Context, rows: seq<Byml>, entry: ArrayEntry, index: int, values: seq<Byml>)
    requires Scalars(values) && Flatten(entry.additions) == Spread(index, values)
    ensures SettleArray(c, rows, entry) == Some(Retained(Interleave(Marked(rows, entry.removals), 0, Spread(index, values))))
  {
    hide Interleave, Retained, InsertAll, KeyedGroup;
    var marked, bound := Marked(rows, entry.removals), EntryHeight(entry);
    var start := Settling(marked, 0, map[]);
    if values == [] {
      assert Spread(index, values) == [];
      assert SortGroups(GroupsBy(Spread(index, values))) == [];
      NothingWoven(marked, 0);
    } else {
      OneIndexGroup(index, values);
      NothingWoven(marked, 0);
      InsertAllInterleaves(marked, start, [], index, values);
      assert [] + Spread(index, values) == Spread(index, values);
      OneGroupSettles(c, entry, bound, start, index, values);
    }
  }

  lemma NothingWoven(rows: seq<Byml>, first: nat)
    ensures Interleave(rows, first, []) == rows
  {
  }

  lemma OneGroupSettles(c: Context, entry: ArrayEntry, bound: nat, start: Settling, index: int, values: seq<Byml>)
    requires Scalars(values) && values != []
    ensures SettleGroups(c, entry.name, entry.depth, bound, start, [(index, values)]) == Some(InsertAll(start, index, values))
  {
    hide InsertAll, KeyedGroups, GroupsBy, Keys;
    var groups: seq<(int, seq<Byml>)> := [(index, values)];
    assert groups[..0] == [];
    assert SettleGroups(c, entry.name, entry.depth, bound, start, groups[..0]) == Some(start);
    if entry.name.Some? {
      var name := c.rules.mergerKey(entry.name.value, c.ApplyType(), entry.depth);
      NoKeysOneGroup(name, values);
      NoKeysSettle(c, entry.depth, bound, start, index, values);
    }
  }

  lemma NoKeysSettle(c: Context, depth: int, bound: nat, s: Settling, index: int, values: seq<Byml>)
    requires values != []
    ensures KeyedGroups(c, depth, bound, s, index, [(NO_KEY, values)]) == Some(InsertAll(s, index, values))
  {
    hide InsertAll;
    var keyed: seq<(RowKey, seq<Byml>)> := [(NO_KEY, values)];
    assert keyed[..0] == [];
    assert KeyedGroups(c, depth, bound, s, index, keyed[..0]) == Some(s);
  }

  function Least(a: nat, b: nat): nat { if a < b then a else b }

  lemma {:induction false} WovenAt(rows: seq<Byml>, first: nat, index: int, values: seq<Byml>)
    requires first <= index
    ensures Interleave(rows, first, Spread(index, values)) == PutAt(rows, Least(index - first, |rows|), values)
    decreases |rows| + |values|
  {
    hide Spread, PutAt;
    var at := Least(index - first, |rows|);
    if values == [] {
      NothingSpread(index);
      NothingWoven(rows, first);
      PutNothing(rows, at);
    } else if rows == [] || index <= first {
      SpreadStep(index, values);
      WovenAt(rows, first, index, values[1..]);
      PutFirst(rows, values);
    } else {
      SpreadStep(index, values);
      WovenAt(rows[1..], first + 1, index, values);
      PutLater(rows, at, values);
    }
  }

  function PutAt(rows: seq<Byml>, at: nat, values: seq<Byml>): seq<Byml>
    requires at <= |rows|
  {
    rows[..at] + values + rows[at..]
  }

  lemma PutNothing(rows: seq<Byml>, at: nat)
    requires at <= |rows|
    ensures PutAt(rows, at, []) == rows
  {
  }

  lemma PutFirst(rows: seq<Byml>, values: seq<Byml>)
    requires values != []
    ensures PutAt(rows, 0, values) == [values[0]] + PutAt(rows, 0, values[1..])
  {
  }

  lemma PutLater(rows: seq<Byml>, at: nat, values: seq<Byml>)
    requires 0 < at <= |rows|
    ensures PutAt(rows, at, values) == [rows[0]] + PutAt(rows[1..], at - 1, values)
  {
  }

  lemma NothingSpread(index: int)
    ensures Spread<int, Byml>(index, []) == []
  {
  }

  lemma SpreadStep(index: int, values: seq<Byml>)
    requires values != []
    ensures Spread(index, values) != [] && Spread(index, values)[0] == (index, values[0])
    ensures Spread(index, values)[1..] == Spread(index, values[1..])
  {
  }

  lemma {:induction false} RetainedAppend(a: seq<Byml>, b: seq<Byml>)
    ensures Retained(a + b) == Retained(a) + Retained(b)
    decreases |b|
  {
    if b == [] {
      assert a + b == a;
    } else {
      var last := |b| - 1;
      assert (a + b)[..|a| + last] == a + b[..last];
      RetainedAppend(a, b[..last]);
    }
  }

  // ---------- what stands ----------

  /** The entries of vanilla's positions that stand: those the mod has too, and the mod's own where it edits. */
  function Standing(src: seq<Byml>, vanilla: seq<Byml>, taken: set<nat>, matched: set<nat>, from: nat, end: nat): seq<Byml>
    requires from <= end <= |vanilla|
    decreases end - from
  {
    if from == end then []
    else
      Standing(src, vanilla, taken, matched, from, end - 1)
      + if end - 1 in taken then [vanilla[end - 1]] else if IsEdited(src, taken, matched, end - 1) then [src[end - 1]] else []
  }

  lemma {:induction false} StandingIs(src: seq<Byml>, vanilla: seq<Byml>, taken: set<nat>, matched: set<nat>, from: nat, end: nat)
    requires from <= end <= |vanilla| && Scalars(src) && Scalars(vanilla)
    ensures var marked := Marked(RowsTo(src, vanilla, taken, matched, |vanilla|), RemovedTo(src, taken, matched, |vanilla|));
            Retained(marked[from..end]) == Standing(src, vanilla, taken, matched, from, end)
    decreases end - from
  {
    hide RowsTo, RemovedTo, Retained;
    var marked := Marked(RowsTo(src, vanilla, taken, matched, |vanilla|), RemovedTo(src, taken, matched, |vanilla|));
    if from < end {
      StandingIs(src, vanilla, taken, matched, from, end - 1);
      assert marked[from..end] == marked[from..end - 1] + [marked[end - 1]];
      RetainedMore(marked[from..end - 1], marked[end - 1]);
      OneStands(src, vanilla, taken, matched, end - 1);
    } else {
      RetainedAll(marked[from..end]);
    }
  }

  lemma RetainedMore(rows: seq<Byml>, row: Byml)
    ensures Retained(rows + [row]) == Retained(rows) + if row.IsRemove() then [] else [row]
  {
    assert (rows + [row])[..|rows|] == rows;
  }

  lemma OneStands(src: seq<Byml>, vanilla: seq<Byml>, taken: set<nat>, matched: set<nat>, i: nat)
    requires i < |vanilla| && Scalars(src) && Scalars(vanilla)
    ensures var row := Marked(RowsTo(src, vanilla, taken, matched, |vanilla|), RemovedTo(src, taken, matched, |vanilla|))[i];
            if i in taken then row == vanilla[i] && !row.IsRemove()
            else if IsEdited(src, taken, matched, i) then row == src[i] && !row.IsRemove()
            else row.IsRemove()
  {
  }

  /** The positions of the mod's entries that are neither matched nor put in by an edit. */
  ghost function LeftOver(src: seq<Byml>, vanilla: seq<Byml>): seq<nat> {
    var (taken, matched) := Matched(src, vanilla, |src|);
    Drop(Unmatched(matched, 0, |src|), |Edited(src, |vanilla|, taken, matched, 0)|)
  }

  function At(src: seq<Byml>, positions: seq<nat>): seq<Byml> {
    seq(|positions|, k requires 0 <= k < |positions| => if positions[k] < |src| then src[positions[k]] else NULL)
  }

  function FirstOf(positions: seq<nat>): (first: int)
    ensures 0 <= first
  {
    if positions == [] then 0 else positions[0]
  }

  /** The array of scalars a changelog by value gives: what stands, with everything else the mod adds put in one place, where the
      first of it was in the mod's array. */
  ghost function Arrangement(src: seq<Byml>, vanilla: seq<Byml>): seq<Byml> {
    var (taken, matched) := Matched(src, vanilla, |src|);
    var left := LeftOver(src, vanilla);
    var at := Least(FirstOf(left), |vanilla|);
    Standing(src, vanilla, taken, matched, 0, at) + At(src, left) + Standing(src, vanilla, taken, matched, at, |vanilla|)
  }

  lemma NothingRecorded(name: Option<string>, depth: int)
    ensures KeyedOutcome.Recorded(None, name, depth, [])
  {
  }

  lemma ValueArrayArranged(c: Context, depth: int, name: Option<string>, src: seq<Byml>, vanilla: seq<Byml>)
    requires Scalars(src) && Scalars(vanilla)
    ensures var tree := MergeArray(c, depth, name, FreshAll(vanilla), None, DefaultChanges(c.rules, c.type_, depth, src, vanilla));
            tree.Some? && Settle(c, tree.value) == Some(Array(Arrangement(src, vanilla)))
  {
    hide Matched, MergeChanges, Settle, DefaultChanges, StateTo, AddedTo, LeftOver, At, Standing, Flatten, Spread;
    var (taken, matched) := Matched(src, vanilla, |src|);
    var left := LeftOver(src, vanilla);
    var after := ValuesMerged(c, depth, name, src, vanilla);
    StateArranged(c, depth, name, src, vanilla, taken, matched, StateTo(src, vanilla, taken, matched, |vanilla|), after, FirstOf(left),
                  At(src, left));
  }

  /** Merging the changelog leaves what stands, with the values left over recorded at one index. */
  lemma ValuesMerged(c: Context, depth: int, name: Option<string>, src: seq<Byml>, vanilla: seq<Byml>) returns (after: ArrayState)
    requires Scalars(src) && Scalars(vanilla)
    ensures var (taken, matched) := Matched(src, vanilla, |src|);
            var left := LeftOver(src, vanilla);
            && MergeArray(c, depth, name, FreshAll(vanilla), None, DefaultChanges(c.rules, c.type_, depth, src, vanilla))
               == Some(PArray(after.items, after.entry))
            && Scalars(At(src, left))
            && AddedTo(StateTo(src, vanilla, taken, matched, |vanilla|), after, depth, name, At(src, left))
            && (after.entry.Some? ==> Flatten(after.entry.value.additions) == Spread(FirstOf(left), At(src, left)))
  {
    hide Matched, Edited, Unmatched, MergeChanges, ValueChanges, RowsTo, AddedTo, RemovedTo, KeyedOutcome.Additions, Flatten, Spread;
    var (taken, matched) := Matched(src, vanilla, |src|);
    var keyName := if name.Some? then c.rules.mergerKey(name.value, c.MergeType(), depth) else None;
    var queue := Unmatched(matched, 0, |src|);
    var (changes, left) := ValueChanges(c.rules, c.type_, depth, src, vanilla, taken, matched, queue, 0);
    LeftIs(c.rules, c.type_, depth, src, vanilla, taken, matched, queue, 0);
    LeftInRange(left, queue, |src|);
    var start, mid := StateTo(src, vanilla, taken, matched, 0), StateTo(src, vanilla, taken, matched, |vanilla|);
    StartState(src, vanilla, taken, matched);
    ChangesRun(c, depth, name, keyName, src, vanilla, taken, matched, queue, 0);
    var values := At(src, left);
    var adds := ValueArrays.Additions(FirstOf(left), values);
    AdditionsRun(c, depth, name, keyName, mid, RemovedTo(src, taken, matched, |vanilla|), FirstOf(left), values);
    MergeChangesAppend(c, depth, name, keyName, start, changes, adds);
    ChangesAre(c.rules, c.type_, depth, src, vanilla);
    after := MergeChanges(c, depth, name, keyName, mid, adds).value;
    EditsAddNothing(c.rules, c.type_, depth, src, vanilla, taken, matched, queue, 0);
    AddsAll(FirstOf(left), values);
    OneListRecorded(c, depth, name, keyName, start, changes, adds, Spread(FirstOf(left), values));
  }

  lemma ChangesAre(rules: Rules, type_: string, depth: int, src: seq<Byml>, vanilla: seq<Byml>)
    ensures var (taken, matched) := Matched(src, vanilla, |src|);
            var (changes, left) := ValueChanges(rules, type_, depth, src, vanilla, taken, matched, Unmatched(matched, 0, |src|), 0);
            DefaultChanges(rules, type_, depth, src, vanilla) == changes + ValueArrays.Additions(FirstOf(left), At(src, left))
  {
    hide Matched, Unmatched, ValueChanges;
    var (taken, matched) := Matched(src, vanilla, |src|);
    var queue := Unmatched(matched, 0, |src|);
    var (changes, left) := ValueChanges(rules, type_, depth, src, vanilla, taken, matched, queue, 0);
    LeftInRange(left, queue, |src|);
    assert seq(|left|, k requires 0 <= k < |left| => Change(left[0], Add, src[left[k]])) == ValueArrays.Additions(FirstOf(left), At(src, left));
  }

  lemma OneListRecorded(c: Context, depth: int, name: Option<string>, keyName: Option<KeyName>, start: ArrayState,
                        changes: seq<ArrayChange>, adds: seq<ArrayChange>, spread: seq<(int, Byml)>)
    requires start.entry == None && start.list == None && MergeChanges(c, depth, name, keyName, start, changes + adds).Some?
    requires KeyedOutcome.Additions(changes) == [] && KeyedOutcome.Additions(adds) == spread
    ensures var after := MergeChanges(c, depth, name, keyName, start, changes + adds).value;
            after.entry.Some? ==> Flatten(after.entry.value.additions) == spread
  {
    hide MergeChanges, KeyedOutcome.Additions, KeyedOutcome.FirstRecorded, Flatten;
    KeyedOrder.AdditionsAppend(changes, adds);
    NothingRecorded(name, depth);
    KeyedOutcome.ChangesRecorded(c, depth, name, keyName, start, [], changes + adds);
    assert [] + (changes + adds) == changes + adds && [] + spread == spread;
  }

  lemma StateArranged(c: Context, depth: int, name: Option<string>, src: seq<Byml>, vanilla: seq<Byml>, taken: set<nat>, matched: set<nat>,
                      mid: ArrayState, after: ArrayState, index: int, values: seq<Byml>)
    requires 0 <= index && Scalars(src) && Scalars(vanilla) && Scalars(values)
    requires mid == StateTo(src, vanilla, taken, matched, |vanilla|) && AddedTo(mid, after, depth, name, values)
    requires after.entry.Some? ==> Flatten(after.entry.value.additions) == Spread(index, values)
    ensures var at := Least(index, |vanilla|);
            Settle(c, PArray(after.items, after.entry))
            == Some(Array(Standing(src, vanilla, taken, matched, 0, at) + values + Standing(src, vanilla, taken, matched, at, |vanilla|)))
  {
    hide Settle, RowsTo, SettleArray, Marked, Retained, RemovedTo, Standing, Interleave;
    var rows, removed := RowsTo(src, vanilla, taken, matched, |vanilla|), RemovedTo(src, taken, matched, |vanilla|);
    var at, marked := Least(index, |vanilla|), Marked(rows, removed);
    FreshAllSettle(c, rows);
    SettledNode(c, after.items, after.entry, rows);
    Parts(src, vanilla, taken, matched, at, values);
    MarkedLength(rows, removed);
    WovenAt(marked, 0, index, values);
    if after.entry.Some? {
      EntryValues(mid, after, depth, name, values);
      ScalarsSplice(c, rows, after.entry.value, index, values);
    } else {
      NothingMarked(src, vanilla, taken, matched, rows, removed);
      assert marked[..at] + values + marked[at..] == marked;
    }
  }

  lemma MarkedLength(rows: seq<Byml>, removed: set<int>)
    ensures |Marked(rows, removed)| == |rows|
  {
  }

  lemma Parts(src: seq<Byml>, vanilla: seq<Byml>, taken: set<nat>, matched: set<nat>, at: nat, values: seq<Byml>)
    requires at <= |vanilla| && Scalars(src) && Scalars(vanilla) && Scalars(values)
    ensures var marked := Marked(RowsTo(src, vanilla, taken, matched, |vanilla|), RemovedTo(src, taken, matched, |vanilla|));
            |marked| == |vanilla|
            && Retained(marked[..at] + values + marked[at..])
               == Standing(src, vanilla, taken, matched, 0, at) + values + Standing(src, vanilla, taken, matched, at, |vanilla|)
  {
    hide RowsTo, RemovedTo, Standing, Retained;
    var marked := Marked(RowsTo(src, vanilla, taken, matched, |vanilla|), RemovedTo(src, taken, matched, |vanilla|));
    StandingIs(src, vanilla, taken, matched, 0, at);
    StandingIs(src, vanilla, taken, matched, at, |vanilla|);
    assert marked[0..at] == marked[..at] && marked[at..|vanilla|] == marked[at..];
    RetainedAppend(marked[..at] + values, marked[at..]);
    RetainedAppend(marked[..at], values);
    RetainedAll(values);
  }

  // ---------- one stretch replaced by another ----------

  function Between(low: nat, high: nat): (between: set<nat>)
    ensures forall k :: k in between <==> low <= k < high
  {
    if high <= low then {} else Between(low, high - 1) + {high - 1}
  }

  /** No value of one list is in the other. */
  ghost predicate Apart(xs: seq<Byml>, ys: seq<Byml>) { forall i, k :: 0 <= i < |xs| && 0 <= k < |ys| ==> xs[i] != ys[k] }

  ghost function TakenSoFar(p: nat, g: nat, n: nat, i: nat): set<nat> {
    if i <= p then Between(0, i) else if i <= p + n then Between(0, p) else Between(0, p) + Between(p + g, g + i - n)
  }

  ghost function MatchedSoFar(p: nat, n: nat, i: nat): set<nat> {
    if i <= p then Between(0, i) else if i <= p + n then Between(0, p) else Between(0, p) + Between(p + n, i)
  }

  /** What is before and after the stretch is matched in order. */
  lemma {:induction false} StretchMatched(a: seq<Byml>, gone: seq<Byml>, news: seq<Byml>, b: seq<Byml>, i: nat)
    requires i <= |a + news + b| && Apart(news, gone + b) && Apart(gone, b)
    ensures Matched(a + news + b, a + gone + b, i) == (TakenSoFar(|a|, |gone|, |news|, i), MatchedSoFar(|a|, |news|, i))
  {
    var src, vanilla := a + news + b, a + gone + b;
    var p, g, n := |a|, |gone|, |news|;
    if i > 0 {
      StretchMatched(a, gone, news, b, i - 1);
      var (taken, matched) := Matched(src, vanilla, i - 1);
      var j := FirstFree(vanilla, taken, src[i - 1], 0);
      StretchNext(a, gone, news, b, i - 1, j);
    }
  }

  lemma StretchNext(a: seq<Byml>, gone: seq<Byml>, news: seq<Byml>, b: seq<Byml>, i: nat, j: nat)
    requires i < |a + news + b| && Apart(news, gone + b) && Apart(gone, b)
    requires j == FirstFree(a + gone + b, TakenSoFar(|a|, |gone|, |news|, i), (a + news + b)[i], 0)
    ensures var p, g, n := |a|, |gone|, |news|;
            var taken, matched := TakenSoFar(p, g, n, i), MatchedSoFar(p, n, i);
            (TakenSoFar(p, g, n, i + 1), MatchedSoFar(p, n, i + 1))
            == if j < |a + gone + b| then (taken + {j}, matched + {i}) else (taken, matched)
  {
    hide FirstFree, Apart, Between, TakenSoFar, MatchedSoFar;
    var p, g, n := |a|, |gone|, |news|;
    SoFarNext(p, g, n, i);
    if i < p {
      assert TakenSoFar(p, g, n, i) == Between(0, i) by { SoFarBefore(p, g, n, i); }
      NextBefore(a, gone, news, b, i, j);
    } else if i < p + n {
      assert TakenSoFar(p, g, n, i) == Between(0, p) by { SoFarInside(p, g, n, i); }
      NextNew(a, gone, news, b, i, j);
    } else {
      NextAfter(a, gone, news, b, i, j);
    }
  }

  lemma SoFarBefore(p: nat, g: nat, n: nat, i: nat)
    requires i < p
    ensures TakenSoFar(p, g, n, i) == Between(0, i)
  {
  }

  lemma SoFarInside(p: nat, g: nat, n: nat, i: nat)
    requires p <= i < p + n
    ensures TakenSoFar(p, g, n, i) == Between(0, p)
  {
  }

  lemma SoFarNext(p: nat, g: nat, n: nat, i: nat)
    ensures p <= i < p + n ==> TakenSoFar(p, g, n, i + 1) == TakenSoFar(p, g, n, i) && MatchedSoFar(p, n, i + 1) == MatchedSoFar(p, n, i)
    ensures i < p ==> TakenSoFar(p, g, n, i + 1) == TakenSoFar(p, g, n, i) + {i} && MatchedSoFar(p, n, i + 1) == MatchedSoFar(p, n, i) + {i}
    ensures p + n <= i ==>
              && TakenSoFar(p, g, n, i + 1) == TakenSoFar(p, g, n, i) + {g + i - n}
              && MatchedSoFar(p, n, i + 1) == MatchedSoFar(p, n, i) + {i}
  {
    if p + n <= i {
      assert Between(p + g, g + i - n + 1) == Between(p + g, g + i - n) + {g + i - n};
      assert Between(p + n, i + 1) == Between(p + n, i) + {i};
    }
  }

  lemma NextBefore(a: seq<Byml>, gone: seq<Byml>, news: seq<Byml>, b: seq<Byml>, i: nat, j: nat)
    requires i < |a|
    requires j == FirstFree(a + gone + b, Between(0, i), (a + news + b)[i], 0)
    ensures j == i
  {
    hide FirstFree;
    var vanilla := a + gone + b;
    assert vanilla[i] == (a + news + b)[i] && i !in Between(0, i);
  }

  lemma NextNew(a: seq<Byml>, gone: seq<Byml>, news: seq<Byml>, b: seq<Byml>, i: nat, j: nat)
    requires |a| <= i < |a| + |news| && Apart(news, gone + b)
    requires j == FirstFree(a + gone + b, Between(0, |a|), (a + news + b)[i], 0)
    ensures j == |a + gone + b|
  {
    hide FirstFree;
    var vanilla := a + gone + b;
    assert (a + news + b)[i] == news[i - |a|];
    forall k | |a| <= k < |vanilla|
      ensures vanilla[k] != (a + news + b)[i]
    {
      assert vanilla[k] == (gone + b)[k - |a|];
    }
  }

  lemma NextAfter(a: seq<Byml>, gone: seq<Byml>, news: seq<Byml>, b: seq<Byml>, i: nat, j: nat)
    requires |a| + |news| <= i < |a + news + b| && Apart(gone, b)
    requires j == FirstFree(a + gone + b, TakenSoFar(|a|, |gone|, |news|, i), (a + news + b)[i], 0)
    ensures j == |gone| + i - |news|
  {
    hide FirstFree;
    var vanilla, k := a + gone + b, i - |a| - |news|;
    assert (a + news + b)[i] == b[k] && vanilla[|a| + |gone| + k] == b[k];
    forall at | |a| <= at < |a| + |gone|
      ensures vanilla[at] != b[k]
    {
      assert vanilla[at] == gone[at - |a|];
    }
  }

  function Up(low: nat, high: nat): seq<nat>
    requires low <= high
  {
    seq(high - low, k requires 0 <= k => low + k)
  }

  lemma {:induction false} UnmatchedIs(matched: set<nat>, low: nat, high: nat, i: nat, end: nat)
    requires low <= high <= end && i <= end && forall k :: 0 <= k < end ==> (k in matched <==> !(low <= k < high))
    ensures Unmatched(matched, i, end) == Up(if i <= low then low else if i <= high then i else high, high)
    decreases end - i
  {
    hide Up;
    if i < end {
      UnmatchedIs(matched, low, high, i + 1, end);
      if low <= i < high { UpStep(i, high); }
    } else {
      assert Up(high, high) == [] by { UpNone(high); }
    }
  }

  lemma UpStep(low: nat, high: nat)
    requires low < high
    ensures Up(low, high) == [low] + Up(low + 1, high)
  {
  }

  lemma UpNone(low: nat)
    ensures Up(low, low) == []
  {
  }

  lemma {:induction false} EditedCount(src: seq<Byml>, n: nat, taken: set<nat>, matched: set<nat>, low: nat, high: nat, i: nat)
    requires low <= high <= n && i <= n && forall k: nat :: k < n ==> (IsEdited(src, taken, matched, k) <==> low <= k < high)
    ensures |Edited(src, n, taken, matched, i)| == high - if i <= low then low else if i <= high then i else high
    decreases n - i
  {
    hide IsEdited;
    if i < n { EditedCount(src, n, taken, matched, low, high, i + 1); }
  }

  lemma {:induction false} StandingJoined(src: seq<Byml>, vanilla: seq<Byml>, taken: set<nat>, matched: set<nat>, from: nat, mid: nat, end: nat)
    requires from <= mid <= end <= |vanilla|
    ensures Standing(src, vanilla, taken, matched, from, end)
            == Standing(src, vanilla, taken, matched, from, mid) + Standing(src, vanilla, taken, matched, mid, end)
    decreases end - mid
  {
    if mid < end { StandingJoined(src, vanilla, taken, matched, from, mid, end - 1); }
  }

  lemma {:induction false} StandingTaken(src: seq<Byml>, vanilla: seq<Byml>, taken: set<nat>, matched: set<nat>, from: nat, end: nat)
    requires from <= end <= |vanilla| && forall k: nat :: from <= k < end ==> k in taken
    ensures Standing(src, vanilla, taken, matched, from, end) == vanilla[from..end]
    decreases end - from
  {
    if from < end {
      StandingTaken(src, vanilla, taken, matched, from, end - 1);
      assert vanilla[from..end] == vanilla[from..end - 1] + [vanilla[end - 1]];
    }
  }

  lemma {:induction false} StandingEdited(src: seq<Byml>, vanilla: seq<Byml>, taken: set<nat>, matched: set<nat>, from: nat, end: nat)
    requires from <= end <= |vanilla| && end <= |src| && forall k: nat :: from <= k < end ==> IsEdited(src, taken, matched, k)
    ensures Standing(src, vanilla, taken, matched, from, end) == src[from..end]
    decreases end - from
  {
    if from < end {
      StandingEdited(src, vanilla, taken, matched, from, end - 1);
      assert src[from..end] == src[from..end - 1] + [src[end - 1]];
    }
  }

  lemma {:induction false} StandingNone(src: seq<Byml>, vanilla: seq<Byml>, taken: set<nat>, matched: set<nat>, from: nat, end: nat)
    requires from <= end <= |vanilla|
    requires forall k: nat :: from <= k < end ==> k !in taken && !IsEdited(src, taken, matched, k)
    ensures Standing(src, vanilla, taken, matched, from, end) == []
    decreases end - from
  {
    if from < end { StandingNone(src, vanilla, taken, matched, from, end - 1); }
  }

  /** With one stretch of vanilla's entries replaced by another, everything is where the mod has it. */
  lemma StretchArranged(a: seq<Byml>, gone: seq<Byml>, news: seq<Byml>, b: seq<Byml>)
    requires Apart(news, gone + b) && Apart(gone, b)
    ensures Arrangement(a + news + b, a + gone + b) == a + news + b
  {
    hide Matched, Standing, Drop, Edited, Unmatched, Apart, LeftOver, FirstOf, Up, At;
    var src, vanilla := a + news + b, a + gone + b;
    var p, g, n := |a|, |gone|, |news|;
    var (taken, matched) := Matched(src, vanilla, |src|);
    var least := if g < n then g else n;
    StretchMatched(a, gone, news, b, |src|);
    WhichTaken(p, g, n, |b|, src, taken, matched);
    UnmatchedIs(matched, p, p + n, 0, |src|);
    EditedCount(src, |vanilla|, taken, matched, p, p + least, 0);
    DropUp(p, p + n, least);
    AtUp(src, p + least, p + n);
    assert LeftOver(src, vanilla) == Up(p + least, p + n) by { LeftOverIs(src, vanilla); }
    FirstUp(p + least, p + n);
    StretchStands(a, gone, news, b, taken, matched, least);
    PutTogether(a, gone, news, b, taken, matched);
  }

  lemma WhichTaken(p: nat, g: nat, n: nat, m: nat, src: seq<Byml>, taken: set<nat>, matched: set<nat>)
    requires |src| == p + n + m && taken == TakenSoFar(p, g, n, |src|) && matched == MatchedSoFar(p, n, |src|)
    ensures forall k: nat :: k < p + g + m ==> (k in taken <==> !(p <= k < p + g))
    ensures forall k: nat :: k < p + n + m ==> (k in matched <==> !(p <= k < p + n))
    ensures forall k: nat :: k < p + g + m ==> (IsEdited(src, taken, matched, k) <==> p <= k < p + if g < n then g else n)
  {
  }

  lemma DropUp(low: nat, high: nat, count: nat)
    requires low + count <= high
    ensures Drop(Up(low, high), count) == Up(low + count, high)
  {
  }

  lemma AtUp(src: seq<Byml>, low: nat, high: nat)
    requires low <= high <= |src|
    ensures At(src, Up(low, high)) == src[low..high]
  {
  }

  lemma FirstUp(low: nat, high: nat)
    requires low <= high
    ensures FirstOf(Up(low, high)) == if low == high then 0 else low
  {
  }

  lemma LeftOverIs(src: seq<Byml>, vanilla: seq<Byml>)
    ensures var (taken, matched) := Matched(src, vanilla, |src|);
            LeftOver(src, vanilla) == Drop(Unmatched(matched, 0, |src|), |Edited(src, |vanilla|, taken, matched, 0)|)
  {
  }

  /** The parts of what stands. */
  lemma StretchParts(src: seq<Byml>, vanilla: seq<Byml>, taken: set<nat>, matched: set<nat>, p: nat, r: nat, q: nat)
    requires p <= r <= q <= |vanilla| && r <= |src|
    requires forall k: nat :: k < |vanilla| ==> (k in taken <==> !(p <= k < q))
    requires forall k: nat :: k < |vanilla| ==> (IsEdited(src, taken, matched, k) <==> p <= k < r)
    ensures Standing(src, vanilla, taken, matched, 0, q) == vanilla[..p] + src[p..r]
    ensures Standing(src, vanilla, taken, matched, q, |vanilla|) == vanilla[q..]
    ensures Standing(src, vanilla, taken, matched, 0, |vanilla|) == vanilla[..p] + src[p..r] + vanilla[q..]
    ensures Standing(src, vanilla, taken, matched, 0, 0) == []
  {
    hide IsEdited;
    StandingTaken(src, vanilla, taken, matched, 0, p);
    StandingEdited(src, vanilla, taken, matched, p, r);
    StandingNone(src, vanilla, taken, matched, r, q);
    StandingTaken(src, vanilla, taken, matched, q, |vanilla|);
    StandingJoined(src, vanilla, taken, matched, p, r, q);
    StandingJoined(src, vanilla, taken, matched, 0, p, q);
    StandingJoined(src, vanilla, taken, matched, 0, q, |vanilla|);
  }

  lemma StretchStands(a: seq<Byml>, gone: seq<Byml>, news: seq<Byml>, b: seq<Byml>, taken: set<nat>, matched: set<nat>, least: nat)
    requires least == if |gone| < |news| then |gone| else |news|
    requires var src, vanilla := a + news + b, a + gone + b;
            && (forall k: nat :: k < |vanilla| ==> (k in taken <==> !(|a| <= k < |a| + |gone|)))
            && (forall k: nat :: k < |vanilla| ==> (IsEdited(src, taken, matched, k) <==> |a| <= k < |a| + least))
    ensures var src, vanilla := a + news + b, a + gone + b;
            && Standing(src, vanilla, taken, matched, 0, |a| + |gone|) == a + news[..least]
            && Standing(src, vanilla, taken, matched, |a| + |gone|, |vanilla|) == b
            && Standing(src, vanilla, taken, matched, 0, |vanilla|) == a + news[..least] + b
            && Standing(src, vanilla, taken, matched, 0, 0) == []
  {
    hide IsEdited, Standing;
    StretchParts(a + news + b, a + gone + b, taken, matched, |a|, |a| + least, |a| + |gone|);
    Cuts(a, gone, b);
    CutTo(a, news, b, least);
  }

  lemma Cuts(a: seq<Byml>, x: seq<Byml>, b: seq<Byml>)
    ensures (a + x + b)[..|a|] == a && (a + x + b)[|a| + |x|..] == b
  {
  }

  lemma CutTo(a: seq<Byml>, x: seq<Byml>, b: seq<Byml>, n: nat)
    requires n <= |x|
    ensures (a + x + b)[|a|..|a| + n] == x[..n]
  {
  }

  lemma PutTogether(a: seq<Byml>, gone: seq<Byml>, news: seq<Byml>, b: seq<Byml>, taken: set<nat>, matched: set<nat>)
    ensures |news| <= |gone| ==> a + news[..|news|] + b == a + news + b
    ensures |gone| < |news| ==>
              a + news[..|gone|] + (a + news + b)[|a| + |gone|..|a| + |news|] + b == a + news + b
  {
    if |gone| < |news| {
      assert (a + news + b)[|a| + |gone|..|a| + |news|] == news[|gone|..];
      assert news[..|gone|] + news[|gone|..] == news;
    }
  }

  /** An array of scalars in which one stretch is replaced by another comes back as the mod has it. */
  lemma StretchComesBack(c: Context, depth: int, name: Option<string>, a: seq<Byml>, gone: seq<Byml>, news: seq<Byml>, b: seq<Byml>)
    requires Scalars(a) && Scalars(gone) && Scalars(news) && Scalars(b) && Apart(news, gone + b) && Apart(gone, b)
    ensures var src, vanilla := a + news + b, a + gone + b;
            var tree := MergeArray(c, depth, name, FreshAll(vanilla), None, DefaultChanges(c.rules, c.type_, depth, src, vanilla));
            tree.Some? && Settle(c, tree.value) == Some(Array(src))
  {
    hide Arrangement, Settle, MergeArray, DefaultChanges, FreshAll, Apart;
    StretchArranged(a, gone, news, b);
    ValueArrayArranged(c, depth, name, a + news + b, a + gone + b);
  }

  /** Entries added in two places come back in one: around `x` the mod has `y` and `z`, and both come before it. */
  lemma TwoPlacesJoined(c: Context, depth: int, name: Option<string>, x: Scalar, y: Scalar, z: Scalar)
    requires x != y && x != z
    ensures var src, vanilla := [Leaf(y), Leaf(x), Leaf(z)], [Leaf(x)];
            var tree := MergeArray(c, depth, name, FreshAll(vanilla), None, DefaultChanges(c.rules, c.type_, depth, src, vanilla));
            tree.Some? && Settle(c, tree.value) == Some(Array([Leaf(y), Leaf(z), Leaf(x)]))
  {
    hide Settle, MergeArray, DefaultChanges, FreshAll, Matched, LeftOver;
    var src, vanilla := [Leaf(y), Leaf(x), Leaf(z)], [Leaf(x)];
    ValueArrayArranged(c, depth, name, src, vanilla);
    MatchedOne(x, y, z);
    var left := LeftOver(src, vanilla);
    assert left == [0, 2] && At(src, left) == [Leaf(y), Leaf(z)];
    assert Standing(src, vanilla, {0}, {1}, 0, 0) == [] && Standing(src, vanilla, {0}, {1}, 0, 1) == [Leaf(x)];
    assert Arrangement(src, vanilla) == [Leaf(y), Leaf(z), Leaf(x)];
  }

  lemma MatchedOne(x: Scalar, y: Scalar, z: Scalar)
    requires x != y && x != z
    ensures var src, vanilla := [Leaf(y), Leaf(x), Leaf(z)], [Leaf(x)];
            Matched(src, vanilla, 3) == ({0}, {1}) && LeftOver(src, vanilla) == [0, 2]
  {
    var src, vanilla := [Leaf(y), Leaf(x), Leaf(z)], [Leaf(x)];
    assert FirstFree(vanilla, {}, src[0], 0) == 1 && FirstFree(vanilla, {}, src[1], 0) == 0 && FirstFree(vanilla, {0}, src[2], 0) == 1;
    var none: set<nat> := {};
    assert none + {0} == {0} && none + {1} == {1};
    assert Matched(src, vanilla, 0) == ({}, {}) && Matched(src, vanilla, 1) == ({}, {}) && Matched(src, vanilla, 2) == ({0}, {1});
    assert Unmatched({1}, 3, 3) == [] && Unmatched({1}, 2, 3) == [2] && Unmatched({1}, 1, 3) == [2] && Unmatched({1}, 0, 3) == [0, 2];
    assert Edited(src, 1, {0}, {1}, 0) == [];
  }
}
