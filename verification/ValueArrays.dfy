/** Arrays of scalars compared by value: which rows come back, and when all of them do. */
module ValueArrays {
  import opened Documents
  import opened Changelogs
  import opened Pending
  import opened Splice
  import opened KeyedRows
  import opened RoundTrip

  ghost predicate Scalars(items: seq<Byml>) { forall i :: 0 <= i < |items| ==> items[i].Leaf? }

  /** The values at some of the first `n` positions. */
  function Chosen(items: seq<Byml>, chosen: set<nat>, n: nat): multiset<Byml>
    requires n <= |items|
  {
    if n == 0 then multiset{} else Chosen(items, chosen, n - 1) + if n - 1 in chosen then multiset{items[n - 1]} else multiset{}
  }

  lemma {:induction false} ChosenSame(items: seq<Byml>, a: set<nat>, b: set<nat>, n: nat)
    requires n <= |items| && forall i: nat :: i < n ==> (i in a <==> i in b)
    ensures Chosen(items, a, n) == Chosen(items, b, n)
  {
    if n > 0 { ChosenSame(items, a, b, n - 1); }
  }

  lemma {:induction false} ChosenMore(items: seq<Byml>, chosen: set<nat>, j: nat, n: nat)
    requires j < n <= |items| && j !in chosen
    ensures Chosen(items, chosen + {j}, n) == Chosen(items, chosen, n) + multiset{items[j]}
  {
    if j == n - 1 {
      ChosenSame(items, chosen + {j}, chosen, n - 1);
    } else {
      ChosenMore(items, chosen, j, n - 1);
      assert n - 1 in chosen + {j} <==> n - 1 in chosen;
      var last := if n - 1 in chosen then multiset{items[n - 1]} else multiset{};
      Exchange(Chosen(items, chosen, n - 1), multiset{items[j]}, last);
    }
  }

  lemma Exchange(a: multiset<Byml>, b: multiset<Byml>, c: multiset<Byml>)
    ensures a + b + c == a + c + b
  {
  }

  /** Some positions and all the others make up the whole. */
  lemma TakenNext(items: seq<Byml>, k: nat)
    requires k < |items|
    ensures multiset(items[..k + 1]) == multiset(items[..k]) + multiset{items[k]}
  {
    assert items[..k + 1] == items[..k] + [items[k]];
  }

  lemma {:induction false} ChosenAndRest(items: seq<Byml>, a: set<nat>, b: set<nat>, n: nat)
    requires n <= |items| && forall i: nat :: i < n ==> (i in a <==> i !in b)
    ensures multiset(items[..n]) == Chosen(items, a, n) + Chosen(items, b, n)
  {
    if n > 0 {
      ChosenAndRest(items, a, b, n - 1);
      TakenNext(items, n - 1);
      var x, y, one := Chosen(items, a, n - 1), Chosen(items, b, n - 1), multiset{items[n - 1]};
      assert n - 1 in a <==> n - 1 !in b;
      if n - 1 in a { Exchange(x, y, one); } else { Grouped(x, y, one); }
    } else {
      assert items[..n] == [];
    }
  }

  lemma Grouped(a: multiset<Byml>, b: multiset<Byml>, c: multiset<Byml>)
    ensures a + b + c == a + (b + c)
  {
  }

  // ---------- matching ----------

  /** The entries matched with each other have the same values. */
  lemma {:induction false} MatchedAlike(src: seq<Byml>, vanilla: seq<Byml>, i: nat)
    requires i <= |src|
    ensures var (taken, matched) := Matched(src, vanilla, i);
            && (forall k :: k in taken ==> k < |vanilla|) && (forall k :: k in matched ==> k < i)
            && Chosen(vanilla, taken, |vanilla|) == Chosen(src, matched, |src|)
  {
    hide Chosen, FirstFree;
    if i > 0 {
      MatchedAlike(src, vanilla, i - 1);
      var (taken, matched) := Matched(src, vanilla, i - 1);
      var j := FirstFree(vanilla, taken, src[i - 1], 0);
      if j < |vanilla| {
        OneMoreAlike(src, vanilla, taken, matched, i - 1, j);
      }
    } else {
      ChosenNone(src, |src|);
      ChosenNone(vanilla, |vanilla|);
    }
  }

  lemma OneMoreAlike(src: seq<Byml>, vanilla: seq<Byml>, taken: set<nat>, matched: set<nat>, i: nat, j: nat)
    requires i < |src| && i !in matched && j < |vanilla| && j !in taken && vanilla[j] == src[i]
    requires Chosen(vanilla, taken, |vanilla|) == Chosen(src, matched, |src|)
    ensures Chosen(vanilla, taken + {j}, |vanilla|) == Chosen(src, matched + {i}, |src|)
  {
    hide Chosen;
    ChosenMore(vanilla, taken, j, |vanilla|);
    ChosenMore(src, matched, i, |src|);
  }

  lemma {:induction false} ChosenNone(items: seq<Byml>, n: nat)
    requires n <= |items|
    ensures Chosen(items, {}, n) == multiset{}
  {
    if n > 0 { ChosenNone(items, n - 1); }
  }

  /** The values at the positions in a queue. */
  function Queued(items: seq<Byml>, queue: seq<nat>): multiset<Byml> {
    if queue == [] then multiset{} else (if queue[0] < |items| then multiset{items[queue[0]]} else multiset{}) + Queued(items, queue[1..])
  }

  /** The queue holds exactly the entries that were not matched. */
  lemma {:induction false} QueueIsRest(src: seq<Byml>, matched: set<nat>, rest: set<nat>, i: nat)
    requires i <= |src| && forall k: nat :: k < |src| ==> (k in rest <==> k !in matched && k >= i)
    ensures Queued(src, Unmatched(matched, i, |src|)) == Chosen(src, rest, |src|)
    decreases |src| - i
  {
    hide Chosen, Queued, Unmatched;
    QueueStep(src, matched, i);
    if i < |src| {
      var later := rest - {i};
      QueueIsRest(src, matched, later, i + 1);
      if i in matched {
        assert later == rest;
      } else {
        assert rest == later + {i};
        ChosenMore(src, later, i, |src|);
      }
    } else {
      ChosenSame(src, rest, {}, |src|);
      ChosenNone(src, |src|);
    }
  }

  lemma QueueStep(src: seq<Byml>, matched: set<nat>, i: nat)
    requires i <= |src|
    ensures i == |src| ==> Queued(src, Unmatched(matched, i, |src|)) == multiset{}
    ensures i < |src| && i in matched ==> Unmatched(matched, i, |src|) == Unmatched(matched, i + 1, |src|)
    ensures i < |src| && i !in matched ==>
              Queued(src, Unmatched(matched, i, |src|)) == Queued(src, Unmatched(matched, i + 1, |src|)) + multiset{src[i]}
  {
    if i < |src| {
      var tail := Unmatched(matched, i + 1, |src|);
      assert [] + tail == tail && ([i] + tail)[1..] == tail;
    }
  }

  // ---------- which entries are edited, which removed ----------

  predicate IsEdited(src: seq<Byml>, taken: set<nat>, matched: set<nat>, i: nat) { i !in taken && i < |src| && i !in matched }

  predicate IsRemoved(src: seq<Byml>, taken: set<nat>, matched: set<nat>, i: nat) { i !in taken && !(i < |src| && i !in matched) }

  /** The positions edited, from `i` on. */
  function Edited(src: seq<Byml>, n: nat, taken: set<nat>, matched: set<nat>, i: nat): (edited: seq<nat>)
    requires i <= n
    ensures forall k :: 0 <= k < |edited| ==> edited[k] < |src|
    decreases n - i
  {
    if i == n then [] else (if IsEdited(src, taken, matched, i) then [i] else []) + Edited(src, n, taken, matched, i + 1)
  }

  function Drop(queue: seq<nat>, n: nat): seq<nat> { if n <= |queue| then queue[n..] else [] }

  /** An edit takes the first entry off the queue, whichever it is. */
  lemma {:induction false} LeftIs(rules: Rules, type_: string, depth: int, src: seq<Byml>, vanilla: seq<Byml>, taken: set<nat>, matched: set<nat>,
                                  queue: seq<nat>, i: nat)
    requires i <= |vanilla|
    ensures ValueChanges(rules, type_, depth, src, vanilla, taken, matched, queue, i).1 == Drop(queue, |Edited(src, |vanilla|, taken, matched, i)|)
    decreases |vanilla| - i
  {
    hide Diff;
    if i < |vanilla| {
      var rest := if queue == [] then [] else queue[1..];
      LeftIs(rules, type_, depth, src, vanilla, taken, matched, if IsEdited(src, taken, matched, i) then rest else queue, i + 1);
    }
  }

  /** The rows when the entries before `i` have been edited. */
  function RowsTo(src: seq<Byml>, vanilla: seq<Byml>, taken: set<nat>, matched: set<nat>, i: nat): (rows: seq<Byml>)
    ensures |rows| == |vanilla|
  {
    seq(|vanilla|, k requires 0 <= k < |vanilla| => if k < i && IsEdited(src, taken, matched, k) then src[k] else vanilla[k])
  }

  function RemovedTo(src: seq<Byml>, taken: set<nat>, matched: set<nat>, i: nat): (removed: set<int>)
    ensures forall k :: k in removed <==> 0 <= k < i && IsRemoved(src, taken, matched, k)
  {
    if i == 0 then {} else RemovedTo(src, taken, matched, i - 1) + if IsRemoved(src, taken, matched, i - 1) then {i - 1} else {}
  }

  function FreshAll(rows: seq<Byml>): seq<Tree> { seq(|rows|, i requires 0 <= i < |rows| => Fresh(rows[i])) }

  function OnlyRemovals(removals: set<int>): Option<ArrayEntry> { if removals == {} then None else Some(ArrayEntry(None, 0, [], removals)) }

  function StateTo(src: seq<Byml>, vanilla: seq<Byml>, taken: set<nat>, matched: set<nat>, i: nat): ArrayState {
    ArrayState(FreshAll(RowsTo(src, vanilla, taken, matched, i)), OnlyRemovals(RemovedTo(src, taken, matched, i)), None, None)
  }

  // ---------- merging edits and removals ----------

  lemma EditStep(c: Context, depth: int, name: Option<string>, keyName: Option<KeyName>, src: seq<Byml>, vanilla: seq<Byml>,
                 taken: set<nat>, matched: set<nat>, i: nat, node: Byml)
    requires i < |vanilla| && IsEdited(src, taken, matched, i) && node == src[i] && node.Leaf?
    ensures MergeChange(c, depth, name, keyName, StateTo(src, vanilla, taken, matched, i), Change(i, Edit, node))
            == Some(StateTo(src, vanilla, taken, matched, i + 1))
  {
    hide Fresh, IsEdited, IsRemoved, Strip;
    var state := StateTo(src, vanilla, taken, matched, i);
    NotRemoved(src, taken, matched, i);
    assert RemovedTo(src, taken, matched, i) - {i} == RemovedTo(src, taken, matched, i);
    assert WithoutRemoval(state, i) == state;
    var next := RowsTo(src, vanilla, taken, matched, i + 1);
    assert FreshAll(next) == state.items[i := Fresh(node)];
  }

  lemma NotRemoved(src: seq<Byml>, taken: set<nat>, matched: set<nat>, i: nat)
    requires IsEdited(src, taken, matched, i)
    ensures RemovedTo(src, taken, matched, i + 1) == RemovedTo(src, taken, matched, i)
  {
  }

  lemma RemovalStep(c: Context, depth: int, name: Option<string>, keyName: Option<KeyName>, src: seq<Byml>, vanilla: seq<Byml>,
                    taken: set<nat>, matched: set<nat>, i: nat)
    requires i < |vanilla| && IsRemoved(src, taken, matched, i)
    ensures MergeChange(c, depth, name, keyName, StateTo(src, vanilla, taken, matched, i), Change(i, Remove, NULL))
            == Some(StateTo(src, vanilla, taken, matched, i + 1))
  {
    hide Fresh;
    var removed := RemovedTo(src, taken, matched, i);
    assert RemovedTo(src, taken, matched, i + 1) == removed + {i};
    assert RowsTo(src, vanilla, taken, matched, i + 1) == RowsTo(src, vanilla, taken, matched, i);
    assert i in removed + {i};
    assert {} + {i as int} == {i as int};
  }

  lemma NothingStep(src: seq<Byml>, vanilla: seq<Byml>, taken: set<nat>, matched: set<nat>, i: nat)
    requires i < |vanilla| && i in taken
    ensures StateTo(src, vanilla, taken, matched, i + 1) == StateTo(src, vanilla, taken, matched, i)
  {
    hide Fresh;
    assert RowsTo(src, vanilla, taken, matched, i + 1) == RowsTo(src, vanilla, taken, matched, i);
    assert RemovedTo(src, taken, matched, i + 1) == RemovedTo(src, taken, matched, i);
  }

  lemma {:induction false} ChangesRun(c: Context, depth: int, name: Option<string>, keyName: Option<KeyName>, src: seq<Byml>, vanilla: seq<Byml>,
                                      taken: set<nat>, matched: set<nat>, queue: seq<nat>, i: nat)
    requires i <= |vanilla| && Scalars(src) && Scalars(vanilla)
    ensures MergeChanges(c, depth, name, keyName, StateTo(src, vanilla, taken, matched, i),
                         ValueChanges(c.rules, c.type_, depth, src, vanilla, taken, matched, queue, i).0)
            == Some(StateTo(src, vanilla, taken, matched, |vanilla|))
    decreases |vanilla| - i
  {
    hide MergeChange, StateTo;
    if i < |vanilla| {
      var state, next := StateTo(src, vanilla, taken, matched, i), StateTo(src, vanilla, taken, matched, i + 1);
      var rest := if queue == [] then [] else queue[1..];
      if i in taken {
        NothingStep(src, vanilla, taken, matched, i);
        ChangesRun(c, depth, name, keyName, src, vanilla, taken, matched, queue, i + 1);
      } else if i < |src| && i !in matched {
        var edit := Change(i, Edit, src[i]);
        ChangesRun(c, depth, name, keyName, src, vanilla, taken, matched, rest, i + 1);
        MergeChangesAppend(c, depth, name, keyName, state, [edit],
                           ValueChanges(c.rules, c.type_, depth, src, vanilla, taken, matched, rest, i + 1).0);
        MergeOneChange(c, depth, name, keyName, state, edit);
        EditStep(c, depth, name, keyName, src, vanilla, taken, matched, i, src[i]);
      } else {
        var removal := Change(i, Remove, NULL);
        ChangesRun(c, depth, name, keyName, src, vanilla, taken, matched, queue, i + 1);
        MergeChangesAppend(c, depth, name, keyName, state, [removal],
                           ValueChanges(c.rules, c.type_, depth, src, vanilla, taken, matched, queue, i + 1).0);
        MergeOneChange(c, depth, name, keyName, state, removal);
        RemovalStep(c, depth, name, keyName, src, vanilla, taken, matched, i);
      }
    }
  }

  // ---------- what is added ----------

  lemma {:induction false} QueuedValues(src: seq<Byml>, queue: seq<nat>, values: seq<Byml>)
    requires |values| == |queue| && forall k :: 0 <= k < |queue| ==> queue[k] < |src| && values[k] == src[queue[k]]
    ensures multiset(values) == Queued(src, queue)
    decreases |queue|
  {
    if queue != [] {
      QueuedValues(src, queue[1..], values[1..]);
      RowsCons(values);
    } else {
      assert values == [];
    }
  }

  function Additions(index: int, values: seq<Byml>): seq<ArrayChange> {
    seq(|values|, k requires 0 <= k < |values| => Change(index, Add, values[k]))
  }

  /** The state after the additions: one list of them, in the entry there is or a new one. */
  ghost predicate AddedTo(before: ArrayState, after: ArrayState, depth: int, name: Option<string>, values: seq<Byml>) {
    if values == [] then after == before
    else
      && after.items == before.items && after.entry.Some? && after.list == Some(0)
      && |after.entry.value.additions| == 1 && ValuesOf(after.entry.value.additions[0]) == values
      && (if before.entry.Some? then
            after.entry.value.name == None && after.entry.value.depth == 0 && after.entry.value.removals == before.entry.value.removals
          else after.entry.value.name == name && after.entry.value.depth == depth && after.entry.value.removals == {})
  }

  lemma {:induction false} AdditionsRun(c: Context, depth: int, name: Option<string>, keyName: Option<KeyName>, state: ArrayState, removals: set<int>,
                                        index: int, values: seq<Byml>)
    requires state.entry == OnlyRemovals(removals) && state.list == None
    ensures var after := MergeChanges(c, depth, name, keyName, state, Additions(index, values));
            after.Some? && AddedTo(state, after.value, depth, name, values)
    decreases |values|
  {
    hide WithAddition;
    if values != [] {
      var before, last := values[..|values| - 1], values[|values| - 1];
      assert Additions(index, values)[..|values| - 1] == Additions(index, before);
      AdditionsRun(c, depth, name, keyName, state, removals, index, before);
      var mid := MergeChanges(c, depth, name, keyName, state, Additions(index, before)).value;
      OneAddition(state, mid, depth, name, removals, before, index, last);
      assert before + [last] == values;
    }
  }

  lemma OneAddition(state: ArrayState, mid: ArrayState, depth: int, name: Option<string>, removals: set<int>, before: seq<Byml>, index: int, node: Byml)
    requires state.entry == OnlyRemovals(removals) && state.list == None && AddedTo(state, mid, depth, name, before)
    ensures AddedTo(state, WithAddition(mid, depth, name, index, node), depth, name, before + [node])
  {
    var after := WithAddition(mid, depth, name, index, node);
    if before == [] {
      var none: seq<seq<(int, Byml)>> := [];
      var empty: seq<(int, Byml)> := [];
      assert (mid.entry.Some? ==> mid.entry.value.additions == none) && none + [[]] == [empty];
      assert empty + [(index, node)] == [(index, node)];
      assert [empty][0 := empty + [(index, node)]] == [[(index, node)]];
      assert ValuesOf([(index, node)]) == [node];
    } else {
      ValuesAppend(mid.entry.value.additions[0], [(index, node)]);
      assert ValuesOf([(index, node)]) == [node];
      assert after.entry.value.additions[0] == mid.entry.value.additions[0] + [(index, node)];
    }
  }

  // ---------- settling ----------

  lemma FreshAllSettle(c: Context, rows: seq<Byml>)
    ensures forall i :: 0 <= i < |rows| ==> Settle(c, FreshAll(rows)[i]) == Some(rows[i])
  {
    hide Settle, Fresh;
    forall i | 0 <= i < |rows| ensures Settle(c, FreshAll(rows)[i]) == Some(rows[i]) { FreshSettles(c, rows[i]); }
  }

  lemma {:induction false} NoneSelected(pairs: seq<(RowKey, Byml)>, key: RowKey)
    requires !key.IsEmpty() && forall i :: 0 <= i < |pairs| ==> pairs[i].0 == NO_KEY
    ensures Select(pairs, key) == []
    decreases |pairs|
  {
    if pairs != [] { NoneSelected(pairs[1..], key); }
  }

  lemma NoneHasKey(name: KeyName, nodes: seq<Byml>, key: RowKey)
    requires Scalars(nodes) && !key.IsEmpty()
    ensures WithKey(Some(name), nodes, key) == []
  {
    var pairs := Keys(Some(name), nodes);
    forall i | 0 <= i < |pairs| ensures pairs[i].0 == NO_KEY { assert nodes[i].Leaf?; }
    NoneSelected(pairs, key);
  }

  lemma NoKeysUnique(name: KeyName, nodes: seq<Byml>)
    requires Scalars(nodes)
    ensures UniqueKeys(Some(name), nodes)
  {
    forall key: RowKey | !key.IsEmpty() ensures |WithKey(Some(name), nodes, key)| <= 1 { NoneHasKey(name, nodes, key); }
  }

  /** An entry for scalars adds them all, whatever the tables say of the array. */
  lemma ScalarsAdded(c: Context, rows: seq<Byml>, entry: ArrayEntry, added: seq<Byml>)
    requires Scalars(added) && multiset(ValuesOf(Flatten(entry.additions))) == multiset(added)
    ensures var settled := SettleArray(c, rows, entry);
            settled.Some? && multiset(settled.value) == multiset(Retained(Marked(rows, entry.removals)) + added)
  {
    hide SettleArray, Marked, Retained, UniqueKeys;
    var key := if entry.name.Some? then c.rules.mergerKey(entry.name.value, c.ApplyType(), entry.depth) else None;
    var name := if key.Some? then key.value else AREA_NUMBER;
    NoKeysUnique(name, added);
    SettleAdds(c, rows, entry, name, added);
  }

  /** What is left after the removals: the entries kept and the edited ones. */
  lemma {:induction false} KeptAndEdited(src: seq<Byml>, vanilla: seq<Byml>, taken: set<nat>, matched: set<nat>, n: nat)
    requires n <= |vanilla| && Scalars(src) && Scalars(vanilla)
    ensures var rows := RowsTo(src, vanilla, taken, matched, |vanilla|);
            multiset(Retained(Marked(rows, RemovedTo(src, taken, matched, |vanilla|))[..n]))
            == Chosen(vanilla, taken, n) + EditedBag(src, taken, matched, n)
  {
    hide Chosen, EditedBag, RowsTo, RemovedTo, Retained;
    var rows := RowsTo(src, vanilla, taken, matched, |vanilla|);
    var marked := Marked(rows, RemovedTo(src, taken, matched, |vanilla|));
    if n > 0 {
      KeptAndEdited(src, vanilla, taken, matched, n - 1);
      RetainedNext(marked, n - 1);
      MarkedRow(src, vanilla, taken, matched, n - 1);
      OneKept(src, vanilla, taken, matched, n - 1, marked[n - 1]);
    } else {
      assert marked[..n] == [];
      NoneKept(src, vanilla, taken, matched);
    }
  }

  lemma RetainedNext(rows: seq<Byml>, k: nat)
    requires k < |rows|
    ensures multiset(Retained(rows[..k + 1])) == multiset(Retained(rows[..k])) + multiset(if rows[k].IsRemove() then [] else [rows[k]])
  {
    assert rows[..k + 1][..k] == rows[..k];
  }

  lemma MarkedRow(src: seq<Byml>, vanilla: seq<Byml>, taken: set<nat>, matched: set<nat>, k: nat)
    requires k < |vanilla|
    ensures Marked(RowsTo(src, vanilla, taken, matched, |vanilla|), RemovedTo(src, taken, matched, |vanilla|))[k]
            == if IsRemoved(src, taken, matched, k) then Marker(Remove) else if IsEdited(src, taken, matched, k) then src[k] else vanilla[k]
  {
  }

  lemma NoneKept(src: seq<Byml>, vanilla: seq<Byml>, taken: set<nat>, matched: set<nat>)
    ensures Chosen(vanilla, taken, 0) + EditedBag(src, taken, matched, 0) == multiset{} == multiset(Retained([]))
  {
  }

  lemma OneKept(src: seq<Byml>, vanilla: seq<Byml>, taken: set<nat>, matched: set<nat>, k: nat, row: Byml)
    requires k < |vanilla| && Scalars(src) && Scalars(vanilla)
    requires row == if IsRemoved(src, taken, matched, k) then Marker(Remove) else if IsEdited(src, taken, matched, k) then src[k] else vanilla[k]
    ensures Chosen(vanilla, taken, k + 1) + EditedBag(src, taken, matched, k + 1)
            == Chosen(vanilla, taken, k) + EditedBag(src, taken, matched, k) + multiset(if row.IsRemove() then [] else [row])
  {
    var a, b := Chosen(vanilla, taken, k), EditedBag(src, taken, matched, k);
    assert !vanilla[k].IsRemove() && (k < |src| ==> !src[k].IsRemove());
    if k in taken {
      Exchange(a, b, multiset{vanilla[k]});
    }
  }

  /** The values edits put in, before position `n`. */
  function EditedBag(src: seq<Byml>, taken: set<nat>, matched: set<nat>, n: nat): multiset<Byml> {
    if n == 0 then multiset{}
    else EditedBag(src, taken, matched, n - 1) + if IsEdited(src, taken, matched, n - 1) then multiset{src[n - 1]} else multiset{}
  }

  lemma {:induction false} EditedBagIs(src: seq<Byml>, taken: set<nat>, matched: set<nat>, n: nat, i: nat)
    requires i <= n
    ensures EditedBag(src, taken, matched, n) == EditedBag(src, taken, matched, i) + Queued(src, Edited(src, n, taken, matched, i))
    decreases n - i
  {
    if i < n {
      EditedBagIs(src, taken, matched, n, i + 1);
      var rest := Edited(src, n, taken, matched, i + 1);
      if IsEdited(src, taken, matched, i) {
        assert Edited(src, n, taken, matched, i) == [i] + rest && ([i] + rest)[1..] == rest;
      } else {
        assert Edited(src, n, taken, matched, i) == [] + rest == rest;
      }
    }
  }

  // ---------- the law ----------

  /** The values the edits put in, and those at the head of the queue, which they take off it. */
  predicate EditsTakeTheirOwn(src: seq<Byml>, vanilla: seq<Byml>) {
    var (taken, matched) := Matched(src, vanilla, |src|);
    var edited, queue := Edited(src, |vanilla|, taken, matched, 0), Unmatched(matched, 0, |src|);
    Queued(src, edited) == Queued(src, if |edited| <= |queue| then queue[..|edited|] else queue)
  }

  /** What comes back for an array of scalars compared by value. */
  ghost function BackBag(src: seq<Byml>, vanilla: seq<Byml>): multiset<Byml> {
    var (taken, matched) := Matched(src, vanilla, |src|);
    var edited := Edited(src, |vanilla|, taken, matched, 0);
    Chosen(vanilla, taken, |vanilla|) + Queued(src, edited) + Queued(src, Drop(Unmatched(matched, 0, |src|), |edited|))
  }

  lemma {:induction false} QueuedSplit(items: seq<Byml>, a: seq<nat>, b: seq<nat>)
    ensures Queued(items, a + b) == Queued(items, a) + Queued(items, b)
  {
    if a == [] {
      assert a + b == b;
    } else {
      assert (a + b)[1..] == a[1..] + b;
      QueuedSplit(items, a[1..], b);
    }
  }

  /** All of the array's values come back exactly when the edits take their own entries off the queue. */
  lemma BackBagIff(src: seq<Byml>, vanilla: seq<Byml>)
    ensures BackBag(src, vanilla) == multiset(src) <==> EditsTakeTheirOwn(src, vanilla)
  {
    hide Matched, Edited, Unmatched, Queued, Chosen;
    var (taken, matched) := Matched(src, vanilla, |src|);
    var edited, queue := Edited(src, |vanilla|, taken, matched, 0), Unmatched(matched, 0, |src|);
    var rest := set k | 0 <= k < |src| && k !in matched :: k as nat;
    MatchedAlike(src, vanilla, |src|);
    QueueIsRest(src, matched, rest, 0);
    ChosenAndRest(src, matched, rest, |src|);
    assert src[..|src|] == src;
    var head, tail := if |edited| <= |queue| then queue[..|edited|] else queue, Drop(queue, |edited|);
    assert queue == head + tail;
    QueuedSplit(src, head, tail);
    Cancelled(Chosen(src, matched, |src|), Queued(src, edited), Queued(src, head), Queued(src, tail));
  }

  lemma Cancelled(a: multiset<Byml>, b: multiset<Byml>, c: multiset<Byml>, d: multiset<Byml>)
    ensures a + b + d == a + (c + d) <==> b == c
  {
    if a + b + d == a + (c + d) {
      forall x ensures b[x] == c[x] { assert (a + b + d)[x] == (a + (c + d))[x]; }
    }
  }

  /** An array of scalars merged with its changelog settles to those values. */
  lemma ValueArrayBack(c: Context, depth: int, name: Option<string>, src: seq<Byml>, vanilla: seq<Byml>)
    requires Scalars(src) && Scalars(vanilla)
    ensures var tree := MergeArray(c, depth, name, FreshAll(vanilla), None, DefaultChanges(c.rules, c.type_, depth, src, vanilla));
            && tree.Some? && Settle(c, tree.value).Some? && Settle(c, tree.value).value.Array?
            && multiset(Settle(c, tree.value).value.items) == BackBag(src, vanilla)
  {
    hide Matched, Edited, Unmatched, Queued, Chosen, MergeChanges, Settle, ValueChanges, RowsTo, AddedTo, SettleArray, RemovedTo;
    var (taken, matched) := Matched(src, vanilla, |src|);
    var keyName := if name.Some? then c.rules.mergerKey(name.value, c.MergeType(), depth) else None;
    var queue := Unmatched(matched, 0, |src|);
    var (changes, left) := ValueChanges(c.rules, c.type_, depth, src, vanilla, taken, matched, queue, 0);
    LeftInRange(left, queue, |src|);
    var values := seq(|left|, k requires 0 <= k < |left| => src[left[k]]);
    var start, mid := StateTo(src, vanilla, taken, matched, 0), StateTo(src, vanilla, taken, matched, |vanilla|);
    StartState(src, vanilla, taken, matched);
    ChangesRun(c, depth, name, keyName, src, vanilla, taken, matched, queue, 0);
    var index := if left == [] then 0 else left[0];
    var adds := Additions(index, values);
    AdditionsRun(c, depth, name, keyName, mid, RemovedTo(src, taken, matched, |vanilla|), index, values);
    MergeChangesAppend(c, depth, name, keyName, start, changes, adds);
    assert DefaultChanges(c.rules, c.type_, depth, src, vanilla) == changes + adds;
    var after := MergeChanges(c, depth, name, keyName, mid, adds).value;
    LeftIs(c.rules, c.type_, depth, src, vanilla, taken, matched, queue, 0);
    QueuedValues(src, left, values);
    StateSettles(c, depth, name, src, vanilla, taken, matched, mid, after, values);
    EditedBagIs(src, taken, matched, |vanilla|, 0);
    NothingEditedYet(src, taken, matched);
  }

  lemma NothingEditedYet(src: seq<Byml>, taken: set<nat>, matched: set<nat>)
    ensures EditedBag(src, taken, matched, 0) == multiset{}
  {
  }

  lemma StartState(src: seq<Byml>, vanilla: seq<Byml>, taken: set<nat>, matched: set<nat>)
    ensures StateTo(src, vanilla, taken, matched, 0) == ArrayState(FreshAll(vanilla), None, None, None)
  {
    assert RowsTo(src, vanilla, taken, matched, 0) == vanilla;
    assert RemovedTo(src, taken, matched, 0) == {};
  }

  lemma StateSettles(c: Context, depth: int, name: Option<string>, src: seq<Byml>, vanilla: seq<Byml>, taken: set<nat>, matched: set<nat>,
                     mid: ArrayState, after: ArrayState, values: seq<Byml>)
    requires Scalars(src) && Scalars(vanilla) && Scalars(values)
    requires mid == StateTo(src, vanilla, taken, matched, |vanilla|) && AddedTo(mid, after, depth, name, values)
    ensures var settled := Settle(c, PArray(after.items, after.entry));
            && settled.Some? && settled.value.Array?
            && multiset(settled.value.items)
               == Chosen(vanilla, taken, |vanilla|) + EditedBag(src, taken, matched, |vanilla|) + multiset(values)
  {
    hide Chosen, Settle, EditedBag, RowsTo, SettleArray, Marked, Retained, RemovedTo;
    var rows, removed := RowsTo(src, vanilla, taken, matched, |vanilla|), RemovedTo(src, taken, matched, |vanilla|);
    FreshAllSettle(c, rows);
    SettledNode(c, after.items, after.entry, rows);
    KeptAndEdited(src, vanilla, taken, matched, |vanilla|);
    WholeMarked(rows, removed, |vanilla|);
    if after.entry.Some? {
      EntryValues(mid, after, depth, name, values);
      ScalarsAdded(c, rows, after.entry.value, values);
    } else {
      NothingMarked(src, vanilla, taken, matched, rows, removed);
    }
  }

  lemma WholeMarked(rows: seq<Byml>, removed: set<int>, n: nat)
    requires n == |rows|
    ensures Marked(rows, removed)[..n] == Marked(rows, removed)
  {
  }

  lemma EntryValues(mid: ArrayState, after: ArrayState, depth: int, name: Option<string>, values: seq<Byml>)
    requires AddedTo(mid, after, depth, name, values) && after.entry.Some?
    requires mid.entry.Some? ==> mid.entry.value.additions == []
    ensures ValuesOf(Flatten(after.entry.value.additions)) == values
    ensures after.entry.value.removals == if mid.entry.Some? then mid.entry.value.removals else {}
  {
    if values != [] {
      OneList(after.entry.value.additions[0]);
      assert after.entry.value.additions == [after.entry.value.additions[0]];
    }
  }

  lemma NothingMarked(src: seq<Byml>, vanilla: seq<Byml>, taken: set<nat>, matched: set<nat>, rows: seq<Byml>, removed: set<int>)
    requires Scalars(src) && Scalars(vanilla) && removed == {} && rows == RowsTo(src, vanilla, taken, matched, |vanilla|)
    ensures Retained(Marked(rows, removed)) == rows
  {
    hide RowsTo;
    assert Marked(rows, removed) == rows;
    forall i | 0 <= i < |rows| ensures !rows[i].IsRemove() { RowIsScalar(src, vanilla, taken, matched, i); }
    RetainedAll(rows);
  }

  lemma RowIsScalar(src: seq<Byml>, vanilla: seq<Byml>, taken: set<nat>, matched: set<nat>, i: nat)
    requires Scalars(src) && Scalars(vanilla) && i < |vanilla|
    ensures RowsTo(src, vanilla, taken, matched, |vanilla|)[i].Leaf?
  {
  }

  /** An array of scalars compared by value comes back, up to order, exactly when the edits take their own entries off the queue of
      those still to be added. */
  lemma ValueArrayComesBackIff(c: Context, depth: int, name: Option<string>, src: seq<Byml>, vanilla: seq<Byml>)
    requires Scalars(src) && Scalars(vanilla)
    ensures var tree := MergeArray(c, depth, name, FreshAll(vanilla), None, DefaultChanges(c.rules, c.type_, depth, src, vanilla));
            && tree.Some? && Settle(c, tree.value).Some? && Settle(c, tree.value).value.Array?
            && (multiset(Settle(c, tree.value).value.items) == multiset(src) <==> EditsTakeTheirOwn(src, vanilla))
  {
    hide MergeArray, Settle, DefaultChanges, BackBag, EditsTakeTheirOwn;
    ValueArrayBack(c, depth, name, src, vanilla);
    BackBagIff(src, vanilla);
  }

  lemma ExampleMatched(a: Byml, b: Byml, x: Byml, y: Byml)
    requires x != a && y != a && x != b && y != b
    ensures Matched([x, y, a], [a, b], 3) == ({0}, {2})
  {
    var src, vanilla := [x, y, a], [a, b];
    assert FirstFree(vanilla, {}, x, 0) == 2 && FirstFree(vanilla, {}, y, 0) == 2 && FirstFree(vanilla, {}, a, 0) == 0;
    var none: set<nat> := {};
    assert Matched(src, vanilla, 0) == (none, none);
    assert Matched(src, vanilla, 1) == (none, none);
    assert Matched(src, vanilla, 2) == (none, none);
    assert src[2] == a && none + {0} == {0} && none + {2} == {2};
  }

  lemma ExampleQueue(src: seq<Byml>)
    requires |src| == 3
    ensures Unmatched({2}, 0, 3) == [0, 1] && Edited(src, 2, {0}, {2}, 0) == [1]
  {
    var taken: set<nat>, matched: set<nat> := {0}, {2};
    assert Unmatched(matched, 3, 3) == [] && Unmatched(matched, 2, 3) == [] && Unmatched(matched, 1, 3) == [1];
    assert Edited(src, 2, taken, matched, 2) == [] && Edited(src, 2, taken, matched, 1) == [1];
  }

  lemma ExampleChosen(a: Byml, b: Byml)
    ensures Chosen([a, b], {0}, 2) == multiset{a}
  {
    var vanilla, taken: set<nat> := [a, b], {0};
    assert Chosen(vanilla, taken, 0) == multiset{} && Chosen(vanilla, taken, 1) == multiset{a};
  }

  lemma QueuedOne(items: seq<Byml>, i: nat)
    requires i < |items|
    ensures Queued(items, [i]) == multiset{items[i]}
  {
    assert [i][1..] == [];
  }

  /** With vanilla `[a, b]` and the mod's `[x, y, a]` the second entry is edited to `y`, `x` is taken off the queue for it, and
      `y` comes back twice. */
  lemma EditedTwice(a: Byml, b: Byml, x: Byml, y: Byml)
    requires x != y && x != a && y != a && x != b && y != b
    ensures BackBag([x, y, a], [a, b]) == multiset{a, y, y} && !EditsTakeTheirOwn([x, y, a], [a, b])
  {
    hide Matched, Edited, Unmatched, Queued, Chosen;
    var src := [x, y, a];
    ExampleMatched(a, b, x, y);
    ExampleQueue(src);
    ExampleChosen(a, b);
    QueuedOne(src, 0);
    QueuedOne(src, 1);
    assert [0, 1][1..] == [1] && [0, 1][..1] == [0];
    assert x in multiset{x} && x !in multiset{y};
  }
}
