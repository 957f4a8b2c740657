/** Documents that are one array under a name: compared, merged and settled, the way the tables say. */
module NamedArrays {
  import opened Documents
  import opened Changelogs
  import opened Pending
  import opened RoundTrip
  import KeyedOrder
  import KeyedReturn
  import ValueArrays
  import ValueOrder
  import KeyedOutcome
  import RowEdits
  import Splice

  function Document(n: string, rows: seq<Byml>): Byml { Map(Named, map[Name(n) := Array(rows)]) }

  /** What becomes of a mod's document whose changelog is merged onto vanilla's. */
  ghost function ComesBack(c: Context, src: Byml, vanilla: Byml): Option<Byml> {
    match Merge(c, 0, Fresh(vanilla), Diff(c.rules, c.type_, 0, src, vanilla).0)
    case None => None
    case Some(tree) => Settle(c, tree)
  }

  ghost function ArrayResult(c: Context, n: string, vanilla: seq<Byml>, changes: seq<ArrayChange>): Option<Byml> {
    match MergeArray(c, 1, Some(n), Fresh(Array(vanilla)).items, None, changes)
    case None => None
    case Some(tree) => Settle(c, tree)
  }

  lemma FreshItems(rows: seq<Byml>)
    ensures Fresh(Array(rows)).PArray? && Fresh(Array(rows)).items == ValueArrays.FreshAll(rows)
  {
  }

  /** The document's changelog is that of the array, if there is anything to record. */
  lemma OneEntryLogged(c: Context, n: string, src: seq<Byml>, vanilla: seq<Byml>, log: Byml)
    requires DiffEntry(c.rules, c.type_, 1, Name(n), Array(src), Array(vanilla)) == (log, log == ArrayLog([]))
    ensures Diff(c.rules, c.type_, 0, Document(n, src), Document(n, vanilla)).0
            == Map(Named, if log == ArrayLog([]) then map[] else map[Name(n) := log])
  {
    hide DiffEntry;
    var entries := DiffMap(c.rules, c.type_, 0, Document(n, src), Document(n, vanilla).entries);
    assert log == ArrayLog([]) ==> entries == map[];
    assert log != ArrayLog([]) ==> entries == map[Name(n) := log];
  }

  /** A document with something pending in its array. */
  function Holding(n: string, tree: Tree): Tree { PMap(Named, map[Name(n) := tree], {}) }

  function Changing(n: string, changes: seq<ArrayChange>): Byml { Map(Named, map[Name(n) := ArrayLog(changes)]) }

  lemma FreshHolding(n: string, rows: seq<Byml>)
    ensures Fresh(Document(n, rows)) == Holding(n, PArray(ValueArrays.FreshAll(rows), None))
  {
    assert Fresh(Array(rows)) == PArray(ValueArrays.FreshAll(rows), None);
    assert Fresh(Document(n, rows)).entries == map[Name(n) := Fresh(Array(rows))];
  }

  lemma OneEntryMerged(c: Context, n: string, tree: Tree, changes: seq<ArrayChange>)
    requires tree.PArray?
    ensures Merge(c, 0, Holding(n, tree), Changing(n, changes))
            == match MergeArray(c, 1, Some(n), tree.items, tree.entry, changes) case None => None case Some(more) => Some(Holding(n, more))
  {
    hide MergeArray;
    var k, base, log := Name(n), Holding(n, tree), map[Name(n) := ArrayLog(changes)];
    assert Sets(log, k) && base.entries[k] == tree;
    var entry := MergeEntry(c, 1, k, tree, log[k]);
    assert entry == MergeArray(c, 1, Some(n), tree.items, tree.entry, changes);
    var merged := MergeMap(c, 1, base, Map(Named, log));
    if entry.Some? {
      assert forall h :: h in log ==> h == k;
      assert merged.Some? && merged.value.removed == {};
      assert merged.value.entries == map[k := entry.value];
    }
  }

  lemma OneEntrySettled(c: Context, n: string, tree: Tree)
    ensures Settle(c, Holding(n, tree))
            == match Settle(c, tree) case None => None case Some(node) => Some(Map(Named, map[Name(n) := node]))
  {
    var all := Holding(n, tree);
    assert all.entries[Name(n)] == tree && forall k :: k in all.entries <==> k == Name(n);
    if Settle(c, tree).None? {
      assert !(forall k :: k in all.entries && k !in all.removed ==> Settle(c, all.entries[k]).Some?);
    }
    if Settle(c, tree).Some? {
      var settled := Settle(c, all).value;
      assert settled.Map? && settled.entries == map[Name(n) := Settle(c, tree).value];
    }
  }

  /** The array comes back as its changelog, compared the way the tables say, makes it. */
  lemma ArrayComesBack(c: Context, n: string, src: seq<Byml>, vanilla: seq<Byml>, changes: seq<ArrayChange>)
    requires DiffArray(c.rules, c.type_, 1, c.rules.builder(n, c.type_, 1), src, vanilla).0 == ArrayLog(changes)
    ensures ComesBack(c, Document(n, src), Document(n, vanilla))
            == match ArrayResult(c, n, vanilla, changes) case None => None case Some(node) => Some(Map(Named, map[Name(n) := node]))
  {
    hide Diff, Merge, MergeArray, Settle, Fresh;
    FreshItems(vanilla);
    OneEntryLogged(c, n, src, vanilla, ArrayLog(changes));
    if changes == [] {
      NothingMerged(c, n, vanilla);
    } else {
      FreshHolding(n, vanilla);
      OneEntryMerged(c, n, PArray(ValueArrays.FreshAll(vanilla), None), changes);
      var tree := MergeArray(c, 1, Some(n), Fresh(Array(vanilla)).items, None, changes);
      if tree.Some? { OneEntrySettled(c, n, tree.value); }
    }
  }

  lemma NothingMerged(c: Context, n: string, vanilla: seq<Byml>)
    ensures Merge(c, 0, Fresh(Document(n, vanilla)), Map(Named, map[])) == Some(Fresh(Document(n, vanilla)))
    ensures Settle(c, Fresh(Document(n, vanilla))) == Some(Document(n, vanilla))
    ensures ArrayResult(c, n, vanilla, []) == Some(Array(vanilla))
  {
    hide Settle, Fresh;
    var base := Holding(n, PArray(ValueArrays.FreshAll(vanilla), None));
    FreshHolding(n, vanilla);
    FreshItems(vanilla);
    FreshSettles(c, Document(n, vanilla));
    FreshSettles(c, Array(vanilla));
    var merged := MergeMap(c, 1, base, Map(Named, map[]));
    assert merged.Some? && merged.value.entries == base.entries && merged.value.removed == {};
    assert Fresh(Array(vanilla)) == PArray(ValueArrays.FreshAll(vanilla), None) by { FreshIs(vanilla); }
  }

  lemma FreshIs(rows: seq<Byml>)
    ensures Fresh(Array(rows)) == PArray(ValueArrays.FreshAll(rows), None)
  {
  }

  /** A document that is an array compared by key comes back with its rows in the order of their places. */
  lemma KeyedDocument(c: Context, n: string, name: KeyName, src: seq<Byml>, vanilla: seq<Byml>) returns (result: seq<Byml>, order: seq<nat>)
    requires KeyedOrder.KeyedArray(c, 1, Some(n), name, src, vanilla)
    ensures ComesBack(c, Document(n, src), Document(n, vanilla)) == Some(Document(n, result))
    ensures KeyedOrder.ByPlace(name, src, vanilla, order) && KeyedOrder.Arranged(c, 1, result, src, order)
    ensures KeyedReturn.Undisturbed(name, src, vanilla) ==> KeyedReturn.SameRows(c, 1, result, src)
  {
    hide ComesBack, KeyedOrder.ByPlace, KeyedOrder.Arranged, KeyedReturn.Undisturbed, KeyedReturn.SameRows, KeyedChanges, MergeArray, Settle;
    result, order := KeyedOrder.KeyedArrayArranged(c, 1, Some(n), name, src, vanilla);
    var same := KeyedReturn.KeyedArrayBackIff(c, 1, Some(n), name, src, vanilla);
    assert same == result;
    ArrayComesBack(c, n, src, vanilla, KeyedChanges(c.rules, c.type_, 1, name, src, vanilla));
  }

  /** One that is an array of scalars compared by value comes back as its arrangement. */
  lemma ValueDocument(c: Context, n: string, src: seq<Byml>, vanilla: seq<Byml>)
    requires c.rules.builder(n, c.type_, 1) == Default && ValueArrays.Scalars(src) && ValueArrays.Scalars(vanilla)
    ensures ComesBack(c, Document(n, src), Document(n, vanilla)) == Some(Document(n, ValueOrder.Arrangement(src, vanilla)))
  {
    hide ComesBack, ValueOrder.Arrangement, DefaultChanges, MergeArray, Settle, Fresh;
    var changes := DefaultChanges(c.rules, c.type_, 1, src, vanilla);
    ValueOrder.ValueArrayArranged(c, 1, Some(n), src, vanilla);
    FreshItems(vanilla);
    ArrayComesBack(c, n, src, vanilla, changes);
  }

  // ---------- several mods ----------

  function Logs(n: string, logs: seq<seq<ArrayChange>>): seq<Byml> { seq(|logs|, i requires 0 <= i < |logs| => Changing(n, logs[i])) }

  /** The document several changelogs leave is that with the array they leave. */
  lemma {:induction false} ManyMerged(c: Context, n: string, rows: seq<Byml>, logs: seq<seq<ArrayChange>>)
    ensures MergeAll(c, 0, Fresh(Document(n, rows)), Logs(n, logs))
            == match KeyedOutcome.MergeLogs(c, 1, n, PArray(ValueArrays.FreshAll(rows), None), logs)
               case None => None
               case Some(tree) => Some(Holding(n, tree))
    ensures var tree := KeyedOutcome.MergeLogs(c, 1, n, PArray(ValueArrays.FreshAll(rows), None), logs); tree.Some? ==> tree.value.PArray?
    decreases |logs|
  {
    hide Merge, MergeChanges, Fresh, Holding, Changing;
    FreshHolding(n, rows);
    if logs != [] {
      var last := |logs| - 1;
      ManyMerged(c, n, rows, logs[..last]);
      assert Logs(n, logs)[..last] == Logs(n, logs[..last]);
      var before := KeyedOutcome.MergeLogs(c, 1, n, PArray(ValueArrays.FreshAll(rows), None), logs[..last]);
      if before.Some? { OneEntryMerged(c, n, before.value, logs[last]); }
    }
  }

  /** A mod that changes a row after another removed it brings it back; a removal after the change takes it away. */
  lemma EditAgainstRemoval(c: Context, n: string, x: Scalar, y: Scalar, z: Scalar)
    requires c.rules.builder(n, c.type_, 1) == Default && x != y && y != z && x != z
    ensures var vanilla, one, two := Document(n, [Leaf(x), Leaf(y)]), Document(n, [Leaf(x)]), Document(n, [Leaf(x), Leaf(z)]);
            var a, b := Diff(c.rules, c.type_, 0, one, vanilla).0, Diff(c.rules, c.type_, 0, two, vanilla).0;
            var ab, ba := MergeAll(c, 0, Fresh(vanilla), [a, b]), MergeAll(c, 0, Fresh(vanilla), [b, a]);
            && ab.Some? && Settle(c, ab.value) == Some(two)
            && ba.Some? && Settle(c, ba.value) == Some(one)
  {
    hide Diff, MergeAll, Settle, Fresh, DefaultChanges, KeyedOutcome.MergeLogs;
    var rows, removal, edit := [Leaf(x), Leaf(y)], [Change(1, Remove, NULL)], [Change(1, Edit, Leaf(z))];
    TwoLogs(c.rules, c.type_, x, y, z);
    OneEntryLogged(c, n, [Leaf(x)], rows, ArrayLog(removal));
    OneEntryLogged(c, n, [Leaf(x), Leaf(z)], rows, ArrayLog(edit));
    ManyMerged(c, n, rows, [removal, edit]);
    ManyMerged(c, n, rows, [edit, removal]);
    assert Logs(n, [removal, edit]) == [Changing(n, removal), Changing(n, edit)];
    assert Logs(n, [edit, removal]) == [Changing(n, edit), Changing(n, removal)];
    TwoMerged(c, n, x, y, z);
    var edited := PArray([Plain(Leaf(x)), Plain(Leaf(z))], Some(Removing({})));
    var removed := PArray([Plain(Leaf(x)), Plain(Leaf(z))], Some(Removing({1})));
    TwoSettled(c, x, z);
    OneEntrySettled(c, n, edited);
    OneEntrySettled(c, n, removed);
  }

  lemma TwoLogs(rules: Rules, type_: string, x: Scalar, y: Scalar, z: Scalar)
    requires x != y && y != z && x != z
    ensures var rows := [Leaf(x), Leaf(y)];
            && DefaultChanges(rules, type_, 1, [Leaf(x)], rows) == [Change(1, Remove, NULL)]
            && DefaultChanges(rules, type_, 1, [Leaf(x), Leaf(z)], rows) == [Change(1, Edit, Leaf(z))]
  {
    var rows, one, two := [Leaf(x), Leaf(y)], [Leaf(x)], [Leaf(x), Leaf(z)];
    assert FirstFree(rows, {}, Leaf(x), 0) == 0 && FirstFree(rows, {0}, Leaf(z), 0) == 2;
    var none: set<nat> := {};
    assert none + {0} == {0};
    assert Matched(one, rows, 0) == Matched(two, rows, 0) == ({}, {});
    assert Matched(one, rows, 1) == Matched(two, rows, 1) == ({0}, {0});
    assert Matched(two, rows, 2) == ({0}, {0});
    assert Unmatched({0}, 1, 1) == [] && Unmatched({0}, 0, 1) == [];
    assert Unmatched({0}, 2, 2) == [] && Unmatched({0}, 1, 2) == [1] && Unmatched({0}, 0, 2) == [1];
    assert Diff(rules, type_, 1, Leaf(z), Leaf(y)).0 == Leaf(z);
    OneChangeEach(rules, type_, one, two, rows);
  }

  lemma OneChangeEach(rules: Rules, type_: string, one: seq<Byml>, two: seq<Byml>, rows: seq<Byml>)
    requires |one| == 1 && |two| == |rows| == 2
    ensures ValueChanges(rules, type_, 1, one, rows, {0}, {0}, [], 0) == ([Change(1, Remove, NULL)], [])
    ensures ValueChanges(rules, type_, 1, two, rows, {0}, {0}, [1], 0) == ([Change(1, Edit, Diff(rules, type_, 1, two[1], rows[1]).0)], [])
  {
    hide Diff;
    var nothing: seq<ArrayChange> := [];
    assert [Change(1, Remove, NULL)] + nothing == [Change(1, Remove, NULL)];
    var edit := Change(1, Edit, Diff(rules, type_, 1, two[1], rows[1]).0);
    assert [edit] + nothing == [edit];
    assert ValueChanges(rules, type_, 1, one, rows, {0}, {0}, [], 2) == ([], []);
    assert ValueChanges(rules, type_, 1, one, rows, {0}, {0}, [], 1) == ([Change(1, Remove, NULL)], []);
    var rest: seq<nat> := [1][1..];
    assert rest == [];
    assert ValueChanges(rules, type_, 1, two, rows, {0}, {0}, rest, 2) == ([], []);
    assert ValueChanges(rules, type_, 1, two, rows, {0}, {0}, [1], 1) == ([Change(1, Edit, Diff(rules, type_, 1, two[1], rows[1]).0)], []);
  }

  lemma OneMerged(c: Context, n: string, items: seq<Tree>, entry: Option<ArrayEntry>, change: ArrayChange)
    ensures var keyName, start := c.rules.mergerKey(n, c.MergeType(), 1), ArrayState(items, entry, None, None);
            var after := MergeChange(c, 1, Some(n), keyName, start, change);
            MergeArray(c, 1, Some(n), items, entry, [change])
            == match after case None => None case Some(state) => Some(PArray(state.items, state.entry))
  {
    hide MergeChange, MergeChanges;
    RowEdits.OneChangeMerged(c, 1, Some(n), c.rules.mergerKey(n, c.MergeType(), 1), ArrayState(items, entry, None, None), change);
  }

  function Removing(removals: set<int>): ArrayEntry { ArrayEntry(None, 0, [], removals) }

  lemma RemovalMerged(c: Context, n: string, items: seq<Tree>)
    ensures MergeArray(c, 1, Some(n), items, None, [Change(1, Remove, NULL)]) == Some(PArray(items, Some(Removing({1}))))
  {
    hide MergeArray;
    var none: set<int> := {};
    assert none + {1} == {1};
    OneMerged(c, n, items, None, Change(1, Remove, NULL));
  }

  lemma EditMerged(c: Context, n: string, items: seq<Tree>, entry: Option<ArrayEntry>, z: Scalar)
    requires |items| == 2 && (entry == None || entry == Some(Removing({1})))
    ensures MergeArray(c, 1, Some(n), items, entry, [Change(1, Edit, Leaf(z))])
            == Some(PArray([items[0], Plain(Leaf(z))], if entry.None? then None else Some(Removing({}))))
  {
    hide MergeArray;
    var one: set<int> := {1};
    assert one - {1} == {};
    OneMerged(c, n, items, entry, Change(1, Edit, Leaf(z)));
    assert items[1 := Plain(Leaf(z))] == [items[0], Plain(Leaf(z))];
  }

  lemma TwoMerged(c: Context, n: string, x: Scalar, y: Scalar, z: Scalar)
    ensures var start := PArray(ValueArrays.FreshAll([Leaf(x), Leaf(y)]), None);
            var removal, edit := [Change(1, Remove, NULL)], [Change(1, Edit, Leaf(z))];
            var items := [Plain(Leaf(x)), Plain(Leaf(z))];
            && KeyedOutcome.MergeLogs(c, 1, n, start, [removal, edit]) == Some(PArray(items, Some(Removing({}))))
            && KeyedOutcome.MergeLogs(c, 1, n, start, [edit, removal]) == Some(PArray(items, Some(Removing({1}))))
  {
    hide MergeArray;
    var start := PArray(ValueArrays.FreshAll([Leaf(x), Leaf(y)]), None);
    var removal, edit := [Change(1, Remove, NULL)], [Change(1, Edit, Leaf(z))];
    assert start.items == [Plain(Leaf(x)), Plain(Leaf(y))];
    RemovalMerged(c, n, start.items);
    EditMerged(c, n, start.items, Some(Removing({1})), z);
    EditMerged(c, n, start.items, None, z);
    RemovalMerged(c, n, [Plain(Leaf(x)), Plain(Leaf(z))]);
    LogsInTurn(c, n, start, removal, edit);
    LogsInTurn(c, n, start, edit, removal);
  }

  lemma LogsInTurn(c: Context, n: string, start: Tree, first: seq<ArrayChange>, second: seq<ArrayChange>)
    requires start.PArray?
    ensures KeyedOutcome.MergeLogs(c, 1, n, start, [first, second])
            == match MergeArray(c, 1, Some(n), start.items, start.entry, first)
               case None => None
               case Some(tree) => if tree.PArray? then MergeArray(c, 1, Some(n), tree.items, tree.entry, second) else None
  {
    hide MergeArray;
    assert [first, second][..1] == [first] && [first][..0] == [];
    assert KeyedOutcome.MergeLogs(c, 1, n, start, [first][..0]) == Some(start);
    assert KeyedOutcome.MergeLogs(c, 1, n, start, [first]) == MergeArray(c, 1, Some(n), start.items, start.entry, first);
  }

  lemma TwoSettled(c: Context, x: Scalar, z: Scalar)
    ensures var items := [Plain(Leaf(x)), Plain(Leaf(z))];
            && Settle(c, PArray(items, Some(Removing({})))) == Some(Array([Leaf(x), Leaf(z)]))
            && Settle(c, PArray(items, Some(Removing({1})))) == Some(Array([Leaf(x)]))
  {
    hide Settle, SettleArray;
    var rows, items := [Leaf(x), Leaf(z)], [Plain(Leaf(x)), Plain(Leaf(z))];
    FreshSettles(c, Leaf(x));
    FreshSettles(c, Leaf(z));
    SettledNode(c, items, Some(Removing({})), rows);
    SettledNode(c, items, Some(Removing({1})), rows);
    OnlyRemoved(c, rows, {});
    OnlyRemoved(c, rows, {1});
    assert Marked(rows, {}) == rows && Marked(rows, {1}) == [Leaf(x), Marker(Remove)];
    RetainedTwo(Leaf(x), Leaf(z));
    RetainedTwo(Leaf(x), Marker(Remove));
  }

  lemma RetainedTwo(a: Byml, b: Byml)
    requires !a.IsRemove()
    ensures Retained([a, b]) == if b.IsRemove() then [a] else [a, b]
  {
    assert [a, b][..1] == [a] && [a][..0] == [];
    assert Retained([a]) == [a];
  }

  lemma OnlyRemoved(c: Context, rows: seq<Byml>, removals: set<int>)
    ensures SettleArray(c, rows, Removing(removals)) == Some(Retained(Marked(rows, removals)))
  {
    hide SettleArray, Retained, Marked, Splice.Interleave;
    ValueOrder.ScalarsSplice(c, rows, Removing(removals), 0, []);
    ValueOrder.NothingWoven(Marked(rows, removals), 0);
  }
}
