/** What is added by merging rows that share a key is shorter than the rows: merging inside a merge
    comes to an end. */
module Heights {
  import opened Documents
  import opened Changelogs
  import opened Pending

  lemma LargestAtMost(s: set<nat>, n: nat)
    requires forall x :: x in s ==> x <= n
    ensures Largest(s) <= n
  {
  }

  lemma HeightAtMost(node: Byml, n: nat)
    requires node.Array? ==> forall i :: 0 <= i < |node.items| ==> Height(node.items[i]) <= n
    requires node.Map? ==> forall k :: k in node.entries ==> Height(node.entries[k]) <= n
    requires node.ArrayLog? ==> forall i :: 0 <= i < |node.changes| ==> Height(node.changes[i].node) <= n
    ensures Height(node) <= n + 1
  {
    match node
    case Array(items) => LargestAtMost(set i | 0 <= i < |items| :: Height(items[i]), n);
    case Map(_, entries) => LargestAtMost(set k | k in entries :: Height(entries[k]), n);
    case ArrayLog(changes) => LargestAtMost(set i | 0 <= i < |changes| :: Height(changes[i].node), n);
    case _ =>
  }

  lemma HeightOfItem(items: seq<Byml>, i: nat)
    requires i < |items|
    ensures Height(items[i]) < Height(Array(items))
  {
    var heights := set j | 0 <= j < |items| :: Height(items[j]);
    assert Height(items[i]) in heights;
  }

  lemma HeightOfEntry(node: Byml, k: Key)
    requires node.Map? && k in node.entries
    ensures Height(node.entries[k]) < Height(node)
  {
    var heights := set j | j in node.entries :: Height(node.entries[j]);
    assert Height(node.entries[k]) in heights;
  }

  lemma HeightOfChange(changes: seq<ArrayChange>, i: nat)
    requires i < |changes|
    ensures Height(changes[i].node) < Height(ArrayLog(changes))
  {
    var heights := set j | 0 <= j < |changes| :: Height(changes[j].node);
    assert Height(changes[i].node) in heights;
  }

  // ---------- a changelog is no taller than its document ----------

  ghost predicate NodesWithin(changes: seq<ArrayChange>, n: nat) {
    forall i :: 0 <= i < |changes| ==> Height(changes[i].node) <= n
  }

  ghost predicate RowsWithin(rows: seq<Byml>, n: nat) {
    forall i :: 0 <= i < |rows| ==> Height(rows[i]) <= n
  }

  lemma {:induction false} DiffHeight(rules: Rules, type_: string, depth: int, src: Byml, vanilla: Byml)
    ensures Height(Diff(rules, type_, depth, src, vanilla).0) <= Height(src)
    decreases src, 2
  {
    if src.Map? && vanilla.Map? && src.kind == vanilla.kind {
      DiffMapHeight(rules, type_, depth, src, vanilla.entries);
    } else if src.Array? && vanilla.Array? {
      DiffArrayHeight(rules, type_, depth, UnnamedBuilder(type_, depth), src, vanilla.items);
    }
  }

  lemma {:induction false} DiffMapHeight(rules: Rules, type_: string, depth: int, src: Byml, vanilla: map<Key, Byml>)
    requires src.Map?
    ensures Height(Map(src.kind, DiffMap(rules, type_, depth, src, vanilla))) <= Height(src)
    decreases src, 0
  {
    var log := DiffMap(rules, type_, depth, src, vanilla);
    assert Height(src) >= 1;
    forall k | k in log
      ensures Height(log[k]) <= Height(src) - 1
    {
      if k in src.entries {
        HeightOfEntry(src, k);
        if k in vanilla {
          DiffEntryHeight(rules, type_, depth + 1, k, src.entries[k], vanilla[k]);
        }
      }
    }
    HeightAtMost(Map(src.kind, log), Height(src) - 1);
  }

  lemma {:induction false} DiffEntryHeight(rules: Rules, type_: string, depth: int, key: Key, src: Byml, vanilla: Byml)
    ensures Height(DiffEntry(rules, type_, depth, key, src, vanilla).0) <= Height(src)
    decreases src, 3
  {
    if key.Name? && src.Array? && vanilla.Array? {
      DiffArrayHeight(rules, type_, depth, rules.builder(key.text, type_, depth), src, vanilla.items);
    } else {
      DiffHeight(rules, type_, depth, src, vanilla);
    }
  }

  lemma {:induction false} DiffArrayHeight(rules: Rules, type_: string, depth: int, builder: Builder, src: Byml, vanilla: seq<Byml>)
    requires src.Array?
    ensures Height(DiffArray(rules, type_, depth, builder, src.items, vanilla).0) <= Height(src)
    decreases src, 1
  {
    var n := Height(src) - 1;
    forall i | 0 <= i < |src.items|
      ensures Height(src.items[i]) <= n
    {
      HeightOfItem(src.items, i);
    }
    forall i, other | 0 <= i < |src.items|
      ensures Height(Diff(rules, type_, depth, src.items[i], other).0) <= n
    {
      DiffHeight(rules, type_, depth, src.items[i], other);
    }
    assert DiffsWithin(rules, type_, depth, src.items, n);
    ChangesHeight(rules, type_, depth, builder, src.items, vanilla, n);
    HeightAtMost(DiffArray(rules, type_, depth, builder, src.items, vanilla).0, n);
  }

  lemma ChangesHeight(rules: Rules, type_: string, depth: int, builder: Builder, src: seq<Byml>, vanilla: seq<Byml>, n: nat)
    requires DiffsWithin(rules, type_, depth, src, n)
    ensures var log := DiffArray(rules, type_, depth, builder, src, vanilla).0;
            log.ArrayLog? && NodesWithin(log.changes, n)
  {
    match builder {
      case Default =>
        DefaultHeight(rules, type_, depth, src, vanilla, n);
      case Keyed(name) =>
        RowChangesHeight(rules, type_, depth, name, src, vanilla, 0, 0, n);
        RowRemovalsHeight(name, src, vanilla, 0, n);
        NodesAppend(RowChanges(rules, type_, depth, name, src, vanilla, 0, 0), RowRemovals(name, src, vanilla, 0), n);
      case DirectIndex =>
        DirectHeight(rules, type_, depth, src, vanilla, 0, n);
    }
  }

  lemma NodesAppend(a: seq<ArrayChange>, b: seq<ArrayChange>, n: nat)
    requires NodesWithin(a, n) && NodesWithin(b, n)
    ensures NodesWithin(a + b, n)
  {
  }

  ghost predicate DiffsWithin(rules: Rules, type_: string, depth: int, src: seq<Byml>, n: nat) {
    RowsWithin(src, n) && forall i, other :: 0 <= i < |src| ==> Height(Diff(rules, type_, depth, src[i], other).0) <= n
  }

  lemma {:induction false} DirectHeight(rules: Rules, type_: string, depth: int, src: seq<Byml>, vanilla: seq<Byml>, i: nat, n: nat)
    requires DiffsWithin(rules, type_, depth, src, n)
    ensures NodesWithin(DirectChanges(rules, type_, depth, src, vanilla, i), n)
    decreases |src| + |vanilla| - i
  {
    if i < |src| || i < |vanilla| {
      DirectHeight(rules, type_, depth, src, vanilla, i + 1, n);
    }
  }

  lemma {:induction false} RowChangesHeight(rules: Rules, type_: string, depth: int, name: KeyName, src: seq<Byml>, vanilla: seq<Byml>,
                                            i: nat, added: nat, n: nat)
    requires added <= i <= |src| && DiffsWithin(rules, type_, depth, src, n)
    ensures NodesWithin(RowChanges(rules, type_, depth, name, src, vanilla, i, added), n)
    decreases |src| - i
  {
    if i < |src| {
      var here, more := RowChange(rules, type_, depth, name, src, vanilla, i, added);
      RowChangesHeight(rules, type_, depth, name, src, vanilla, i + 1, more, n);
      RowHeight(rules, type_, depth, name, src, vanilla, i, here, n);
      NodesAppend(here, RowChanges(rules, type_, depth, name, src, vanilla, i + 1, more), n);
    }
  }

  lemma RowHeight(rules: Rules, type_: string, depth: int, name: KeyName, src: seq<Byml>, vanilla: seq<Byml>, i: nat,
                  here: seq<ArrayChange>, n: nat)
    requires i < |src| && DiffsWithin(rules, type_, depth, src, n)
    requires IsRowChange(rules, type_, depth, name, src[i], vanilla, here)
    ensures NodesWithin(here, n)
  {
    var index := IndexOf(vanilla, name);
    var key := KeyOf(name, src[i]);
    if key in index {
      assert Height(Diff(rules, type_, depth, src[i], vanilla[index[key]]).0) <= n;
    }
  }

  lemma {:induction false} RowRemovalsHeight(name: KeyName, src: seq<Byml>, vanilla: seq<Byml>, j: nat, n: nat)
    requires j <= |vanilla|
    ensures NodesWithin(RowRemovals(name, src, vanilla, j), n)
    decreases |vanilla| - j
  {
    if j < |vanilla| {
      RowRemovalsHeight(name, src, vanilla, j + 1, n);
    }
  }

  lemma {:induction false} ValueChangesHeight(rules: Rules, type_: string, depth: int, src: seq<Byml>, vanilla: seq<Byml>,
                                              taken: set<nat>, matched: set<nat>, queue: seq<nat>, i: nat, n: nat)
    requires i <= |vanilla| && DiffsWithin(rules, type_, depth, src, n)
    ensures NodesWithin(ValueChanges(rules, type_, depth, src, vanilla, taken, matched, queue, i).0, n)
    decreases |vanilla| - i
  {
    if i < |vanilla| {
      ValueChangesHeight(rules, type_, depth, src, vanilla, taken, matched, queue, i + 1, n);
      ValueChangesHeight(rules, type_, depth, src, vanilla, taken, matched, if queue == [] then [] else queue[1..], i + 1, n);
    }
  }

  lemma DefaultHeight(rules: Rules, type_: string, depth: int, src: seq<Byml>, vanilla: seq<Byml>, n: nat)
    requires DiffsWithin(rules, type_, depth, src, n)
    ensures NodesWithin(DefaultChanges(rules, type_, depth, src, vanilla), n)
  {
    var (taken, matched) := Matched(src, vanilla, |src|);
    var queue := Unmatched(matched, 0, |src|);
    ValueChangesHeight(rules, type_, depth, src, vanilla, taken, matched, queue, 0, n);
    var (changes, left) := ValueChanges(rules, type_, depth, src, vanilla, taken, matched, queue, 0);
    forall k | 0 <= k < |left|
      ensures left[k] < |src| && Height(src[left[k]]) <= n
    {
      assert left[k] in left && left[k] in queue;
    }
  }

  // ---------- merging adds nothing taller than what is inside the changelog ----------

  lemma TallestAtMost(tree: Tree, n: nat)
    requires tree.PMap? ==> forall k :: k in tree.entries ==> Tallest(tree.entries[k]) <= n
    requires tree.PArray? ==> forall i :: 0 <= i < |tree.items| ==> Tallest(tree.items[i]) <= n
    requires tree.PArray? && tree.entry.Some? ==> EntryHeight(tree.entry.value) <= n
    ensures Tallest(tree) <= n
  {
    match tree
    case Plain(_) =>
    case PMap(_, entries, _) => LargestAtMost(set k | k in entries :: Tallest(entries[k]), n);
    case PArray(items, _) => LargestAtMost(set i | 0 <= i < |items| :: Tallest(items[i]), n);
  }

  lemma {:induction false} FreshTallest(node: Byml)
    ensures Tallest(Fresh(node)) == 0
    decreases node
  {
    match node
    case Map(_, entries) =>
      forall k | k in entries ensures Tallest(Fresh(entries[k])) == 0 { FreshTallest(entries[k]); }
      TallestAtMost(Fresh(node), 0);
    case Array(items) =>
      forall i | 0 <= i < |items| ensures Tallest(Fresh(items[i])) == 0 { FreshTallest(items[i]); }
      TallestAtMost(Fresh(node), 0);
    case _ =>
  }

  ghost predicate TreesWithin(items: seq<Tree>, n: nat) {
    forall i :: 0 <= i < |items| ==> Tallest(items[i]) <= n
  }

  ghost predicate EntryWithin(entry: Option<ArrayEntry>, n: nat) {
    entry.Some? ==> EntryHeight(entry.value) <= n
  }

  lemma {:induction false} MergeTallest(c: Context, depth: int, base: Tree, log: Byml, n: nat)
    requires Tallest(base) <= n && Height(log) <= n + 1
    ensures var r := Merge(c, depth, base, log); r.Some? ==> Tallest(r.value) <= n
    decreases log, 2
  {
    TallestChild(base);
    if base.PMap? && log.Map? && base.kind == log.kind {
      MergeMapTallest(c, depth + 1, base, log, n);
    } else if base.PArray? && log.ArrayLog? {
      ChangesWithin(log.changes, n);
      MergeArrayTallest(c, depth, None, base.items, base.entry, log.changes, n);
    } else if base.PArray? && log.Array? {
      forall i | 0 <= i < |log.items| ensures Tallest(Fresh(log.items[i])) == 0 { FreshTallest(log.items[i]); }
      TallestAtMost(Merge(c, depth, base, log).value, n);
    }
  }

  lemma ChangesWithin(changes: seq<ArrayChange>, n: nat)
    requires Height(ArrayLog(changes)) <= n + 1
    ensures NodesWithin(changes, n)
  {
    forall i | 0 <= i < |changes| ensures Height(changes[i].node) <= n { HeightOfChange(changes, i); }
  }

  lemma {:induction false} MergeMapTallest(c: Context, depth: int, base: Tree, log: Byml, n: nat)
    requires base.PMap? && log.Map? && Tallest(base) <= n && Height(log) <= n + 1
    ensures var r := MergeMap(c, depth, base, log); r.Some? ==> Tallest(r.value) <= n
    decreases log, 1
  {
    TallestChild(base);
    var r := MergeMap(c, depth, base, log);
    if r.Some? {
      forall k | k in r.value.entries
        ensures Tallest(r.value.entries[k]) <= n
      {
        if Sets(log.entries, k) {
          HeightOfEntry(log, k);
          FreshTallest(log.entries[k]);
          if k in base.entries {
            MergeEntryTallest(c, depth, k, base.entries[k], log.entries[k], n);
          }
        }
      }
      TallestAtMost(r.value, n);
    }
  }

  lemma {:induction false} MergeEntryTallest(c: Context, depth: int, key: Key, base: Tree, log: Byml, n: nat)
    requires Tallest(base) <= n && Height(log) <= n
    ensures var r := MergeEntry(c, depth, key, base, log); r.Some? ==> Tallest(r.value) <= n
    decreases log, 3
  {
    if key.Name? && log.ArrayLog? && base.PArray? {
      TallestChild(base);
      ChangesWithin(log.changes, n);
      MergeArrayTallest(c, depth, Some(key.text), base.items, base.entry, log.changes, n);
    } else if log.IsContainer() && base.IsContainer() {
      MergeTallest(c, depth, base, log, n);
    } else {
      FreshTallest(log);
    }
  }

  lemma {:induction false} MergeArrayTallest(c: Context, depth: int, name: Option<string>, items: seq<Tree>, entry: Option<ArrayEntry>,
                                             changes: seq<ArrayChange>, n: nat)
    requires TreesWithin(items, n) && EntryWithin(entry, n) && NodesWithin(changes, n)
    ensures var r := MergeArray(c, depth, name, items, entry, changes); r.Some? ==> Tallest(r.value) <= n
    decreases changes, 1
  {
    var keyName := if name.Some? then c.rules.mergerKey(name.value, c.MergeType(), depth) else None;
    MergeChangesTallest(c, depth, name, keyName, ArrayState(items, entry, None, None), changes, n);
    var r := MergeArray(c, depth, name, items, entry, changes);
    if r.Some? {
      TallestAtMost(r.value, n);
    }
  }

  ghost predicate StateWithin(state: ArrayState, n: nat) {
    TreesWithin(state.items, n) && EntryWithin(state.entry, n)
  }

  lemma {:induction false} MergeChangesTallest(c: Context, depth: int, name: Option<string>, keyName: Option<KeyName>, state: ArrayState,
                                               changes: seq<ArrayChange>, n: nat)
    requires StateWithin(state, n) && NodesWithin(changes, n)
    ensures var r := MergeChanges(c, depth, name, keyName, state, changes); r.Some? ==> StateWithin(r.value, n)
    decreases changes, 0, |changes|
  {
    if changes != [] {
      var last := |changes| - 1;
      assert changes[last] in changes;
      MergeChangesTallest(c, depth, name, keyName, state, changes[..last], n);
      var before := MergeChanges(c, depth, name, keyName, state, changes[..last]);
      if before.Some? {
        MergeChangeTallest(c, depth, name, keyName, before.value, changes[last], n);
      }
    }
  }

  lemma {:induction false} MergeChangeTallest(c: Context, depth: int, name: Option<string>, keyName: Option<KeyName>, state: ArrayState,
                                              change: ArrayChange, n: nat)
    requires StateWithin(state, n) && Height(change.node) <= n
    ensures var r := MergeChange(c, depth, name, keyName, state, change); r.Some? ==> StateWithin(r.value, n)
    decreases change, 4
  {
    match change.change
    case Add => AdditionWithin(state, depth, name, change.index, change.node, n);
    case Remove => RemovalWithin(state.entry, n);
    case Edit =>
      RemovalWithin(state.entry, n);
      var s := WithoutRemoval(state, change.index);
      var at := BestMatch(StripAll(s.items), change.index, change.key, keyName, s.index).0;
      if at.Some? && at.value < |s.items| {
        FreshTallest(change.node);
        if change.node.IsContainer() {
          MergeTallest(c, depth, s.items[at.value], change.node, n);
        }
      }
  }

  lemma AdditionWithin(state: ArrayState, depth: int, name: Option<string>, index: int, node: Byml, n: nat)
    requires StateWithin(state, n) && Height(node) <= n
    ensures StateWithin(WithAddition(state, depth, name, index, node), n)
  {
    var entry := if state.entry.Some? then state.entry.value else ArrayEntry(name, depth, [], {});
    var after := WithAddition(state, depth, name, index, node).entry;
    if after.Some? && after != state.entry {
      var lists: seq<seq<(int, Byml)>> := after.value.additions;
      forall l, i | 0 <= l < |lists| && 0 <= i < |lists[l]|
        ensures Height(lists[l][i].1) <= n
      {
        if l < |entry.additions| && i < |entry.additions[l]| {
          AdditionHeight(entry, l, i);
        }
      }
      LargestAtMost(set l, i | 0 <= l < |lists| && 0 <= i < |lists[l]| :: Height(lists[l][i].1), n);
    }
  }

  lemma AdditionHeight(entry: ArrayEntry, l: nat, i: nat)
    requires l < |entry.additions| && i < |entry.additions[l]|
    ensures Height(entry.additions[l][i].1) <= EntryHeight(entry)
  {
    var heights := set l, i | 0 <= l < |entry.additions| && 0 <= i < |entry.additions[l]| :: Height(entry.additions[l][i].1);
    assert Height(entry.additions[l][i].1) in heights;
  }

  lemma RemovalWithin(entry: Option<ArrayEntry>, n: nat)
    requires EntryWithin(entry, n)
    ensures entry.Some? ==> forall removals :: EntryWithin(Some(entry.value.(removals := removals)), n)
    ensures forall removals :: EntryWithin(Some(ArrayEntry(None, 0, [], removals)), n)
  {
    forall removals: set<int>
      ensures EntryWithin(Some(ArrayEntry(None, 0, [], removals)), n)
    {
      NoAdditions(ArrayEntry(None, 0, [], removals));
    }
  }

  lemma NoAdditions(entry: ArrayEntry)
    requires entry.additions == []
    ensures EntryHeight(entry) == 0
  {
  }

  lemma {:induction false} MergeAllTallest(c: Context, depth: int, base: Tree, logs: seq<Byml>, n: nat)
    requires Tallest(base) <= n && forall i :: 0 <= i < |logs| ==> Height(logs[i]) <= n + 1
    ensures var r := MergeAll(c, depth, base, logs); r.Some? ==> Tallest(r.value) <= n
  {
    if logs != [] {
      var last := |logs| - 1;
      MergeAllTallest(c, depth, base, logs[..last], n);
      var before := MergeAll(c, depth, base, logs[..last]);
      if before.Some? {
        MergeTallest(c, depth, before.value, logs[last], n);
      }
    }
  }

  /** The bound asked for when rows sharing a key are merged always holds. */
  lemma MergedRowsWithin(c: Context, depth: int, bound: nat, base: Byml, rows: seq<Byml>)
    requires bound > 0 && RowsWithin(rows, bound)
    ensures var logs := seq(|rows|, i requires 0 <= i < |rows| => Diff(c.rules, c.type_, depth, rows[i], base).0);
            var tree := MergeAll(Context(c.rules, c.type_, None), 0, Fresh(base), logs);
            tree.Some? ==> Tallest(tree.value) < bound
  {
    var logs := seq(|rows|, i requires 0 <= i < |rows| => Diff(c.rules, c.type_, depth, rows[i], base).0);
    forall i | 0 <= i < |logs| ensures Height(logs[i]) <= bound { DiffHeight(c.rules, c.type_, depth, rows[i], base); }
    FreshTallest(base);
    MergeAllTallest(Context(c.rules, c.type_, None), 0, Fresh(base), logs, bound - 1);
  }

  // ---------- additions, sorted into groups, stay within the bound ----------

  ghost predicate PairsWithin<K>(pairs: seq<(K, Byml)>, n: nat) {
    forall i :: 0 <= i < |pairs| ==> Height(pairs[i].1) <= n
  }

  ghost predicate GroupsWithin<K>(groups: seq<(K, seq<Byml>)>, n: nat) {
    forall g :: 0 <= g < |groups| ==> RowsWithin(groups[g].1, n)
  }

  lemma {:induction false} AddToGroupWithin<K>(groups: seq<(K, seq<Byml>)>, key: K, node: Byml, n: nat)
    requires GroupsWithin(groups, n) && Height(node) <= n
    ensures GroupsWithin(AddToGroup(groups, key, node), n)
  {
    if groups != [] && groups[0].0 != key {
      AddToGroupWithin(groups[1..], key, node, n);
    }
  }

  lemma {:induction false} GroupsByWithin<K>(pairs: seq<(K, Byml)>, n: nat)
    requires PairsWithin(pairs, n)
    ensures GroupsWithin(GroupsBy(pairs), n)
  {
    if pairs != [] {
      GroupsByWithin(pairs[..|pairs| - 1], n);
      AddToGroupWithin(GroupsBy(pairs[..|pairs| - 1]), pairs[|pairs| - 1].0, pairs[|pairs| - 1].1, n);
    }
  }

  lemma {:induction false} InsertGroupWithin(groups: seq<(int, seq<Byml>)>, group: (int, seq<Byml>), n: nat)
    requires GroupsWithin(groups, n) && RowsWithin(group.1, n)
    ensures GroupsWithin(InsertGroup(groups, group), n)
  {
    if groups != [] && group.0 >= groups[0].0 {
      InsertGroupWithin(groups[1..], group, n);
    }
  }

  lemma {:induction false} SortGroupsWithin(groups: seq<(int, seq<Byml>)>, n: nat)
    requires GroupsWithin(groups, n)
    ensures GroupsWithin(SortGroups(groups), n)
  {
    if groups != [] {
      SortGroupsWithin(groups[..|groups| - 1], n);
      InsertGroupWithin(SortGroups(groups[..|groups| - 1]), groups[|groups| - 1], n);
    }
  }

  lemma {:induction false} FlattenWithin(lists: seq<seq<(int, Byml)>>, n: nat)
    requires forall l :: 0 <= l < |lists| ==> PairsWithin(lists[l], n)
    ensures PairsWithin(Flatten(lists), n)
  {
    if lists != [] {
      FlattenWithin(lists[..|lists| - 1], n);
    }
  }

  lemma EntryGroupsWithin(entry: ArrayEntry)
    ensures GroupsWithin(SortGroups(GroupsBy(Flatten(entry.additions))), EntryHeight(entry))
  {
    var n := EntryHeight(entry);
    forall l | 0 <= l < |entry.additions|
      ensures PairsWithin(entry.additions[l], n)
    {
      forall i | 0 <= i < |entry.additions[l]|
        ensures Height(entry.additions[l][i].1) <= n
      {
        AdditionHeight(entry, l, i);
      }
    }
    FlattenWithin(entry.additions, n);
    GroupsByWithin(Flatten(entry.additions), n);
    SortGroupsWithin(GroupsBy(Flatten(entry.additions)), n);
  }

  lemma KeysWithin(name: Option<KeyName>, nodes: seq<Byml>, n: nat)
    requires RowsWithin(nodes, n)
    ensures GroupsWithin(GroupsBy(Keys(name, nodes)), n)
  {
    GroupsByWithin(Keys(name, nodes), n);
  }

  lemma KeyedRowHeight(name: KeyName, row: Byml)
    requires !KeyOf(name, row).IsEmpty()
    ensures Height(row) > 0
  {
  }
}
