/** Making a changelog, merging it onto vanilla and settling it rebuilds the modded document. */
module RoundTrip {
  import opened Documents
  import opened Changelogs
  import opened Pending
  import opened Splice
  import opened KeyedRows

  // ---------- what counts as the same document ----------

  /** A document up to the order of the rows of arrays compared by key. */
  datatype Norm =
    | NExact(node: Byml)
    | NMap(kind: Kind, entries: map<Key, Norm>)
    | NSeq(items: seq<Norm>)
    | NBag(bag: multiset<Norm>)

  ghost function Normal(rules: Rules, type_: string, depth: int, node: Byml): Norm
    decreases node, 1
  {
    match node
    case Map(kind, entries) => NMap(kind, map k | k in entries :: NormalEntry(rules, type_, depth + 1, k, entries[k]))
    case Array(items) => NormalArray(rules, type_, depth, UnnamedBuilder(type_, depth), items)
    case _ => NExact(node)
  }

  ghost function NormalEntry(rules: Rules, type_: string, depth: int, key: Key, node: Byml): Norm
    decreases node, 2
  {
    if key.Name? && node.Array? then NormalArray(rules, type_, depth, rules.builder(key.text, type_, depth), node.items)
    else Normal(rules, type_, depth, node)
  }

  ghost function NormalAll(rules: Rules, type_: string, depth: int, items: seq<Byml>): seq<Norm>
    decreases items, 0
  {
    seq(|items|, i requires 0 <= i < |items| => Normal(rules, type_, depth, items[i]))
  }

  ghost function NormalArray(rules: Rules, type_: string, depth: int, builder: Builder, items: seq<Byml>): Norm
    decreases items, 1
  {
    match builder
    case Default => NExact(Array(items))
    case Keyed(_) => NBag(multiset(NormalAll(rules, type_, depth, items)))
    case DirectIndex => NSeq(NormalAll(rules, type_, depth, items))
  }

  // ---------- when the law holds ----------

  /** Rows compared by key are merged by that key, or none. */
  ghost predicate ConsistentAt(c: Context, name: string, depth: int) {
    match c.rules.builder(name, c.type_, depth)
    case Default => true
    case Keyed(key) =>
      && (c.rules.mergerKey(name, c.ApplyType(), depth).Some? ==> c.rules.mergerKey(name, c.ApplyType(), depth) == Some(key))
      && (c.rules.mergerKey(name, c.MergeType(), depth).Some? ==> c.rules.mergerKey(name, c.MergeType(), depth) == Some(key))
    case DirectIndex => true
  }

  /** The rows a modded array has past vanilla's are told apart by the key merging has for the array, if any. */
  ghost predicate TailApart(c: Context, name: string, depth: int, src: seq<Byml>, vanilla: seq<Byml>) {
    |vanilla| < |src| ==> UniqueKeys(c.rules.mergerKey(name, c.ApplyType(), depth), src[|vanilla|..])
  }

  /** No container changes its kind, no scalar of an array becomes a container, rows compared by key
      have keys of their own, arrays compared by value do not change, and merging takes no rows for the same that making
      the changelog tells apart. */
  ghost predicate Rebuildable(c: Context, depth: int, src: Byml, vanilla: Byml)
    decreases src, 2
  {
    match (src, vanilla)
    case (Map(kind, entries), Map(kind', entries')) =>
      kind == kind' &&
      forall k :: k in entries && k in entries' ==> RebuildableEntry(c, depth + 1, k, entries[k], entries'[k])
    case (Array(items), Array(items')) => RebuildableArray(c, depth, None, UnnamedBuilder(c.type_, depth), items, items')
    case (_, _) => !(src.IsContainer() && vanilla.IsContainer())
  }

  ghost predicate RebuildableEntry(c: Context, depth: int, key: Key, src: Byml, vanilla: Byml)
    decreases src, 3
  {
    if key.Name? && src.Array? && vanilla.Array? then
      RebuildableArray(c, depth, Some(key.text), c.rules.builder(key.text, c.type_, depth), src.items, vanilla.items)
    else Rebuildable(c, depth, src, vanilla)
  }

  ghost predicate RebuildableItem(c: Context, depth: int, src: Byml, vanilla: Byml)
    decreases src, 3
  {
    Rebuildable(c, depth, src, vanilla) && (src.IsContainer() ==> vanilla.IsContainer())
  }

  ghost predicate RebuildableArray(c: Context, depth: int, name: Option<string>, builder: Builder, src: seq<Byml>, vanilla: seq<Byml>)
    decreases src, 1
  {
    match builder
    case Default => src == vanilla
    case DirectIndex =>
      && (name.Some? ==> TailApart(c, name.value, depth, src, vanilla))
      && (forall i :: 0 <= i < |src| && i < |vanilla| ==> RebuildableItem(c, depth, src[i], vanilla[i]))
    case Keyed(key) =>
      && (name.Some? ==> ConsistentAt(c, name.value, depth))
      && UniqueKeys(Some(key), src)
      && (forall i, j :: 0 <= i < |src| && 0 <= j < |vanilla| && StandsFor(key, src[i], vanilla, j) ==>
            RebuildableItem(c, depth, src[i], vanilla[j]))
  }

  // ---------- basics ----------

  lemma {:induction false} FreshStrips(node: Byml)
    ensures Strip(Fresh(node)) == node
  {
    match node
    case Map(kind, entries) =>
      forall k | k in entries ensures Strip(Fresh(entries[k])) == entries[k] { FreshStrips(entries[k]); }
      assert (map k | k in entries :: Strip(Fresh(entries[k]))) == entries;
    case Array(items) =>
      forall i | 0 <= i < |items| ensures Strip(Fresh(items[i])) == items[i] { FreshStrips(items[i]); }
    case _ =>
  }

  /** Nothing is pending in a fresh tree, so settling it changes nothing. */
  lemma {:induction false} FreshSettles(c: Context, node: Byml)
    ensures Settle(c, Fresh(node)) == Some(node)
  {
    match node
    case Map(kind, entries) =>
      var tree := Fresh(node);
      forall k | k in tree.entries
        ensures Settle(c, tree.entries[k]) == Some(entries[k])
      {
        assert tree.entries[k] == Fresh(entries[k]);
        FreshSettles(c, entries[k]);
      }
      assert tree == PMap(kind, tree.entries, {});
      assert Settle(c, tree).Some?;
      assert Settle(c, tree).value.entries == entries;
    case Array(items) =>
      var tree := Fresh(node);
      forall i | 0 <= i < |items| ensures Settle(c, tree.items[i]) == Some(items[i]) { FreshSettles(c, items[i]); }
      assert seq(|tree.items|, i requires 0 <= i < |tree.items| => Settle(c, tree.items[i]).value) == items;
    case _ =>
  }

  lemma FreshContainer(node: Byml)
    ensures Fresh(node).IsContainer() == node.IsContainer()
  {
  }

  /** A changelog entry for something that is still there is never a removal mark. */
  lemma DiffIsNoMark(rules: Rules, type_: string, depth: int, key: Key, src: Byml, vanilla: Byml)
    requires Clean(src)
    ensures !Diff(rules, type_, depth, src, vanilla).0.IsRemove()
    ensures !DiffEntry(rules, type_, depth, key, src, vanilla).0.IsRemove()
  {
  }

  lemma NormalOfMark(rules: Rules, type_: string, depth: int, node: Byml, clean: Byml)
    requires Clean(clean) && Normal(rules, type_, depth, node) == Normal(rules, type_, depth, clean)
    ensures !node.IsRemove()
  {
  }

  lemma NormalKeepsShape(rules: Rules, type_: string, depth: int, a: Byml, b: Byml)
    ensures Normal(rules, type_, depth, a) == Normal(rules, type_, depth, b) && b.Map? ==> a.Map?
  {
    if a.Array? {
      assert !NormalArray(rules, type_, depth, UnnamedBuilder(type_, depth), a.items).NMap?;
    }
  }

  // ---------- arrays compared by value ----------

  ghost function UpTo(n: nat): (below: set<nat>)
    ensures forall i: nat :: i in below <==> i < n
  {
    if n == 0 then {} else UpTo(n - 1) + {n - 1}
  }

  lemma FirstFreeSelf(items: seq<Byml>, i: nat, j: nat)
    requires i < |items| && j <= i
    ensures FirstFree(items, UpTo(i), items[i], j) == i
    decreases i - j
  {
    if j < i {
      FirstFreeSelf(items, i, j + 1);
    }
  }

  lemma {:induction false} MatchedSelf(items: seq<Byml>, i: nat)
    requires i <= |items|
    ensures Matched(items, items, i) == (UpTo(i), UpTo(i))
  {
    if i > 0 {
      MatchedSelf(items, i - 1);
      FirstFreeSelf(items, i - 1, 0);
    }
  }

  lemma {:induction false} NothingChanged(rules: Rules, type_: string, depth: int, src: seq<Byml>, vanilla: seq<Byml>, queue: seq<nat>, i: nat)
    requires i <= |vanilla| && |src| == |vanilla|
    ensures ValueChanges(rules, type_, depth, src, vanilla, UpTo(|vanilla|), UpTo(|src|), queue, i) == ([], queue)
    decreases |vanilla| - i
  {
    if i < |vanilla| {
      NothingChanged(rules, type_, depth, src, vanilla, queue, i + 1);
    }
  }

  lemma {:induction false} NothingUnmatched(n: nat, i: nat)
    requires i <= n
    ensures Unmatched(UpTo(n), i, n) == []
    decreases n - i
  {
    if i < n {
      NothingUnmatched(n, i + 1);
    }
  }

  /** An array compared by value with itself has no changes. */
  lemma DefaultSelf(rules: Rules, type_: string, depth: int, items: seq<Byml>)
    ensures DefaultChanges(rules, type_, depth, items, items) == []
  {
    MatchedSelf(items, |items|);
    NothingUnmatched(|items|, 0);
    NothingChanged(rules, type_, depth, items, items, [], 0);
  }

  // ---------- merging changes in two goes ----------

  lemma {:induction false} MergeChangesAppend(c: Context, depth: int, name: Option<string>, keyName: Option<KeyName>, state: ArrayState,
                                              a: seq<ArrayChange>, b: seq<ArrayChange>)
    ensures MergeChanges(c, depth, name, keyName, state, a + b)
            == match MergeChanges(c, depth, name, keyName, state, a)
               case None => None
               case Some(mid) => MergeChanges(c, depth, name, keyName, mid, b)
    decreases |b|
  {
    if b == [] {
      assert a + b == a;
    } else {
      var last := |b| - 1;
      assert (a + b)[..|a + b| - 1] == a + b[..last];
      MergeChangesAppend(c, depth, name, keyName, state, a, b[..last]);
    }
  }

  lemma MergeOneChange(c: Context, depth: int, name: Option<string>, keyName: Option<KeyName>, state: ArrayState, change: ArrayChange)
    ensures MergeChanges(c, depth, name, keyName, state, [change]) == MergeChange(c, depth, name, keyName, state, change)
  {
    assert [change][..0] == [];
  }

  // ---------- the law, by induction on the modded document ----------

  /** A tree that settles to the wanted document. */
  ghost predicate Rebuilt(c: Context, depth: int, tree: Option<Tree>, src: Byml) {
    tree.Some? && Settle(c, tree.value).Some?
    && Normal(c.rules, c.type_, depth, Settle(c, tree.value).value) == Normal(c.rules, c.type_, depth, src)
  }

  ghost predicate RebuiltEntry(c: Context, depth: int, key: Key, tree: Option<Tree>, src: Byml) {
    tree.Some? && Settle(c, tree.value).Some?
    && NormalEntry(c.rules, c.type_, depth, key, Settle(c, tree.value).value) == NormalEntry(c.rules, c.type_, depth, key, src)
  }

  ghost predicate RebuiltArray(c: Context, depth: int, builder: Builder, tree: Option<Tree>, src: seq<Byml>) {
    tree.Some? && Settle(c, tree.value).Some? && Settle(c, tree.value).value.Array?
    && NormalArray(c.rules, c.type_, depth, builder, Settle(c, tree.value).value.items)
       == NormalArray(c.rules, c.type_, depth, builder, src)
  }

  function MergeItem(c: Context, depth: int, base: Tree, log: Byml): Option<Tree> {
    if log.IsContainer() then Merge(c, depth, base, log) else Some(Fresh(log))
  }

  /** Diff, merge, settle: the document comes back. */
  lemma {:induction false} Rebuilds(c: Context, depth: int, src: Byml, vanilla: Byml)
    requires Clean(src) && Clean(vanilla)
    requires Rebuildable(c, depth, src, vanilla) && src.IsContainer() && vanilla.IsContainer()
    ensures var (log, same) := Diff(c.rules, c.type_, depth, src, vanilla);
            if same then Normal(c.rules, c.type_, depth, vanilla) == Normal(c.rules, c.type_, depth, src)
            else log.IsContainer() && Rebuilt(c, depth, Merge(c, depth, Fresh(vanilla), log), src)
    decreases src, 3
  {
    match src
    case Map(_, _) => RebuildsMap(c, depth, src, vanilla);
    case Array(items) =>
      var builder := UnnamedBuilder(c.type_, depth);
      RebuildsArray(c, depth, None, builder, items, vanilla.items);
    case _ =>
  }

  lemma {:induction false} RebuildsItem(c: Context, depth: int, src: Byml, vanilla: Byml)
    requires Clean(src) && Clean(vanilla)
    requires RebuildableItem(c, depth, src, vanilla)
    ensures var (log, same) := Diff(c.rules, c.type_, depth, src, vanilla);
            if same then Normal(c.rules, c.type_, depth, vanilla) == Normal(c.rules, c.type_, depth, src)
            else Rebuilt(c, depth, MergeItem(c, depth, Fresh(vanilla), log), src)
    decreases src, 4
  {
    if src.IsContainer() {
      Rebuilds(c, depth, src, vanilla);
    } else {
      FreshSettles(c, src);
    }
  }

  lemma {:induction false} RebuildsEntry(c: Context, depth: int, key: Key, src: Byml, vanilla: Byml)
    requires Clean(src) && Clean(vanilla)
    requires RebuildableEntry(c, depth, key, src, vanilla)
    ensures var (log, same) := DiffEntry(c.rules, c.type_, depth, key, src, vanilla);
            if same then NormalEntry(c.rules, c.type_, depth, key, vanilla) == NormalEntry(c.rules, c.type_, depth, key, src)
            else RebuiltEntry(c, depth, key, MergeEntry(c, depth, key, Fresh(vanilla), log), src)
    decreases src, 4
  {
    FreshContainer(vanilla);
    if key.Name? && src.Array? && vanilla.Array? {
      RebuildsArray(c, depth, Some(key.text), c.rules.builder(key.text, c.type_, depth), src.items, vanilla.items);
    } else if src.IsContainer() && vanilla.IsContainer() {
      Rebuilds(c, depth, src, vanilla);
      NormalKeepsShape(c.rules, c.type_, depth, vanilla, src);
      var tree := Merge(c, depth, Fresh(vanilla), Diff(c.rules, c.type_, depth, src, vanilla).0);
      if tree.Some? && Settle(c, tree.value).Some? {
        NormalKeepsShape(c.rules, c.type_, depth, Settle(c, tree.value).value, src);
      }
    } else {
      FreshSettles(c, src);
    }
  }

  lemma {:induction false} RebuildsMap(c: Context, depth: int, src: Byml, vanilla: Byml)
    requires Clean(src) && Clean(vanilla) && src.Map? && vanilla.Map?
    requires Rebuildable(c, depth, src, vanilla)
    ensures var (log, same) := Diff(c.rules, c.type_, depth, src, vanilla);
            if same then Normal(c.rules, c.type_, depth, vanilla) == Normal(c.rules, c.type_, depth, src)
            else Rebuilt(c, depth, Merge(c, depth, Fresh(vanilla), log), src)
    decreases src, 2
  {
    var log := DiffMap(c.rules, c.type_, depth, src, vanilla.entries);
    forall k | k in src.entries && k in vanilla.entries
      ensures EntryLaw(c, depth + 1, k, src.entries[k], vanilla.entries[k])
    {
      RebuildsEntry(c, depth + 1, k, src.entries[k], vanilla.entries[k]);
    }
    if log == map[] {
      UnchangedMap(c, depth, src, vanilla);
    } else {
      MapLogMerges(c, depth, src, vanilla);
    }
  }

  /** What `RebuildsEntry` promises of one key. */
  ghost predicate EntryLaw(c: Context, depth: int, key: Key, src: Byml, vanilla: Byml) {
    var (log, same) := DiffEntry(c.rules, c.type_, depth, key, src, vanilla);
    if same then NormalEntry(c.rules, c.type_, depth, key, vanilla) == NormalEntry(c.rules, c.type_, depth, key, src)
    else RebuiltEntry(c, depth, key, MergeEntry(c, depth, key, Fresh(vanilla), log), src)
  }

  lemma UnchangedMap(c: Context, depth: int, src: Byml, vanilla: Byml)
    requires src.Map? && vanilla.Map? && src.kind == vanilla.kind
    requires forall k :: k in src.entries && k in vanilla.entries ==>
               EntryLaw(c, depth + 1, k, src.entries[k], vanilla.entries[k])
    requires DiffMap(c.rules, c.type_, depth, src, vanilla.entries) == map[]
    ensures Normal(c.rules, c.type_, depth, vanilla) == Normal(c.rules, c.type_, depth, src)
  {
    var log := DiffMap(c.rules, c.type_, depth, src, vanilla.entries);
    forall k
      ensures k in src.entries <==> k in vanilla.entries
      ensures k in src.entries ==>
                (k in vanilla.entries
                 && NormalEntry(c.rules, c.type_, depth + 1, k, vanilla.entries[k])
                    == NormalEntry(c.rules, c.type_, depth + 1, k, src.entries[k]))
    {
      assert k !in log;
      if k in src.entries && k in vanilla.entries {
        assert EntryLaw(c, depth + 1, k, src.entries[k], vanilla.entries[k]);
      }
    }
  }

  lemma MapLogMerges(c: Context, depth: int, src: Byml, vanilla: Byml)
    requires Clean(src) && src.Map? && vanilla.Map? && src.kind == vanilla.kind
    requires forall k :: k in src.entries && k in vanilla.entries ==>
               EntryLaw(c, depth + 1, k, src.entries[k], vanilla.entries[k])
    ensures Rebuilt(c, depth, Merge(c, depth, Fresh(vanilla), Map(src.kind, DiffMap(c.rules, c.type_, depth, src, vanilla.entries))), src)
  {
    var d := depth + 1;
    var log := DiffMap(c.rules, c.type_, depth, src, vanilla.entries);
    var base := Fresh(vanilla);
    forall k | k in log
      ensures Sets(log, k) <==> k in src.entries
    {
      if k in src.entries && k in vanilla.entries {
        DiffIsNoMark(c.rules, c.type_, d, k, src.entries[k], vanilla.entries[k]);
      }
    }
    forall k | k in log && k in base.entries && Sets(log, k)
      ensures RebuiltEntry(c, d, k, MergeEntry(c, d, k, base.entries[k], log[k]), src.entries[k])
    {
      assert EntryLaw(c, d, k, src.entries[k], vanilla.entries[k]);
    }
    MergedMapSettles(c, depth, src, vanilla, log);
  }

  lemma MergedMapSettles(c: Context, depth: int, src: Byml, vanilla: Byml, log: map<Key, Byml>)
    requires Clean(src) && src.Map? && vanilla.Map? && src.kind == vanilla.kind
    requires log == DiffMap(c.rules, c.type_, depth, src, vanilla.entries)
    requires forall k :: k in log ==> (Sets(log, k) <==> k in src.entries)
    requires forall k :: k in src.entries && k in vanilla.entries ==>
               EntryLaw(c, depth + 1, k, src.entries[k], vanilla.entries[k])
    requires forall k :: k in log && k in Fresh(vanilla).entries && Sets(log, k) ==>
               RebuiltEntry(c, depth + 1, k, MergeEntry(c, depth + 1, k, Fresh(vanilla).entries[k], log[k]), src.entries[k])
    ensures Rebuilt(c, depth, Merge(c, depth, Fresh(vanilla), Map(src.kind, log)), src)
  {
    hide Normal, Settle, Diff, MergeEntry;
    var merged := MergeMap(c, depth + 1, Fresh(vanilla), Map(src.kind, log));
    assert merged.Some?;
    MergedEntries(c, depth, src, vanilla, log, merged.value);
    SettledMap(c, depth, merged.value, src);
  }

  lemma MergedEntries(c: Context, depth: int, src: Byml, vanilla: Byml, log: map<Key, Byml>, tree: Tree)
    requires src.Map? && vanilla.Map? && log == DiffMap(c.rules, c.type_, depth, src, vanilla.entries)
    requires forall k :: k in log ==> (Sets(log, k) <==> k in src.entries)
    requires forall k :: k in src.entries && k in vanilla.entries ==>
               EntryLaw(c, depth + 1, k, src.entries[k], vanilla.entries[k])
    requires forall k :: k in log && k in Fresh(vanilla).entries && Sets(log, k) ==>
               RebuiltEntry(c, depth + 1, k, MergeEntry(c, depth + 1, k, Fresh(vanilla).entries[k], log[k]), src.entries[k])
    requires MergeMap(c, depth + 1, Fresh(vanilla), Map(src.kind, log)) == Some(tree)
    ensures forall k :: k in tree.entries && k !in tree.removed ==> k in src.entries
    ensures forall k :: k in src.entries ==>
              k in tree.entries && k !in tree.removed && RebuiltEntry(c, depth + 1, k, Some(tree.entries[k]), src.entries[k])
  {
    hide Normal, NormalEntry, Settle, Diff, EntryLaw, RebuiltEntry;
    forall k | k in src.entries
      ensures k in tree.entries && k !in tree.removed && RebuiltEntry(c, depth + 1, k, Some(tree.entries[k]), src.entries[k])
    {
      if k !in log {
        UnchangedEntry(c, depth, src, vanilla, k);
        assert tree.entries[k] == Fresh(vanilla).entries[k] == Fresh(vanilla.entries[k]);
      } else if k !in vanilla.entries {
        FreshRebuilt(c, depth + 1, k, src.entries[k]);
        assert tree.entries[k] == Fresh(src.entries[k]);
      }
    }
  }

  lemma FreshRebuilt(c: Context, depth: int, key: Key, src: Byml)
    ensures RebuiltEntry(c, depth, key, Some(Fresh(src)), src)
  {
    FreshSettles(c, src);
  }

  lemma UnchangedEntry(c: Context, depth: int, src: Byml, vanilla: Byml, k: Key)
    requires src.Map? && vanilla.Map? && k in src.entries && k !in DiffMap(c.rules, c.type_, depth, src, vanilla.entries)
    requires k in vanilla.entries ==> EntryLaw(c, depth + 1, k, src.entries[k], vanilla.entries[k])
    ensures k in vanilla.entries && RebuiltEntry(c, depth + 1, k, Some(Fresh(vanilla.entries[k])), src.entries[k])
  {
    assert k in vanilla.entries;
    FreshSettles(c, vanilla.entries[k]);
  }

  lemma SettledMap(c: Context, depth: int, tree: Tree, src: Byml)
    requires src.Map? && tree.PMap? && tree.kind == src.kind
    requires forall k :: k in tree.entries && k !in tree.removed ==> k in src.entries
    requires forall k :: k in src.entries ==>
               k in tree.entries && k !in tree.removed && RebuiltEntry(c, depth + 1, k, Some(tree.entries[k]), src.entries[k])
    ensures Rebuilt(c, depth, Some(tree), src)
  {
    assert Settle(c, tree).Some?;
    var settled := Settle(c, tree).value;
    assert settled.entries.Keys == src.entries.Keys;
    forall k | k in src.entries
      ensures NormalEntry(c.rules, c.type_, depth + 1, k, settled.entries[k]) == NormalEntry(c.rules, c.type_, depth + 1, k, src.entries[k])
    {
      assert RebuiltEntry(c, depth + 1, k, Some(tree.entries[k]), src.entries[k]);
    }
  }

  lemma {:induction false} RebuildsArray(c: Context, depth: int, name: Option<string>, builder: Builder, src: seq<Byml>, vanilla: seq<Byml>)
    requires (forall i :: 0 <= i < |src| ==> Clean(src[i])) && (forall i :: 0 <= i < |vanilla| ==> Clean(vanilla[i]))
    requires builder == match name case None => UnnamedBuilder(c.type_, depth) case Some(n) => c.rules.builder(n, c.type_, depth)
    requires RebuildableArray(c, depth, name, builder, src, vanilla)
    ensures var (log, same) := DiffArray(c.rules, c.type_, depth, builder, src, vanilla);
            if same then NormalArray(c.rules, c.type_, depth, builder, vanilla) == NormalArray(c.rules, c.type_, depth, builder, src)
            else RebuiltArray(c, depth, builder, MergeArray(c, depth, name, Fresh(Array(vanilla)).items, None, log.changes), src)
    decreases src, 2
  {
    match builder
    case Default => DefaultSelf(c.rules, c.type_, depth, src);
    case DirectIndex => RebuildsDirect(c, depth, name, src, vanilla);
    case Keyed(key) => RebuildsKeyed(c, depth, name, key, src, vanilla);
  }

  // ---------- arrays compared position by position ----------

  function MaxOf(a: nat, b: nat): nat { if a < b then b else a }

  /** The additions of the rows a modded array has past the end of vanilla's. */
  function Extra(src: seq<Byml>, from: nat, to: nat): seq<(int, Byml)>
    requires from <= to <= |src|
  {
    seq(to - from, k requires 0 <= k < to - from => (from + k, src[from + k]))
  }

  ghost function Between(from: nat, end: nat): (between: set<int>)
    requires from <= end
    ensures forall j :: j in between <==> from <= j < end
    decreases end - from
  {
    if from == end then {} else Between(from, end - 1) + {end - 1}
  }

  /** An array with the changes of its first `i` positions merged. */
  ghost predicate DirectState(c: Context, depth: int, name: Option<string>, src: seq<Byml>, vanilla: seq<Byml>, i: nat, state: ArrayState) {
    && |state.items| == |vanilla| && state.index == None
    && (i <= |src| || i <= |vanilla|)
    && (forall j :: 0 <= j < |vanilla| ==>
          if j < i && j < |src| then Rebuilt(c, depth, Some(state.items[j]), src[j]) else state.items[j] == Fresh(vanilla[j]))
    && (if |vanilla| < i then
          state.entry == Some(ArrayEntry(name, depth, [Extra(src, |vanilla|, i)], {})) && state.list == Some(0)
        else if |src| < i then
          state.entry == Some(ArrayEntry(None, 0, [], Between(|src|, i))) && state.list == None
        else
          state.entry == None && state.list == None)
  }

  function DirectChange(rules: Rules, type_: string, depth: int, src: seq<Byml>, vanilla: seq<Byml>, i: nat): seq<ArrayChange>
    requires i < |src| || i < |vanilla|
  {
    if i >= |src| then [Change(i, Remove, NULL)]
    else if i >= |vanilla| then [Change(i, Add, src[i])]
    else
      var (node, same) := Diff(rules, type_, depth, src[i], vanilla[i]);
      if same then [] else [Change(i, Edit, node)]
  }

  ghost predicate ItemLaw(c: Context, depth: int, src: Byml, vanilla: Byml) {
    var (log, same) := Diff(c.rules, c.type_, depth, src, vanilla);
    if same then Normal(c.rules, c.type_, depth, vanilla) == Normal(c.rules, c.type_, depth, src)
    else Rebuilt(c, depth, MergeItem(c, depth, Fresh(vanilla), log), src)
  }

  lemma StripFreshAt(items: seq<Tree>, vanilla: seq<Byml>, j: nat)
    requires j < |items| && j < |vanilla| && items[j] == Fresh(vanilla[j])
    ensures StripAll(items)[j] == vanilla[j]
  {
    FreshStrips(vanilla[j]);
  }

  lemma DirectStep(c: Context, depth: int, name: Option<string>, keyName: Option<KeyName>, src: seq<Byml>, vanilla: seq<Byml>,
                   i: nat, state: ArrayState)
    requires DirectState(c, depth, name, src, vanilla, i, state) && (i < |src| || i < |vanilla|)
    requires i < |src| && i < |vanilla| ==> ItemLaw(c, depth, src[i], vanilla[i])
    ensures var after := MergeChanges(c, depth, name, keyName, state, DirectChange(c.rules, c.type_, depth, src, vanilla, i));
            after.Some? && DirectState(c, depth, name, src, vanilla, i + 1, after.value)
  {
    hide ItemLaw, Rebuilt, BestMatch;
    var changes := DirectChange(c.rules, c.type_, depth, src, vanilla, i);
    if i < |src| && i < |vanilla| {
      DirectEdits(c, depth, name, keyName, src, vanilla, i, state);
    } else {
      MergeOneChange(c, depth, name, keyName, state, changes[0]);
      if i >= |src| {
        assert Between(|src|, i + 1) == Between(|src|, i) + {i};
      } else {
        DirectAdds(c, depth, name, src, vanilla, i, state);
      }
    }
  }

  lemma DirectEdits(c: Context, depth: int, name: Option<string>, keyName: Option<KeyName>, src: seq<Byml>, vanilla: seq<Byml>,
                    i: nat, state: ArrayState)
    requires DirectState(c, depth, name, src, vanilla, i, state) && i < |src| && i < |vanilla|
    requires ItemLaw(c, depth, src[i], vanilla[i])
    ensures var after := MergeChanges(c, depth, name, keyName, state, DirectChange(c.rules, c.type_, depth, src, vanilla, i));
            after.Some? && DirectState(c, depth, name, src, vanilla, i + 1, after.value)
  {
    hide BestMatch, NormalArray, Between, Extra;
    var changes := DirectChange(c.rules, c.type_, depth, src, vanilla, i);
    if changes != [] {
      MergeOneChange(c, depth, name, keyName, state, changes[0]);
      assert changes == [changes[0]];
    }
    WithoutKey(StripAll(state.items), i, keyName, state.index);
    FreshSettles(c, vanilla[i]);
  }

  /** An edit without a key is for the row at its index. */
  lemma WithoutKey(rows: seq<Byml>, index: nat, keyName: Option<KeyName>, cache: Option<map<RowKey, nat>>)
    requires index < |rows|
    ensures BestMatch(rows, index, NO_KEY, keyName, cache) == (Some(index), cache)
  {
  }

  lemma DirectAdds(c: Context, depth: int, name: Option<string>, src: seq<Byml>, vanilla: seq<Byml>, i: nat, state: ArrayState)
    requires DirectState(c, depth, name, src, vanilla, i, state) && |vanilla| <= i < |src|
    ensures DirectState(c, depth, name, src, vanilla, i + 1, WithAddition(state, depth, name, i, src[i]))
  {
    var extra := Extra(src, |vanilla|, i);
    assert Extra(src, |vanilla|, i + 1) == extra + [(i as int, src[i])];
    if i == |vanilla| {
      assert extra == [] && Extra(src, |vanilla|, i + 1) == [(i as int, src[i])];
      FirstAddition(state, depth, name, i, src[i]);
    } else {
      NextAddition(state, depth, name, i, src[i]);
    }
  }

  lemma FirstAddition(state: ArrayState, depth: int, name: Option<string>, index: int, node: Byml)
    requires state.entry.None? && state.list.None?
    ensures WithAddition(state, depth, name, index, node)
            == state.(entry := Some(ArrayEntry(name, depth, [[(index, node)]], {})), list := Some(0))
  {
    var none: seq<(int, Byml)> := [];
    var noLists: seq<seq<(int, Byml)>> := [];
    var lists := noLists + [none];
    assert lists == [none] && |lists| == 1;
    assert none + [(index, node)] == [(index, node)];
    assert lists[0 := lists[0] + [(index, node)]] == [[(index, node)]];
  }

  lemma NextAddition(state: ArrayState, depth: int, name: Option<string>, index: int, node: Byml)
    requires state.entry.Some? && state.list == Some(0) && |state.entry.value.additions| == 1
    ensures WithAddition(state, depth, name, index, node)
            == state.(entry := Some(state.entry.value.(additions := [state.entry.value.additions[0] + [(index, node)]])))
  {
    var lists := state.entry.value.additions;
    assert lists[0 := lists[0] + [(index, node)]] == [lists[0] + [(index, node)]];
  }

  lemma {:induction false} DirectRuns(c: Context, depth: int, name: Option<string>, keyName: Option<KeyName>, src: seq<Byml>,
                                      vanilla: seq<Byml>, i: nat, state: ArrayState)
    requires DirectState(c, depth, name, src, vanilla, i, state) && i <= MaxOf(|src|, |vanilla|)
    requires forall j :: i <= j < |src| && j < |vanilla| ==> ItemLaw(c, depth, src[j], vanilla[j])
    ensures var after := MergeChanges(c, depth, name, keyName, state, DirectChanges(c.rules, c.type_, depth, src, vanilla, i));
            after.Some? && DirectState(c, depth, name, src, vanilla, MaxOf(|src|, |vanilla|), after.value)
    decreases |src| + |vanilla| - i
  {
    hide Diff, ItemLaw, Normal, DirectState, MergeChange;
    if i >= |src| && i >= |vanilla| {
      assert i == MaxOf(|src|, |vanilla|);
    } else {
      var here := DirectChange(c.rules, c.type_, depth, src, vanilla, i);
      var rest := DirectChanges(c.rules, c.type_, depth, src, vanilla, i + 1);
      assert DirectChanges(c.rules, c.type_, depth, src, vanilla, i) == here + rest;
      DirectStep(c, depth, name, keyName, src, vanilla, i, state);
      MergeChangesAppend(c, depth, name, keyName, state, here, rest);
      DirectRuns(c, depth, name, keyName, src, vanilla, i + 1, MergeChanges(c, depth, name, keyName, state, here).value);
    }
  }

  lemma {:induction false} RetainedAll(rows: seq<Byml>)
    requires forall i :: 0 <= i < |rows| ==> !rows[i].IsRemove()
    ensures Retained(rows) == rows
  {
    if rows != [] {
      var last := |rows| - 1;
      RetainedAll(rows[..last]);
      assert rows == rows[..last] + [rows[last]];
    }
  }

  lemma {:induction false} RetainedPrefix(rows: seq<Byml>, n: nat)
    requires n <= |rows| && (forall i :: 0 <= i < n ==> !rows[i].IsRemove()) && (forall i :: n <= i < |rows| ==> rows[i].IsRemove())
    ensures Retained(rows) == rows[..n]
  {
    if n < |rows| {
      RetainedPrefix(rows[..|rows| - 1], n);
      assert rows[..|rows| - 1][..n] == rows[..n];
    } else {
      RetainedAll(rows);
    }
  }

  /** The settled rows before removals and additions: the modded array's, then what is left of vanilla. */
  ghost predicate DirectRows(c: Context, depth: int, src: seq<Byml>, rows: seq<Byml>) {
    forall j :: 0 <= j < |rows| && j < |src| ==>
      Normal(c.rules, c.type_, depth, rows[j]) == Normal(c.rules, c.type_, depth, src[j]) && !rows[j].IsRemove()
  }

  lemma OneList(list: seq<(int, Byml)>)
    ensures Flatten([list]) == list
  {
    assert [list][..0] == [];
    assert Flatten([list][..0]) == [];
  }

  /** Each row past the end in a group of its own. */
  function Singles(src: seq<Byml>, from: nat, end: nat): seq<(int, seq<Byml>)>
    requires from <= end <= |src|
  {
    seq(end - from, k requires 0 <= k < end - from => (from + k, [src[from + k]]))
  }

  lemma {:induction false} SinglesMore(src: seq<Byml>, from: nat, end: nat)
    requires from <= end < |src|
    ensures AddToGroup(Singles(src, from, end), end, src[end]) == Singles(src, from, end + 1)
    ensures InsertGroup(Singles(src, from, end), (end, [src[end]])) == Singles(src, from, end + 1)
    decreases end - from
  {
    if from < end {
      assert Singles(src, from, end)[1..] == Singles(src, from + 1, end);
      SinglesMore(src, from + 1, end);
      assert Singles(src, from, end + 1) == [Singles(src, from, end)[0]] + Singles(src, from + 1, end + 1);
    }
  }

  lemma {:induction false} ExtraGroups(src: seq<Byml>, from: nat, end: nat)
    requires from <= end <= |src|
    ensures GroupsBy(Extra(src, from, end)) == Singles(src, from, end)
    decreases end - from
  {
    if from < end {
      ExtraGroups(src, from, end - 1);
      SinglesMore(src, from, end - 1);
      assert Extra(src, from, end)[..end - from - 1] == Extra(src, from, end - 1);
    }
  }

  lemma {:induction false} SinglesSorted(src: seq<Byml>, from: nat, end: nat)
    requires from <= end <= |src|
    ensures SortGroups(Singles(src, from, end)) == Singles(src, from, end)
    decreases end - from
  {
    if from < end {
      SinglesSorted(src, from, end - 1);
      SinglesMore(src, from, end - 1);
      assert Singles(src, from, end)[..end - from - 1] == Singles(src, from, end - 1);
    }
  }

  /** Rows past the end with keys of their own go in one after the other. */
  ghost predicate TailIn(key: KeyName, rows: seq<Byml>, src: seq<Byml>, i: nat, s: Settling)
    requires |rows| <= i <= |src|
  {
    && s.rows == rows + src[|rows|..i] && s.offset == i - |rows|
    && forall k :: k in s.keyed ==> exists j :: |rows| <= j < i && KeyOf(key, src[j]) == k
  }

  lemma {:induction false} TailInserted(c: Context, name: string, depth: int, bound: nat, src: seq<Byml>, rows: seq<Byml>, i: nat)
    requires |rows| <= i <= |src| && c.rules.mergerKey(name, c.ApplyType(), depth).Some?
    requires UniqueKeys(c.rules.mergerKey(name, c.ApplyType(), depth), src[|rows|..])
    ensures var s := SettleGroups(c, Some(name), depth, bound, Settling(rows, 0, map[]), Singles(src, |rows|, i));
            s.Some? && TailIn(c.rules.mergerKey(name, c.ApplyType(), depth).value, rows, src, i, s.value)
    decreases i
  {
    hide UniqueKeys, KeyOf, KeyedGroups, GroupsBy, Keys;
    var key := c.rules.mergerKey(name, c.ApplyType(), depth).value;
    if |rows| < i {
      TailInserted(c, name, depth, bound, src, rows, i - 1);
      var groups := Singles(src, |rows|, i);
      assert groups[..|groups| - 1] == Singles(src, |rows|, i - 1);
      var s := SettleGroups(c, Some(name), depth, bound, Settling(rows, 0, map[]), Singles(src, |rows|, i - 1)).value;
      forall j | |rows| <= j < i - 1
        ensures KeyOf(key, src[j]).IsEmpty() || KeyOf(key, src[j]) != KeyOf(key, src[i - 1])
      {
        KeysApart(key, src[|rows|..], j - |rows|, i - 1 - |rows|);
      }
      OneKeyGroup(c, key, depth, bound, s, i - 1, src[i - 1]);
      assert rows + src[|rows|..i - 1] + [src[i - 1]] == rows + src[|rows|..i];
    }
  }

  lemma KeysApart(name: KeyName, rows: seq<Byml>, i: nat, k: nat)
    requires UniqueKeys(Some(name), rows) && i < k < |rows|
    ensures KeyOf(name, rows[i]).IsEmpty() || KeyOf(name, rows[i]) != KeyOf(name, rows[k])
  {
    TwoWithKey(name, rows, i, k);
    assert KeyOf(name, rows[i]).IsEmpty() || |WithKey(Some(name), rows, KeyOf(name, rows[i]))| <= 1;
  }

  lemma KeyedAppends(c: Context, depth: int, name: string, src: seq<Byml>, rows: seq<Byml>)
    requires |rows| < |src| && TailApart(c, name, depth, src, rows) && !Unkeyed(c, Some(name), depth)
    requires (forall i :: 0 <= i < |src| ==> !src[i].IsRemove()) && (forall i :: 0 <= i < |rows| ==> !rows[i].IsRemove())
    ensures SettleArray(c, rows, ArrayEntry(Some(name), depth, [Extra(src, |rows|, |src|)], {})) == Some(rows + src[|rows|..])
  {
    hide UniqueKeys, SettleGroups, EntryHeight, Retained, SortGroups, GroupsBy, Flatten;
    var entry := ArrayEntry(Some(name), depth, [Extra(src, |rows|, |src|)], {});
    OneList(Extra(src, |rows|, |src|));
    ExtraGroups(src, |rows|, |src|);
    SinglesSorted(src, |rows|, |src|);
    assert Marked(rows, {}) == rows;
    TailInserted(c, name, depth, EntryHeight(entry), src, rows, |src|);
    assert src[|rows|..|src|] == src[|rows|..];
    RetainedBoth(rows, src[|rows|..]);
  }

  /** A row whose key was not inserted yet goes to the end. */
  lemma OneKeyGroup(c: Context, name: KeyName, depth: int, bound: nat, s: Settling, index: nat, row: Byml)
    requires KeyOf(name, row).IsEmpty() || KeyOf(name, row) !in s.keyed
    requires |s.rows| <= index + s.offset
    ensures var next := KeyedGroups(c, depth, bound, s, index, GroupsBy(Keys(Some(name), [row])));
            && next.Some? && next.value.rows == s.rows + [row] && next.value.offset == s.offset + 1
            && next.value.keyed.Keys <= s.keyed.Keys + {KeyOf(name, row)}
  {
    hide KeyOf;
    var key := KeyOf(name, row);
    var none: seq<(RowKey, Byml)> := [];
    var noGroups: seq<(RowKey, seq<Byml>)> := [];
    assert Keys(Some(name), [row]) == [(key, row)] && [(key, row)][..0] == none;
    var groups := [(key, [row])];
    assert GroupsBy([(key, row)]) == groups && groups[..0] == noGroups;
    assert KeyedGroups(c, depth, bound, s, index, groups) == KeyedGroup(c, depth, bound, s, index, key, [row]);
    var nothing: seq<Byml> := [];
    assert [row][..0] == nothing && InsertAll(s, index, [row]) == Insert(s, index, row);
  }

  lemma DirectAppends(c: Context, depth: int, name: Option<string>, src: seq<Byml>, rows: seq<Byml>)
    requires |rows| < |src| && (name.Some? ==> TailApart(c, name.value, depth, src, rows))
    requires (forall i :: 0 <= i < |src| ==> !src[i].IsRemove()) && (forall i :: 0 <= i < |rows| ==> !rows[i].IsRemove())
    ensures SettleArray(c, rows, ArrayEntry(name, depth, [Extra(src, |rows|, |src|)], {})) == Some(rows + src[|rows|..])
  {
    var entry := ArrayEntry(name, depth, [Extra(src, |rows|, |src|)], {});
    if Unkeyed(c, name, depth) {
      UnkeyedSettlesToSplice(c, rows, entry);
      AppendedSplice(src, rows);
    } else {
      KeyedAppends(c, depth, name.value, src, rows);
    }
  }

  lemma AppendedSplice(src: seq<Byml>, rows: seq<Byml>)
    requires |rows| <= |src|
    requires (forall i :: 0 <= i < |src| ==> !src[i].IsRemove()) && (forall i :: 0 <= i < |rows| ==> !rows[i].IsRemove())
    ensures Retained(Interleave(Marked(rows, {}), 0, StableSort(Flatten([Extra(src, |rows|, |src|)])))) == rows + src[|rows|..]
  {
    var extra := Extra(src, |rows|, |src|);
    OneList(extra);
    assert Marked(rows, {}) == rows;
    ExtraSorted(src, |rows|, |src|);
    SortedIsStable(extra);
    ExtraGoesLast(src, rows);
    RetainedBoth(rows, src[|rows|..]);
  }

  lemma ExtraSorted(src: seq<Byml>, from: nat, to: nat)
    requires from <= to <= |src|
    ensures Sorted(Extra(src, from, to))
  {
  }

  lemma ExtraGoesLast(src: seq<Byml>, rows: seq<Byml>)
    requires |rows| <= |src|
    ensures Interleave(rows, 0, Extra(src, |rows|, |src|)) == rows + src[|rows|..]
  {
    var extra := Extra(src, |rows|, |src|);
    InterleavePastEnd(rows, 0, extra);
    ExtraValues(src, |rows|);
  }

  lemma ExtraValues(src: seq<Byml>, from: nat)
    requires from <= |src|
    ensures var extra := Extra(src, from, |src|);
            seq(|extra|, i requires 0 <= i < |extra| => extra[i].1) == src[from..]
  {
  }

  lemma RetainedBoth(a: seq<Byml>, b: seq<Byml>)
    requires (forall i :: 0 <= i < |a| ==> !a[i].IsRemove()) && (forall i :: 0 <= i < |b| ==> !b[i].IsRemove())
    ensures Retained(a + b) == a + b
  {
    RetainedAll(a + b);
  }

  lemma AppendedNormal(c: Context, depth: int, src: seq<Byml>, rows: seq<Byml>)
    requires DirectRows(c, depth, src, rows) && |rows| <= |src|
    ensures NormalAll(c.rules, c.type_, depth, rows + src[|rows|..]) == NormalAll(c.rules, c.type_, depth, src)
  {
    var all := rows + src[|rows|..];
    forall i | 0 <= i < |src|
      ensures Normal(c.rules, c.type_, depth, all[i]) == Normal(c.rules, c.type_, depth, src[i])
    {
    }
  }

  lemma DirectTruncates(c: Context, depth: int, src: seq<Byml>, rows: seq<Byml>)
    requires DirectRows(c, depth, src, rows) && |src| <= |rows|
    ensures SettleArray(c, rows, ArrayEntry(None, 0, [], Between(|src|, |rows|))) == Some(rows[..|src|])
    ensures NormalAll(c.rules, c.type_, depth, rows[..|src|]) == NormalAll(c.rules, c.type_, depth, src)
  {
    var entry := ArrayEntry(None, 0, [], Between(|src|, |rows|));
    UnkeyedSettlesToSplice(c, rows, entry);
    assert Flatten(entry.additions) == [];
    RetainedPrefix(Marked(rows, entry.removals), |src|);
    assert Marked(rows, entry.removals)[..|src|] == rows[..|src|];
  }

  /** An array merged position by position settles to the modded one. */
  lemma DirectSettles(c: Context, depth: int, name: Option<string>, src: seq<Byml>, vanilla: seq<Byml>, state: ArrayState)
    requires DirectState(c, depth, name, src, vanilla, MaxOf(|src|, |vanilla|), state)
    requires (name.Some? ==> TailApart(c, name.value, depth, src, vanilla)) && (forall i :: 0 <= i < |src| ==> Clean(src[i]))
    ensures RebuiltArray(c, depth, DirectIndex, Some(PArray(state.items, state.entry)), src)
  {
    hide Normal, SettleArray, Diff;
    var items := state.items;
    forall j | 0 <= j < |items|
      ensures Settle(c, items[j]).Some?
      ensures j < |src| ==> Normal(c.rules, c.type_, depth, Settle(c, items[j]).value) == Normal(c.rules, c.type_, depth, src[j])
      ensures j < |src| ==> !Settle(c, items[j]).value.IsRemove()
    {
      if j < |src| {
        assert Rebuilt(c, depth, Some(items[j]), src[j]);
        NormalOfMark(c.rules, c.type_, depth, Settle(c, items[j]).value, src[j]);
      } else {
        FreshSettles(c, vanilla[j]);
      }
    }
    var rows := seq(|items|, i requires 0 <= i < |items| => Settle(c, items[i]).value);
    assert DirectRows(c, depth, src, rows);
    SettledNode(c, items, state.entry, rows);
    if |vanilla| < |src| {
      DirectAppends(c, depth, name, src, rows);
      AppendedNormal(c, depth, src, rows);
    } else if |src| < |vanilla| {
      DirectTruncates(c, depth, src, rows);
    } else {
      assert NormalAll(c.rules, c.type_, depth, rows) == NormalAll(c.rules, c.type_, depth, src);
    }
  }

  lemma SortedIsStable(pairs: seq<(int, Byml)>)
    requires Sorted(pairs)
    ensures StableSort(pairs) == pairs
  {
    forall index
      ensures Select(StableSort(pairs), index) == Select(pairs, index)
    {
      StableSortSorts(pairs, index);
    }
    StableSortSorts(pairs, 0);
    StableSortIsUnique(StableSort(pairs), pairs);
  }

  lemma {:induction false} RebuildsDirect(c: Context, depth: int, name: Option<string>, src: seq<Byml>, vanilla: seq<Byml>)
    requires (forall i :: 0 <= i < |src| ==> Clean(src[i])) && (forall i :: 0 <= i < |vanilla| ==> Clean(vanilla[i]))
    requires RebuildableArray(c, depth, name, DirectIndex, src, vanilla)
    ensures var (log, same) := DiffArray(c.rules, c.type_, depth, DirectIndex, src, vanilla);
            if same then NormalArray(c.rules, c.type_, depth, DirectIndex, vanilla) == NormalArray(c.rules, c.type_, depth, DirectIndex, src)
            else RebuiltArray(c, depth, DirectIndex, MergeArray(c, depth, name, Fresh(Array(vanilla)).items, None, log.changes), src)
    decreases src, 1
  {
    var items := Fresh(Array(vanilla)).items;
    var keyName := if name.Some? then c.rules.mergerKey(name.value, c.MergeType(), depth) else None;
    var start := ArrayState(items, None, None, None);
    forall j | 0 <= j < |src| && j < |vanilla|
      ensures ItemLaw(c, depth, src[j], vanilla[j])
    {
      RebuildsItem(c, depth, src[j], vanilla[j]);
    }
    assert DirectState(c, depth, name, src, vanilla, 0, start);
    DirectRuns(c, depth, name, keyName, src, vanilla, 0, start);
    var changes := DirectChanges(c.rules, c.type_, depth, src, vanilla, 0);
    var state := MergeChanges(c, depth, name, keyName, start, changes).value;
    DirectSettles(c, depth, name, src, vanilla, state);
    if changes == [] {
      assert state == start;
      FreshSettles(c, Array(vanilla));
      assert Fresh(Array(vanilla)) == PArray(state.items, state.entry);
    }
  }

  // ---------- arrays compared by key ----------

  predicate FoundBefore(name: KeyName, src: seq<Byml>, vanilla: seq<Byml>, j: nat, i: nat) {
    exists i' :: 0 <= i' < i && i' < |src| && StandsFor(name, src[i'], vanilla, j)
  }

  /** The rows among the first `i` that stand for none of vanilla's, in order. */
  function NewRows(name: KeyName, src: seq<Byml>, vanilla: seq<Byml>, i: nat): seq<Byml>
    requires i <= |src|
  {
    if i == 0 then []
    else NewRows(name, src, vanilla, i - 1) + if KeyOf(name, src[i - 1]) in IndexOf(vanilla, name) then [] else [src[i - 1]]
  }

  lemma TwoWithKey(name: KeyName, rows: seq<Byml>, i: nat, k: nat)
    requires i < k < |rows|
    ensures KeyOf(name, rows[i]) == KeyOf(name, rows[k]) ==> |WithKey(Some(name), rows, KeyOf(name, rows[i]))| >= 2
  {
    var key := KeyOf(name, rows[i]);
    var a, b, d := rows[..i], rows[i + 1..k], rows[k + 1..];
    assert rows == a + [rows[i]] + b + [rows[k]] + d;
    KeysAppend(Some(name), a + [rows[i]] + b + [rows[k]], d, key);
    KeysAppend(Some(name), a + [rows[i]] + b, [rows[k]], key);
    KeysAppend(Some(name), a + [rows[i]], b, key);
    KeysAppend(Some(name), a, [rows[i]], key);
    OneWithKey(Some(name), rows[i], key);
    OneWithKey(Some(name), rows[k], key);
  }

  /** Two rows with keys of their own do not stand for the same row of vanilla. */
  lemma OneStandsFor(name: KeyName, src: seq<Byml>, vanilla: seq<Byml>, i: nat, k: nat, j: nat)
    requires UniqueKeys(Some(name), src) && i < k < |src|
    ensures !(StandsFor(name, src[i], vanilla, j) && StandsFor(name, src[k], vanilla, j))
  {
    IndexInRange(vanilla, name);
    TwoWithKey(name, src, i, k);
    var key := KeyOf(name, src[i]);
    assert key.IsEmpty() || |WithKey(Some(name), src, key)| <= 1;
  }

  /** An array with the changes of its first `i` rows merged. */
  ghost predicate KeyedState(c: Context, depth: int, arrayName: Option<string>, name: KeyName, src: seq<Byml>, vanilla: seq<Byml>,
                             i: nat, state: ArrayState)
    requires i <= |src|
  {
    && |state.items| == |vanilla| && state.index == None
    && (forall i', j :: 0 <= i' < i && 0 <= j < |vanilla| && StandsFor(name, src[i'], vanilla, j) ==>
          Rebuilt(c, depth, Some(state.items[j]), src[i']))
    && (forall j :: 0 <= j < |vanilla| && !FoundBefore(name, src, vanilla, j, i) ==> state.items[j] == Fresh(vanilla[j]))
    && AdditionsAre(arrayName, depth, NewRows(name, src, vanilla, i), state)
  }

  ghost predicate AdditionsAre(arrayName: Option<string>, depth: int, nodes: seq<Byml>, state: ArrayState) {
    if nodes == [] then state.entry == None && state.list == None
    else
      && state.entry.Some? && state.list == Some(0)
      && |state.entry.value.additions| == 1
      && state.entry.value == ArrayEntry(arrayName, depth, state.entry.value.additions, {})
      && ValuesOf(state.entry.value.additions[0]) == nodes
  }

  lemma AdditionsGrow(arrayName: Option<string>, depth: int, nodes: seq<Byml>, state: ArrayState, index: int, node: Byml)
    requires AdditionsAre(arrayName, depth, nodes, state)
    ensures AdditionsAre(arrayName, depth, nodes + [node], WithAddition(state, depth, arrayName, index, node))
    ensures WithAddition(state, depth, arrayName, index, node).items == state.items
    ensures WithAddition(state, depth, arrayName, index, node).index == state.index
  {
    if nodes == [] {
      FirstAddition(state, depth, arrayName, index, node);
    } else {
      NextAddition(state, depth, arrayName, index, node);
      ValuesAppend(state.entry.value.additions[0], [(index, node)]);
    }
  }

  lemma KeyedStep(c: Context, depth: int, arrayName: Option<string>, name: KeyName, keyName: Option<KeyName>, src: seq<Byml>,
                  vanilla: seq<Byml>, i: nat, state: ArrayState, here: seq<ArrayChange>)
    requires i < |src| && KeyedState(c, depth, arrayName, name, src, vanilla, i, state)
    requires keyName == None || keyName == Some(name)
    requires UniqueKeys(Some(name), src)
    requires IsRowChange(c.rules, c.type_, depth, name, src[i], vanilla, here)
    requires forall j :: 0 <= j < |vanilla| && StandsFor(name, src[i], vanilla, j) ==> ItemLaw(c, depth, src[i], vanilla[j])
    ensures var after := MergeChanges(c, depth, arrayName, keyName, state, here);
            after.Some? && KeyedState(c, depth, arrayName, name, src, vanilla, i + 1, after.value)
  {
    var index := IndexOf(vanilla, name);
    var key := KeyOf(name, src[i]);
    if key !in index {
      assert here == [here[0]];
      MergeOneChange(c, depth, arrayName, keyName, state, here[0]);
      KeyedStateAdds(c, depth, arrayName, name, src, vanilla, i, state, here[0].index);
    } else {
      var j := index[key];
      assert StandsFor(name, src[i], vanilla, j) && ItemLaw(c, depth, src[i], vanilla[j]);
      forall i' | 0 <= i' < i
        ensures !StandsFor(name, src[i'], vanilla, j)
      {
        OneStandsFor(name, src, vanilla, i', i, j);
      }
      assert !FoundBefore(name, src, vanilla, j, i);
      EditOne(c, depth, arrayName, name, keyName, src[i], vanilla, j, state, here);
      var row := if here == [] then state.items[j] else MergeItem(c, depth, state.items[j], here[0].node).value;
      EditKeeps(c, depth, arrayName, name, src, vanilla, i, state, j, row);
    }
  }

  /** The edit of a row finds vanilla's row where the changelog says it is. */
  lemma EditOne(c: Context, depth: int, arrayName: Option<string>, name: KeyName, keyName: Option<KeyName>, src: Byml,
                vanilla: seq<Byml>, j: nat, state: ArrayState, here: seq<ArrayChange>)
    requires keyName == None || keyName == Some(name)
    requires j < |vanilla| == |state.items| && state.items[j] == Fresh(vanilla[j]) && state.index == None
    requires StandsFor(name, src, vanilla, j) && IsRowChange(c.rules, c.type_, depth, name, src, vanilla, here)
    requires ItemLaw(c, depth, src, vanilla[j])
    requires state.entry.Some? ==> state.entry.value.removals == {}
    ensures here != [] ==> MergeItem(c, depth, state.items[j], here[0].node).Some?
    ensures var row := if here == [] then state.items[j] else MergeItem(c, depth, state.items[j], here[0].node).value;
            && MergeChanges(c, depth, arrayName, keyName, state, here) == Some(state.(items := state.items[j := row]))
            && Rebuilt(c, depth, Some(row), src)
  {
    hide Normal, Settle, Diff, Clean, IndexOf, Merge;
    if here == [] {
      FreshSettles(c, vanilla[j]);
      assert state.items[j := state.items[j]] == state.items;
    } else {
      IndexInRange(vanilla, name);
      StripFreshAt(state.items, vanilla, j);
      EditThere(c, depth, arrayName, keyName, state, here[0], j, vanilla[j], name);
      assert here == [here[0]];
      MergeOneChange(c, depth, arrayName, keyName, state, here[0]);
    }
  }

  lemma EditThere(c: Context, depth: int, arrayName: Option<string>, keyName: Option<KeyName>, state: ArrayState, change: ArrayChange,
                  j: nat, row: Byml, name: KeyName)
    requires j < |state.items| && change.change == Edit && change.index == j && StripAll(state.items)[j] == row
    requires keyName.None? || (keyName == Some(name) && KeyOf(name, row) == change.key)
    requires state.entry.Some? ==> state.entry.value.removals == {}
    requires MergeItem(c, depth, state.items[j], change.node).Some?
    ensures MergeChange(c, depth, arrayName, keyName, state, change)
            == Some(state.(items := state.items[j := MergeItem(c, depth, state.items[j], change.node).value]))
  {
    hide Merge, KeyOf, Strip, IndexOf;
    if state.entry.Some? {
      assert state.entry.value.removals - {j as int} == state.entry.value.removals;
    }
    assert WithoutRemoval(state, j) == state;
  }

  lemma KeyedStateAdds(c: Context, depth: int, arrayName: Option<string>, name: KeyName, src: seq<Byml>, vanilla: seq<Byml>,
                       i: nat, state: ArrayState, at: int)
    requires i < |src| && KeyedState(c, depth, arrayName, name, src, vanilla, i, state)
    requires KeyOf(name, src[i]) !in IndexOf(vanilla, name)
    ensures KeyedState(c, depth, arrayName, name, src, vanilla, i + 1, WithAddition(state, depth, arrayName, at, src[i]))
  {
    hide Normal, Settle, Rebuilt;
    AdditionsGrow(arrayName, depth, NewRows(name, src, vanilla, i), state, at, src[i]);
    forall j | 0 <= j < |vanilla| && !FoundBefore(name, src, vanilla, j, i + 1)
      ensures !FoundBefore(name, src, vanilla, j, i)
    {
    }
  }

  lemma EditKeeps(c: Context, depth: int, arrayName: Option<string>, name: KeyName, src: seq<Byml>, vanilla: seq<Byml>,
                  i: nat, state: ArrayState, j: nat, row: Tree)
    requires i < |src| && KeyedState(c, depth, arrayName, name, src, vanilla, i, state)
    requires UniqueKeys(Some(name), src)
    requires j < |vanilla| && StandsFor(name, src[i], vanilla, j) && Rebuilt(c, depth, Some(row), src[i])
    ensures KeyedState(c, depth, arrayName, name, src, vanilla, i + 1, state.(items := state.items[j := row]))
  {
    hide Normal, Settle, Rebuilt, KeyOf, UniqueKeys;
    var after := state.(items := state.items[j := row]);
    assert NewRows(name, src, vanilla, i + 1) == NewRows(name, src, vanilla, i);
    forall i', k | 0 <= i' < i + 1 && 0 <= k < |vanilla| && StandsFor(name, src[i'], vanilla, k)
      ensures Rebuilt(c, depth, Some(after.items[k]), src[i'])
    {
      if i' < i { OneStandsFor(name, src, vanilla, i', i, k); }
    }
    forall k | 0 <= k < |vanilla| && !FoundBefore(name, src, vanilla, k, i + 1)
      ensures after.items[k] == Fresh(vanilla[k])
    {
      assert !FoundBefore(name, src, vanilla, k, i);
      assert k != j;
    }
  }

  lemma {:induction false} RowChangesRun(c: Context, depth: int, arrayName: Option<string>, name: KeyName, keyName: Option<KeyName>,
                                         src: seq<Byml>, vanilla: seq<Byml>, i: nat, added: nat, state: ArrayState)
    requires added <= i <= |src| && KeyedState(c, depth, arrayName, name, src, vanilla, i, state)
    requires keyName == None || keyName == Some(name)
    requires UniqueKeys(Some(name), src)
    requires forall k, j :: i <= k < |src| && 0 <= j < |vanilla| && StandsFor(name, src[k], vanilla, j) ==>
               ItemLaw(c, depth, src[k], vanilla[j])
    ensures var after := MergeChanges(c, depth, arrayName, keyName, state, RowChanges(c.rules, c.type_, depth, name, src, vanilla, i, added));
            after.Some? && KeyedState(c, depth, arrayName, name, src, vanilla, |src|, after.value)
    decreases |src| - i
  {
    if i < |src| {
      var here, more := RowChange(c.rules, c.type_, depth, name, src, vanilla, i, added);
      KeyedStep(c, depth, arrayName, name, keyName, src, vanilla, i, state, here);
      MergeChangesAppend(c, depth, arrayName, keyName, state, here,
                         RowChanges(c.rules, c.type_, depth, name, src, vanilla, i + 1, more));
      RowChangesRun(c, depth, arrayName, name, keyName, src, vanilla, i + 1, more,
                    MergeChanges(c, depth, arrayName, keyName, state, here).value);
    }
  }

  function Unfound(name: KeyName, src: seq<Byml>, vanilla: seq<Byml>, i: nat, n: nat): (missing: set<int>)
    ensures forall j :: j in missing <==> 0 <= j < n && !FoundBefore(name, src, vanilla, j, i)
  {
    if n == 0 then {}
    else Unfound(name, src, vanilla, i, n - 1) + if FoundBefore(name, src, vanilla, n - 1, i) then {} else {n - 1}
  }

  lemma UnfoundStep(name: KeyName, src: seq<Byml>, vanilla: seq<Byml>, j: nat)
    ensures Unfound(name, src, vanilla, |src|, j + 1)
            == Unfound(name, src, vanilla, |src|, j) + if Found(name, src, vanilla, j) then {} else {j as int}
    ensures Found(name, src, vanilla, j) ==> Unfound(name, src, vanilla, |src|, j + 1) == Unfound(name, src, vanilla, |src|, j)
  {
    assert Found(name, src, vanilla, j) == FoundBefore(name, src, vanilla, j, |src|);
  }

  /** The entry of an array once the rows of vanilla in `missing` are recorded as removed. */
  function WithRemovals(entry: Option<ArrayEntry>, missing: set<int>): Option<ArrayEntry> {
    if missing == {} then entry
    else if entry.None? then Some(ArrayEntry(None, 0, [], missing))
    else Some(entry.value.(removals := entry.value.removals + missing))
  }

  /** One row of vanilla checked for a row standing for it. */
  lemma RowRemovalStep(c: Context, depth: int, arrayName: Option<string>, name: KeyName, keyName: Option<KeyName>,
                       src: seq<Byml>, vanilla: seq<Byml>, j: nat, entry: Option<ArrayEntry>, state: ArrayState)
    returns (here: seq<ArrayChange>)
    requires j < |vanilla| && state.entry == WithRemovals(entry, Unfound(name, src, vanilla, |src|, j))
    ensures RowRemovals(name, src, vanilla, j) == here + RowRemovals(name, src, vanilla, j + 1)
    ensures MergeChanges(c, depth, arrayName, keyName, state, here)
            == Some(state.(entry := WithRemovals(entry, Unfound(name, src, vanilla, |src|, j + 1))))
  {
    UnfoundStep(name, src, vanilla, j);
    if Found(name, src, vanilla, j) {
      here := [];
    } else {
      here := [Change(j, Remove, NULL)];
      MergeOneChange(c, depth, arrayName, keyName, state, here[0]);
      RemovalGrows(entry, Unfound(name, src, vanilla, |src|, j), j, state);
    }
  }

  lemma {:induction false} RowRemovalsRun(c: Context, depth: int, arrayName: Option<string>, name: KeyName, keyName: Option<KeyName>,
                                          src: seq<Byml>, vanilla: seq<Byml>, j: nat, entry: Option<ArrayEntry>, state: ArrayState)
    requires j <= |vanilla| && state.entry == WithRemovals(entry, Unfound(name, src, vanilla, |src|, j))
    ensures MergeChanges(c, depth, arrayName, keyName, state, RowRemovals(name, src, vanilla, j))
            == Some(state.(entry := WithRemovals(entry, Unfound(name, src, vanilla, |src|, |vanilla|))))
    decreases |vanilla| - j
  {
    hide Settle, Normal, KeyOf, IndexOf, BestMatch;
    if j < |vanilla| {
      var here := RowRemovalStep(c, depth, arrayName, name, keyName, src, vanilla, j, entry, state);
      MergeChangesAppend(c, depth, arrayName, keyName, state, here, RowRemovals(name, src, vanilla, j + 1));
      RowRemovalsRun(c, depth, arrayName, name, keyName, src, vanilla, j + 1, entry,
                     state.(entry := WithRemovals(entry, Unfound(name, src, vanilla, |src|, j + 1))));
    }
  }

  lemma RemovalGrows(entry: Option<ArrayEntry>, missing: set<int>, j: int, state: ArrayState)
    requires state.entry == WithRemovals(entry, missing)
    ensures WithRemoval(state, j) == state.(entry := WithRemovals(entry, missing + {j}))
  {
    assert j in missing + {j};
    if missing == {} {
      assert missing + {j} == {j};
    } else if entry.Some? {
      assert entry.value.removals + missing + {j} == entry.value.removals + (missing + {j});
    }
  }

  // ---------- settling an array compared by key ----------

  ghost function Bag(c: Context, depth: int, rows: seq<Byml>): multiset<Norm> {
    multiset(NormalAll(c.rules, c.type_, depth, rows))
  }

  lemma BagAppend(c: Context, depth: int, a: seq<Byml>, b: seq<Byml>)
    ensures Bag(c, depth, a + b) == Bag(c, depth, a) + Bag(c, depth, b)
  {
    assert NormalAll(c.rules, c.type_, depth, a + b) == NormalAll(c.rules, c.type_, depth, a) + NormalAll(c.rules, c.type_, depth, b);
  }

  lemma BagOne(c: Context, depth: int, row: Byml)
    ensures Bag(c, depth, [row]) == multiset{Normal(c.rules, c.type_, depth, row)}
  {
    assert NormalAll(c.rules, c.type_, depth, [row]) == [Normal(c.rules, c.type_, depth, row)];
  }

  lemma {:induction false} BagOfBag(c: Context, depth: int, a: seq<Byml>, b: seq<Byml>)
    requires multiset(a) == multiset(b)
    ensures Bag(c, depth, a) == Bag(c, depth, b)
  {
    if a == [] {
      assert |b| == |multiset(b)| == 0;
    } else {
      var left, right := TakeOut(a, b);
      BagOfBag(c, depth, a[1..], left + right);
      assert a == [a[0]] + a[1..];
      BagAppend(c, depth, [a[0]], a[1..]);
      BagAppend(c, depth, left + [a[0]], right);
      BagAppend(c, depth, left, [a[0]]);
      BagAppend(c, depth, left, right);
    }
  }

  lemma {:induction false} RetainedCount(rows: seq<Byml>, x: Byml)
    ensures multiset(Retained(rows))[x] == if x.IsRemove() then 0 else multiset(rows)[x]
  {
    if rows != [] {
      var last := |rows| - 1;
      var front, row := rows[..last], rows[last];
      RetainedCount(front, x);
      assert multiset(rows) == multiset(front) + multiset{row} by { assert rows == front + [row]; }
      assert Retained(rows) == Retained(front) + if row.IsRemove() then [] else [row];
    }
  }

  /** Dropping marks commutes with mixing rows. */
  lemma RetainedMix(all: seq<Byml>, rows: seq<Byml>, more: seq<Byml>)
    requires multiset(all) == multiset(rows) + multiset(more)
    requires forall i :: 0 <= i < |more| ==> !more[i].IsRemove()
    ensures multiset(Retained(all)) == multiset(Retained(rows) + more)
  {
    assert forall x :: x in more ==> !x.IsRemove();
    forall x
      ensures multiset(Retained(all))[x] == multiset(Retained(rows) + more)[x]
    {
      RetainedCount(all, x);
      RetainedCount(rows, x);
      assert x.IsRemove() ==> x !in multiset(more);
    }
  }

  lemma {:induction false} InterleaveBag(rows: seq<Byml>, first: nat, additions: seq<(int, Byml)>)
    ensures multiset(Interleave(rows, first, additions)) == multiset(rows) + multiset(ValuesOf(additions))
    decreases |additions| + |rows|
  {
    if additions == [] {
    } else if rows == [] || NonNegative(additions[0].0) <= first {
      var tail := Interleave(rows, first, additions[1..]);
      InterleaveBag(rows, first, additions[1..]);
      ValuesCons(additions);
      ConsBag(additions[0].1, tail);
      assert Interleave(rows, first, additions) == [additions[0].1] + tail;
    } else {
      var tail := Interleave(rows[1..], first + 1, additions);
      InterleaveBag(rows[1..], first + 1, additions);
      RowsCons(rows);
      ConsBag(rows[0], tail);
      assert Interleave(rows, first, additions) == [rows[0]] + tail;
    }
  }

  lemma ValuesCons(additions: seq<(int, Byml)>)
    requires additions != []
    ensures multiset(ValuesOf(additions)) == multiset{additions[0].1} + multiset(ValuesOf(additions[1..]))
  {
    assert ValuesOf(additions) == [additions[0].1] + ValuesOf(additions[1..]);
  }

  lemma RowsCons(rows: seq<Byml>)
    requires rows != []
    ensures multiset(rows) == multiset{rows[0]} + multiset(rows[1..])
  {
    assert rows == [rows[0]] + rows[1..];
  }

  lemma ConsBag<T>(head: T, tail: seq<T>)
    ensures multiset([head] + tail) == multiset{head} + multiset(tail)
  {
  }

  /** Whether or not the tables give the array a key, additions with keys of their own all get in. */
  lemma SettleAdds(c: Context, rows: seq<Byml>, entry: ArrayEntry, name: KeyName, added: seq<Byml>)
    requires multiset(ValuesOf(Flatten(entry.additions))) == multiset(added)
    requires Unkeyed(c, entry.name, entry.depth) || c.rules.mergerKey(entry.name.value, c.ApplyType(), entry.depth) == Some(name)
    requires UniqueKeys(Some(name), added)
    requires forall i :: 0 <= i < |added| ==> !added[i].IsRemove()
    ensures var settled := SettleArray(c, rows, entry);
            settled.Some? && multiset(settled.value) == multiset(Retained(Marked(rows, entry.removals)) + added)
  {
    var pairs := Flatten(entry.additions);
    var marked := Marked(rows, entry.removals);
    StableSortBag(pairs);
    if Unkeyed(c, entry.name, entry.depth) {
      UnkeyedSettlesToSplice(c, rows, entry);
      InterleaveBag(marked, 0, StableSort(pairs));
      RetainedMix(Interleave(marked, 0, StableSort(pairs)), marked, added);
    } else {
      var groups := SortGroups(GroupsBy(pairs));
      UniqueSameBag(Some(name), added, ValuesOf(PairsOf(groups)));
      UniqueAdditionsAllInserted(c, entry.name.value, entry.depth, EntryHeight(entry), marked, groups);
      var s := SettleGroups(c, entry.name, entry.depth, EntryHeight(entry), Settling(marked, 0, map[]), groups).value;
      RetainedMix(s.rows, marked, added);
    }
  }

  lemma UpdateBag(rows: seq<Byml>, j: nat, row: Byml)
    requires j < |rows|
    ensures multiset(rows[j := row]) + multiset{rows[j]} == multiset(rows) + multiset{row}
  {
  }

  /** Unmarking one more row adds it. */
  lemma RetainOneMore(rows: seq<Byml>, missing: set<int>, without: set<int>, j: nat)
    requires j < |rows| && j in missing && !rows[j].IsRemove() && without == missing - {j as int}
    ensures multiset(Retained(Marked(rows, without))) == multiset(Retained(Marked(rows, missing))) + multiset{rows[j]}
  {
    var marked, row := Marked(rows, missing), rows[j];
    assert Marked(rows, without) == marked[j := row];
    RetainUnmarked(marked, j, row);
  }

  lemma RetainUnmarked(marked: seq<Byml>, j: nat, row: Byml)
    requires j < |marked| && marked[j] == Marker(Remove) && !row.IsRemove()
    ensures multiset(Retained(marked[j := row])) == multiset(Retained(marked)) + multiset{row}
  {
    var unmarked := marked[j := row];
    UpdateBag(marked, j, row);
    var a, b := multiset(Retained(unmarked)), multiset(Retained(marked)) + multiset{row};
    forall x
      ensures a[x] == b[x]
    {
      RetainedCount(marked, x);
      RetainedCount(unmarked, x);
      assert (multiset(unmarked) + multiset{Marker(Remove)})[x] == (multiset(marked) + multiset{row})[x];
    }
    assert a == b;
  }

  lemma {:induction false} RetainNone(rows: seq<Byml>, missing: set<int>)
    requires forall j :: 0 <= j < |rows| ==> j in missing
    ensures Retained(Marked(rows, missing)) == []
  {
    RetainedPrefix(Marked(rows, missing), 0);
  }

  /** What settled rows must look like for the count below. */
  ghost predicate KeyedSettled(c: Context, depth: int, name: KeyName, src: seq<Byml>, vanilla: seq<Byml>, rows: seq<Byml>) {
    && |rows| == |vanilla|
    && forall i, j :: 0 <= i < |src| && 0 <= j < |vanilla| && StandsFor(name, src[i], vanilla, j) ==>
         Normal(c.rules, c.type_, depth, rows[j]) == Normal(c.rules, c.type_, depth, src[i]) && !rows[j].IsRemove()
  }

  /** The rows of vanilla still standing for one of the first `i`, with those that are new, are those rows. */
  lemma {:induction false} FoundAndNew(c: Context, depth: int, name: KeyName, src: seq<Byml>, vanilla: seq<Byml>, rows: seq<Byml>, i: nat)
    requires i <= |src| && UniqueKeys(Some(name), src) && KeyedSettled(c, depth, name, src, vanilla, rows)
    ensures Bag(c, depth, Retained(Marked(rows, Unfound(name, src, vanilla, i, |vanilla|)))) + Bag(c, depth, NewRows(name, src, vanilla, i))
            == Bag(c, depth, src[..i])
  {
    if i == 0 {
      RetainNone(rows, Unfound(name, src, vanilla, 0, |vanilla|));
    } else {
      FoundAndNew(c, depth, name, src, vanilla, rows, i - 1);
      var row := src[i - 1];
      assert src[..i] == src[..i - 1] + [row];
      BagAppend(c, depth, src[..i - 1], [row]);
      BagOne(c, depth, row);
      if KeyOf(name, row) in IndexOf(vanilla, name) {
        FoundOneMore(c, depth, name, src, vanilla, rows, i);
        assert NewRows(name, src, vanilla, i) == NewRows(name, src, vanilla, i - 1);
      } else {
        FoundNoMore(name, src, vanilla, i);
        BagAppend(c, depth, NewRows(name, src, vanilla, i - 1), [row]);
      }
    }
  }

  lemma FoundBeforeStep(name: KeyName, src: seq<Byml>, vanilla: seq<Byml>, i: nat, j: nat)
    requires 0 < i <= |src|
    ensures FoundBefore(name, src, vanilla, j, i)
            <==> FoundBefore(name, src, vanilla, j, i - 1) || StandsFor(name, src[i - 1], vanilla, j)
  {
  }

  lemma FoundNoMore(name: KeyName, src: seq<Byml>, vanilla: seq<Byml>, i: nat)
    requires 0 < i <= |src| && KeyOf(name, src[i - 1]) !in IndexOf(vanilla, name)
    ensures Unfound(name, src, vanilla, i, |vanilla|) == Unfound(name, src, vanilla, i - 1, |vanilla|)
  {
    forall j: nat | j < |vanilla|
      ensures FoundBefore(name, src, vanilla, j, i) <==> FoundBefore(name, src, vanilla, j, i - 1)
    {
      FoundBeforeStep(name, src, vanilla, i, j);
    }
    var now, before := Unfound(name, src, vanilla, i, |vanilla|), Unfound(name, src, vanilla, i - 1, |vanilla|);
    assert forall j :: j in now <==> j in before;
    assert now == before;
  }

  lemma FoundOneMore(c: Context, depth: int, name: KeyName, src: seq<Byml>, vanilla: seq<Byml>, rows: seq<Byml>, i: nat)
    requires 0 < i <= |src| && UniqueKeys(Some(name), src) && KeyedSettled(c, depth, name, src, vanilla, rows)
    requires KeyOf(name, src[i - 1]) in IndexOf(vanilla, name)
    ensures Bag(c, depth, Retained(Marked(rows, Unfound(name, src, vanilla, i, |vanilla|))))
            == Bag(c, depth, Retained(Marked(rows, Unfound(name, src, vanilla, i - 1, |vanilla|))))
               + multiset{Normal(c.rules, c.type_, depth, src[i - 1])}
  {
    IndexInRange(vanilla, name);
    var j := IndexOf(vanilla, name)[KeyOf(name, src[i - 1])];
    assert StandsFor(name, src[i - 1], vanilla, j);
    var before, missing := Unfound(name, src, vanilla, i - 1, |vanilla|), Unfound(name, src, vanilla, i, |vanilla|);
    forall i' | 0 <= i' < i - 1
      ensures !StandsFor(name, src[i'], vanilla, j)
    {
      OneStandsFor(name, src, vanilla, i', i - 1, j);
    }
    assert !FoundBefore(name, src, vanilla, j, i - 1);
    assert j in before;
    forall k: nat | k < |vanilla|
      ensures FoundBefore(name, src, vanilla, k, i) <==> FoundBefore(name, src, vanilla, k, i - 1) || k == j
    {
      FoundBeforeStep(name, src, vanilla, i, k);
    }
    assert forall k :: k in missing <==> k in before && k != j;
    assert missing == before - {j as int};
    RetainOneMore(rows, before, missing, j);
    var a, b := Retained(Marked(rows, missing)), Retained(Marked(rows, before));
    assert multiset(a) == multiset(b + [rows[j]]);
    BagOfBag(c, depth, a, b + [rows[j]]);
    BagAppend(c, depth, b, [rows[j]]);
    BagOne(c, depth, rows[j]);
  }

  lemma UniqueNewRows(name: KeyName, src: seq<Byml>, vanilla: seq<Byml>, i: nat, key: RowKey)
    requires i <= |src|
    ensures |WithKey(Some(name), NewRows(name, src, vanilla, i), key)| <= |WithKey(Some(name), src[..i], key)|
  {
    if i > 0 {
      UniqueNewRows(name, src, vanilla, i - 1, key);
      assert src[..i] == src[..i - 1] + [src[i - 1]];
      KeysAppend(Some(name), src[..i - 1], [src[i - 1]], key);
      KeysAppend(Some(name), NewRows(name, src, vanilla, i - 1), [src[i - 1]], key);
      if KeyOf(name, src[i - 1]) in IndexOf(vanilla, name) {
        assert NewRows(name, src, vanilla, i) == NewRows(name, src, vanilla, i - 1);
      }
    }
  }

  lemma NewRowsClean(name: KeyName, src: seq<Byml>, vanilla: seq<Byml>, i: nat)
    requires i <= |src| && forall k :: 0 <= k < |src| ==> !src[k].IsRemove()
    ensures forall k :: 0 <= k < |NewRows(name, src, vanilla, i)| ==> !NewRows(name, src, vanilla, i)[k].IsRemove()
  {
  }

  /** The rows of an array merged by key, settled before removals and additions. */
  lemma SettledRows(c: Context, depth: int, arrayName: Option<string>, name: KeyName, src: seq<Byml>, vanilla: seq<Byml>, state: ArrayState)
    returns (rows: seq<Byml>)
    requires KeyedState(c, depth, arrayName, name, src, vanilla, |src|, state) && forall i :: 0 <= i < |src| ==> Clean(src[i])
    ensures KeyedSettled(c, depth, name, src, vanilla, rows)
    ensures |rows| == |state.items| && forall j :: 0 <= j < |rows| ==> Settle(c, state.items[j]) == Some(rows[j])
  {
    var items := state.items;
    forall j | 0 <= j < |items|
      ensures Settle(c, items[j]).Some?
    {
      if FoundBefore(name, src, vanilla, j, |src|) {
        var i' :| 0 <= i' < |src| && StandsFor(name, src[i'], vanilla, j);
        assert Rebuilt(c, depth, Some(items[j]), src[i']);
      } else {
        FreshSettles(c, vanilla[j]);
      }
    }
    rows := seq(|items|, i requires 0 <= i < |items| => Settle(c, items[i]).value);
    forall i, j | 0 <= i < |src| && 0 <= j < |vanilla| && StandsFor(name, src[i], vanilla, j)
      ensures Normal(c.rules, c.type_, depth, rows[j]) == Normal(c.rules, c.type_, depth, src[i]) && !rows[j].IsRemove()
    {
      assert Rebuilt(c, depth, Some(items[j]), src[i]);
      NormalOfMark(c.rules, c.type_, depth, rows[j], src[i]);
    }
  }

  /** An array merged by key settles to the modded one, up to the order of its rows. */
  lemma KeyedSettles(c: Context, depth: int, arrayName: Option<string>, name: KeyName, src: seq<Byml>, vanilla: seq<Byml>, state: ArrayState,
                     entry: Option<ArrayEntry>)
    requires KeyedState(c, depth, arrayName, name, src, vanilla, |src|, state) && UniqueKeys(Some(name), src)
    requires forall i :: 0 <= i < |src| ==> Clean(src[i])
    requires arrayName.Some? && c.rules.mergerKey(arrayName.value, c.ApplyType(), depth).Some? ==>
               c.rules.mergerKey(arrayName.value, c.ApplyType(), depth) == Some(name)
    requires entry == WithRemovals(state.entry, Unfound(name, src, vanilla, |src|, |vanilla|))
    ensures RebuiltArray(c, depth, Keyed(name), Some(PArray(state.items, entry)), src)
  {
    var rows := SettledRows(c, depth, arrayName, name, src, vanilla, state);
    FoundAndNew(c, depth, name, src, vanilla, rows, |src|);
    assert src[..|src|] == src;
    KeyedRowsSettle(c, depth, arrayName, name, src, vanilla, state, entry, rows);
  }

  lemma KeyedRowsSettle(c: Context, depth: int, arrayName: Option<string>, name: KeyName, src: seq<Byml>, vanilla: seq<Byml>, state: ArrayState,
                        entry: Option<ArrayEntry>, rows: seq<Byml>)
    requires AdditionsAre(arrayName, depth, NewRows(name, src, vanilla, |src|), state) && UniqueKeys(Some(name), src)
    requires (forall i :: 0 <= i < |src| ==> Clean(src[i])) && KeyedSettled(c, depth, name, src, vanilla, rows)
    requires arrayName.Some? && c.rules.mergerKey(arrayName.value, c.ApplyType(), depth).Some? ==>
               c.rules.mergerKey(arrayName.value, c.ApplyType(), depth) == Some(name)
    requires entry == WithRemovals(state.entry, Unfound(name, src, vanilla, |src|, |vanilla|))
    requires |state.items| == |rows| && forall j :: 0 <= j < |rows| ==> Settle(c, state.items[j]) == Some(rows[j])
    requires Bag(c, depth, Retained(Marked(rows, Unfound(name, src, vanilla, |src|, |vanilla|)))) + Bag(c, depth, NewRows(name, src, vanilla, |src|))
             == Bag(c, depth, src)
    ensures RebuiltArray(c, depth, Keyed(name), Some(PArray(state.items, entry)), src)
  {
    hide Normal, Settle, SettleArray, NewRows, Unfound, UniqueKeys;
    var missing := Unfound(name, src, vanilla, |src|, |vanilla|);
    SettledNode(c, state.items, entry, rows);
    if entry.None? {
      NothingMissing(name, src, vanilla, rows, missing);
    } else {
      KeyedEntrySettles(c, depth, arrayName, name, src, vanilla, state, missing, rows);
    }
  }

  /** Settling an array node whose items settle to `rows`. */
  lemma SettledNode(c: Context, items: seq<Tree>, entry: Option<ArrayEntry>, rows: seq<Byml>)
    requires |items| == |rows| && forall j :: 0 <= j < |rows| ==> Settle(c, items[j]) == Some(rows[j])
    ensures Settle(c, PArray(items, entry))
            == if entry.None? then Some(Array(rows))
               else match SettleArray(c, rows, entry.value) case None => None case Some(settled) => Some(Array(settled))
  {
    assert seq(|items|, i requires 0 <= i < |items| => Settle(c, items[i]).value) == rows;
  }

  lemma KeyedEntrySettles(c: Context, depth: int, arrayName: Option<string>, name: KeyName, src: seq<Byml>, vanilla: seq<Byml>,
                          state: ArrayState, missing: set<int>, rows: seq<Byml>)
    requires AdditionsAre(arrayName, depth, NewRows(name, src, vanilla, |src|), state) && UniqueKeys(Some(name), src)
    requires forall i :: 0 <= i < |src| ==> !src[i].IsRemove()
    requires arrayName.Some? && c.rules.mergerKey(arrayName.value, c.ApplyType(), depth).Some? ==>
               c.rules.mergerKey(arrayName.value, c.ApplyType(), depth) == Some(name)
    requires WithRemovals(state.entry, missing).Some?
    requires Bag(c, depth, Retained(Marked(rows, missing))) + Bag(c, depth, NewRows(name, src, vanilla, |src|)) == Bag(c, depth, src)
    ensures var settled := SettleArray(c, rows, WithRemovals(state.entry, missing).value);
            settled.Some? && Bag(c, depth, settled.value) == Bag(c, depth, src)
  {
    var entry := WithRemovals(state.entry, missing).value;
    var added := NewRows(name, src, vanilla, |src|);
    EntryOf(arrayName, depth, added, state, missing);
    NewRowsClean(name, src, vanilla, |src|);
    NewRowsUnique(name, src, vanilla);
    SettleAdds(c, rows, entry, name, added);
    var settled := SettleArray(c, rows, entry).value;
    BagOfBag(c, depth, settled, Retained(Marked(rows, missing)) + added);
    BagAppend(c, depth, Retained(Marked(rows, missing)), added);
  }

  lemma NewRowsUnique(name: KeyName, src: seq<Byml>, vanilla: seq<Byml>)
    requires UniqueKeys(Some(name), src)
    ensures UniqueKeys(Some(name), NewRows(name, src, vanilla, |src|))
  {
    forall key: RowKey | !key.IsEmpty()
      ensures |WithKey(Some(name), NewRows(name, src, vanilla, |src|), key)| <= 1
    {
      UniqueNewRows(name, src, vanilla, |src|, key);
      assert src[..|src|] == src;
      assert |WithKey(Some(name), src, key)| <= 1;
    }
  }

  lemma EntryOf(arrayName: Option<string>, depth: int, added: seq<Byml>, state: ArrayState, missing: set<int>)
    requires AdditionsAre(arrayName, depth, added, state) && WithRemovals(state.entry, missing).Some?
    ensures var entry := WithRemovals(state.entry, missing).value;
            && entry.removals == missing
            && ValuesOf(Flatten(entry.additions)) == added
            && (entry.name == None || (entry.name == arrayName && entry.depth == depth))
  {
    if added != [] {
      OneList(state.entry.value.additions[0]);
      assert state.entry.value.additions == [state.entry.value.additions[0]];
    }
  }

  lemma NothingMissing(name: KeyName, src: seq<Byml>, vanilla: seq<Byml>, rows: seq<Byml>, missing: set<int>)
    requires missing == Unfound(name, src, vanilla, |src|, |vanilla|) && missing == {} && |rows| == |vanilla|
    requires forall i, j :: 0 <= i < |src| && 0 <= j < |vanilla| && StandsFor(name, src[i], vanilla, j) ==> !rows[j].IsRemove()
    ensures Retained(Marked(rows, missing)) == rows
  {
    forall j | 0 <= j < |rows|
      ensures !rows[j].IsRemove()
    {
      assert j !in missing;
      assert FoundBefore(name, src, vanilla, j, |src|);
    }
    assert Marked(rows, missing) == rows;
    RetainedAll(rows);
  }

  /** An array with all changes by key merged: its rows, then the removals and additions noted. */
  lemma KeyedRuns(c: Context, depth: int, name: Option<string>, key: KeyName, src: seq<Byml>, vanilla: seq<Byml>)
    returns (state: ArrayState, entry: Option<ArrayEntry>)
    requires name.Some? && c.rules.mergerKey(name.value, c.MergeType(), depth).Some? ==> c.rules.mergerKey(name.value, c.MergeType(), depth) == Some(key)
    requires UniqueKeys(Some(key), src)
    requires forall k, j :: 0 <= k < |src| && 0 <= j < |vanilla| && StandsFor(key, src[k], vanilla, j) ==> ItemLaw(c, depth, src[k], vanilla[j])
    ensures KeyedState(c, depth, name, key, src, vanilla, |src|, state)
    ensures entry == WithRemovals(state.entry, Unfound(key, src, vanilla, |src|, |vanilla|))
    ensures var keyName := if name.Some? then c.rules.mergerKey(name.value, c.MergeType(), depth) else None;
            MergeChanges(c, depth, name, keyName, ArrayState(Fresh(Array(vanilla)).items, None, None, None),
                         KeyedChanges(c.rules, c.type_, depth, key, src, vanilla)) == Some(state.(entry := entry))
  {
    hide ItemLaw, UniqueKeys;
    var start := ArrayState(Fresh(Array(vanilla)).items, None, None, None);
    var keyName := if name.Some? then c.rules.mergerKey(name.value, c.MergeType(), depth) else None;
    assert KeyedState(c, depth, name, key, src, vanilla, 0, start);
    RowChangesRun(c, depth, name, key, keyName, src, vanilla, 0, 0, start);
    var rowChanges, removals := RowChanges(c.rules, c.type_, depth, key, src, vanilla, 0, 0), RowRemovals(key, src, vanilla, 0);
    state := MergeChanges(c, depth, name, keyName, start, rowChanges).value;
    RowRemovalsRun(c, depth, name, key, keyName, src, vanilla, 0, state.entry, state);
    MergeChangesAppend(c, depth, name, keyName, start, rowChanges, removals);
    entry := WithRemovals(state.entry, Unfound(key, src, vanilla, |src|, |vanilla|));
  }

  lemma {:induction false} RebuildsKeyed(c: Context, depth: int, name: Option<string>, key: KeyName, src: seq<Byml>, vanilla: seq<Byml>)
    requires (forall i :: 0 <= i < |src| ==> Clean(src[i])) && (forall i :: 0 <= i < |vanilla| ==> Clean(vanilla[i]))
    requires Keyed(key) == match name case None => UnnamedBuilder(c.type_, depth) case Some(n) => c.rules.builder(n, c.type_, depth)
    requires RebuildableArray(c, depth, name, Keyed(key), src, vanilla)
    ensures var (log, same) := DiffArray(c.rules, c.type_, depth, Keyed(key), src, vanilla);
            if same then NormalArray(c.rules, c.type_, depth, Keyed(key), vanilla) == NormalArray(c.rules, c.type_, depth, Keyed(key), src)
            else RebuiltArray(c, depth, Keyed(key), MergeArray(c, depth, name, Fresh(Array(vanilla)).items, None, log.changes), src)
    decreases src, 1
  {
    forall k, j | 0 <= k < |src| && 0 <= j < |vanilla| && StandsFor(key, src[k], vanilla, j)
      ensures ItemLaw(c, depth, src[k], vanilla[j])
    {
      RebuildsItem(c, depth, src[k], vanilla[j]);
    }
    var state, entry := KeyedRuns(c, depth, name, key, src, vanilla);
    KeyedSettles(c, depth, name, key, src, vanilla, state, entry);
    if KeyedChanges(c.rules, c.type_, depth, key, src, vanilla) == [] {
      FreshSettles(c, Array(vanilla));
      assert Fresh(Array(vanilla)) == PArray(state.items, entry);
    }
  }
}
