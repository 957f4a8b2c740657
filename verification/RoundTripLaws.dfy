/** The reconstruction law for whole documents, and where it stops. */
module RoundTripLaws {
  import opened Documents
  import opened Changelogs
  import opened Pending
  import opened Splice
  import opened KeyedRows
  import opened RoundTrip

  /** A document built from vanilla: the changelog of `src` merged and settled, or vanilla itself
      when there is nothing to record. */
  ghost function Reconstructed(c: Context, src: Byml, vanilla: Byml): Option<Byml> {
    var (log, same) := Diff(c.rules, c.type_, 0, src, vanilla);
    if same then Some(vanilla)
    else match Merge(c, 0, Fresh(vanilla), log)
      case None => None
      case Some(tree) => Settle(c, tree)
  }

  /** Documents come back, up to the order of the rows of arrays compared by key. */
  lemma DocumentsComeBack(c: Context, src: Byml, vanilla: Byml)
    requires Clean(src) && Clean(vanilla) && src.IsContainer() && vanilla.IsContainer()
    requires Rebuildable(c, 0, src, vanilla)
    ensures var back := Reconstructed(c, src, vanilla);
            back.Some? && Normal(c.rules, c.type_, 0, back.value) == Normal(c.rules, c.type_, 0, src)
  {
    Rebuilds(c, 0, src, vanilla);
  }

  /** No array of the document is compared by key. */
  ghost predicate NoneKeyed(rules: Rules, type_: string, depth: int, node: Byml)
    decreases node, 1
  {
    match node
    case Map(_, entries) => forall k :: k in entries ==> NoneKeyedEntry(rules, type_, depth + 1, k, entries[k])
    case Array(items) => NoneKeyedArray(rules, type_, depth, UnnamedBuilder(type_, depth), items)
    case _ => true
  }

  ghost predicate NoneKeyedEntry(rules: Rules, type_: string, depth: int, key: Key, node: Byml)
    decreases node, 2
  {
    if key.Name? && node.Array? then NoneKeyedArray(rules, type_, depth, rules.builder(key.text, type_, depth), node.items)
    else NoneKeyed(rules, type_, depth, node)
  }

  ghost predicate NoneKeyedArray(rules: Rules, type_: string, depth: int, builder: Builder, items: seq<Byml>)
    decreases items, 1
  {
    match builder
    case Default => true
    case Keyed(_) => false
    case DirectIndex => forall i :: 0 <= i < |items| ==> NoneKeyed(rules, type_, depth, items[i])
  }

  lemma {:induction false} NormalIsExact(rules: Rules, type_: string, depth: int, a: Byml, b: Byml)
    requires NoneKeyed(rules, type_, depth, a) && Normal(rules, type_, depth, a) == Normal(rules, type_, depth, b)
    ensures a == b
    decreases a, 1
  {
    match a
    case Map(kind, entries) =>
      NormalKeepsShape(rules, type_, depth, b, a);
      var na, nb := Normal(rules, type_, depth, a), Normal(rules, type_, depth, b);
      assert na.entries.Keys == entries.Keys && nb.entries.Keys == b.entries.Keys;
      forall k | k in entries
        ensures entries[k] == b.entries[k]
      {
        assert na.entries[k] == nb.entries[k];
        NormalEntryIsExact(rules, type_, depth + 1, k, entries[k], b.entries[k]);
      }
      assert entries == b.entries;
    case Array(items) =>
      if b.Array? {
        NormalArrayIsExact(rules, type_, depth, UnnamedBuilder(type_, depth), items, b.items);
      } else {
        UnnamedIsNoSequence(rules, type_, depth, items);
      }
    case _ =>
      if b.Array? {
        UnnamedIsNoSequence(rules, type_, depth, b.items);
      }
  }

  lemma UnnamedIsNoSequence(rules: Rules, type_: string, depth: int, items: seq<Byml>)
    ensures var n := Normal(rules, type_, depth, Array(items)); n == NExact(Array(items)) || n.NBag?
  {
    assert Normal(rules, type_, depth, Array(items)) == NormalArray(rules, type_, depth, UnnamedBuilder(type_, depth), items);
  }

  lemma OtherNodeNormal(rules: Rules, type_: string, depth: int, node: Byml)
    requires !node.Array?
    ensures Normal(rules, type_, depth, node) == NExact(node) || Normal(rules, type_, depth, node).NMap?
  {
  }

  lemma {:induction false} NormalEntryIsExact(rules: Rules, type_: string, depth: int, key: Key, a: Byml, b: Byml)
    requires NoneKeyedEntry(rules, type_, depth, key, a)
    requires NormalEntry(rules, type_, depth, key, a) == NormalEntry(rules, type_, depth, key, b)
    ensures a == b
    decreases a, 2
  {
    if key.Name? && a.Array? {
      var builder := rules.builder(key.text, type_, depth);
      if b.Array? {
        NormalArrayIsExact(rules, type_, depth, builder, a.items, b.items);
      } else {
        OtherNodeNormal(rules, type_, depth, b);
      }
    } else if key.Name? && b.Array? {
      var builder := rules.builder(key.text, type_, depth);
      assert NormalEntry(rules, type_, depth, key, b) == NormalArray(rules, type_, depth, builder, b.items);
      OtherNodeNormal(rules, type_, depth, a);
    } else {
      NormalIsExact(rules, type_, depth, a, b);
    }
  }

  lemma {:induction false} NormalArrayIsExact(rules: Rules, type_: string, depth: int, builder: Builder, a: seq<Byml>, b: seq<Byml>)
    requires NoneKeyedArray(rules, type_, depth, builder, a)
    requires NormalArray(rules, type_, depth, builder, a) == NormalArray(rules, type_, depth, builder, b)
    ensures a == b
    decreases a, 1
  {
    if builder.DirectIndex? {
      var na, nb := NormalAll(rules, type_, depth, a), NormalAll(rules, type_, depth, b);
      assert na == nb && |a| == |na| == |nb| == |b|;
      forall i | 0 <= i < |a|
        ensures a[i] == b[i]
      {
        assert na[i] == nb[i];
        NormalIsExact(rules, type_, depth, a[i], b[i]);
      }
    }
  }

  /** Without arrays compared by key the document comes back exactly. */
  lemma DocumentsComeBackExactly(c: Context, src: Byml, vanilla: Byml)
    requires Clean(src) && Clean(vanilla) && src.IsContainer() && vanilla.IsContainer()
    requires Rebuildable(c, 0, src, vanilla) && NoneKeyed(c.rules, c.type_, 0, src)
    ensures Reconstructed(c, src, vanilla) == Some(src)
  {
    DocumentsComeBack(c, src, vanilla);
    NormalIsExact(c.rules, c.type_, 0, src, Reconstructed(c, src, vanilla).value);
  }

  // ---------- where it stops ----------

  ghost predicate MapsOnly(node: Byml) {
    match node
    case Leaf(_) => true
    case Map(_, entries) => forall k :: k in entries ==> MapsOnly(entries[k])
    case _ => false
  }

  /** Somewhere a map became a map of another kind. */
  ghost predicate KindClash(src: Byml, vanilla: Byml) {
    src.Map? && vanilla.Map? &&
    (src.kind != vanilla.kind
     || exists k :: k in src.entries && k in vanilla.entries && KindClash(src.entries[k], vanilla.entries[k]))
  }

  lemma {:induction false} NoClashRebuildable(c: Context, depth: int, src: Byml, vanilla: Byml)
    requires MapsOnly(src) && MapsOnly(vanilla) && !KindClash(src, vanilla)
    ensures Rebuildable(c, depth, src, vanilla) && NoneKeyed(c.rules, c.type_, depth, src) && Clean(src) && Clean(vanilla)
    decreases src, vanilla
  {
    MapsOnlyClean(c.rules, c.type_, depth, src);
    MapsOnlyClean(c.rules, c.type_, depth, vanilla);
    if src.Map? && vanilla.Map? {
      forall k | k in src.entries && k in vanilla.entries
        ensures RebuildableEntry(c, depth + 1, k, src.entries[k], vanilla.entries[k])
      {
        NoClashRebuildable(c, depth + 1, src.entries[k], vanilla.entries[k]);
      }
    }
  }

  lemma {:induction false} MapsOnlyClean(rules: Rules, type_: string, depth: int, node: Byml)
    requires MapsOnly(node)
    ensures Clean(node) && NoneKeyed(rules, type_, depth, node)
    decreases node
  {
    if node.Map? {
      forall k | k in node.entries
        ensures Clean(node.entries[k]) && NoneKeyedEntry(rules, type_, depth + 1, k, node.entries[k])
      {
        MapsOnlyClean(rules, type_, depth + 1, node.entries[k]);
      }
    }
  }

  lemma {:induction false} ClashFails(c: Context, depth: int, src: Byml, vanilla: Byml)
    requires MapsOnly(src) && MapsOnly(vanilla) && KindClash(src, vanilla)
    ensures var (log, same) := Diff(c.rules, c.type_, depth, src, vanilla);
            !same && Merge(c, depth, Fresh(vanilla), log) == None
    decreases src
  {
    if src.kind == vanilla.kind {
      var k :| k in src.entries && k in vanilla.entries && KindClash(src.entries[k], vanilla.entries[k]);
      ClashFails(c, depth + 1, src.entries[k], vanilla.entries[k]);
      var log := DiffMap(c.rules, c.type_, depth, src, vanilla.entries);
      assert DiffEntry(c.rules, c.type_, depth + 1, k, src.entries[k], vanilla.entries[k])
             == Diff(c.rules, c.type_, depth + 1, src.entries[k], vanilla.entries[k]);
      assert k in log && log[k] == Diff(c.rules, c.type_, depth + 1, src.entries[k], vanilla.entries[k]).0;
      assert log[k].Map?;
      assert Sets(log, k) && MergeEntry(c, depth + 1, k, Fresh(vanilla).entries[k], log[k]) == None;
    }
  }

  /** Documents of maps and scalars come back exactly when no map changes its kind; a merge of one
      that does is refused. */
  lemma MapDocumentsComeBackIff(c: Context, src: Byml, vanilla: Byml)
    requires MapsOnly(src) && MapsOnly(vanilla) && src.Map? && vanilla.Map?
    ensures Reconstructed(c, src, vanilla) == Some(src) <==> !KindClash(src, vanilla)
    ensures KindClash(src, vanilla) ==> Reconstructed(c, src, vanilla) == None
  {
    if KindClash(src, vanilla) {
      ClashFails(c, 0, src, vanilla);
    } else {
      NoClashRebuildable(c, 0, src, vanilla);
      DocumentsComeBackExactly(c, src, vanilla);
    }
  }
}
