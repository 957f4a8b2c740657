/** When an array compared by position comes back although merging tells its added rows apart by a key. */
module PositionArrays {
  import opened Documents
  import opened Changelogs
  import opened Pending
  import opened RoundTrip
  import KeyedOutcome
  import KeyedRows

  /** The changelog of an array compared by position rebuilds it. */
  ghost predicate PositionBack(c: Context, depth: int, name: string, src: seq<Byml>, vanilla: seq<Byml>) {
    var (log, same) := DiffArray(c.rules, c.type_, depth, DirectIndex, src, vanilla);
    if same then NormalArray(c.rules, c.type_, depth, DirectIndex, vanilla) == NormalArray(c.rules, c.type_, depth, DirectIndex, src)
    else RebuiltArray(c, depth, DirectIndex, MergeArray(c, depth, Some(name), Fresh(Array(vanilla)).items, None, log.changes), src)
  }

  ghost predicate PositionRows(c: Context, depth: int, src: seq<Byml>, vanilla: seq<Byml>) {
    && (forall i :: 0 <= i < |src| ==> Clean(src[i])) && (forall i :: 0 <= i < |vanilla| ==> Clean(vanilla[i]))
    && forall i :: 0 <= i < |src| && i < |vanilla| ==> RebuildableItem(c, depth, src[i], vanilla[i])
  }

  /** An array compared by position comes back exactly when no two rows past vanilla's have the same key. */
  lemma PositionArrayBackIff(c: Context, depth: int, name: string, src: seq<Byml>, vanilla: seq<Byml>)
    requires PositionRows(c, depth, src, vanilla)
    ensures PositionBack(c, depth, name, src, vanilla) <==> TailApart(c, name, depth, src, vanilla)
  {
    if TailApart(c, name, depth, src, vanilla) {
      RebuildsDirect(c, depth, Some(name), src, vanilla);
    } else {
      TailMerged(c, depth, name, src, vanilla);
    }
  }

  /** Without a key any rows will do. */
  lemma NoKeyApart(c: Context, name: string, depth: int, src: seq<Byml>, vanilla: seq<Byml>)
    requires c.rules.mergerKey(name, c.ApplyType(), depth) == None
    ensures TailApart(c, name, depth, src, vanilla)
  {
    if |vanilla| < |src| {
      forall key: RowKey | !key.IsEmpty() ensures KeyedRows.WithKey(None, src[|vanilla|..], key) == [] { NoneWithKey(src[|vanilla|..], key); }
    }
  }

  lemma {:induction false} NoneWithKey(nodes: seq<Byml>, key: RowKey)
    requires !key.IsEmpty()
    ensures KeyedRows.WithKey(None, nodes, key) == []
  {
    if nodes != [] {
      var last := |nodes| - 1;
      NoneWithKey(nodes[..last], key);
      KeyedRows.OneWithKey(None, nodes[last], key);
      KeyedRows.KeysAppend(None, nodes[..last], [nodes[last]], key);
      assert nodes == nodes[..last] + [nodes[last]];
    }
  }

  /** What the changelog leaves to be settled. */
  lemma TailMerged(c: Context, depth: int, name: string, src: seq<Byml>, vanilla: seq<Byml>)
    requires PositionRows(c, depth, src, vanilla) && !TailApart(c, name, depth, src, vanilla)
    ensures !PositionBack(c, depth, name, src, vanilla)
  {
    hide Normal, Diff, MergeChange, KeyedRows.UniqueKeys, Rebuilt;
    var items := Fresh(Array(vanilla)).items;
    var keyName := c.rules.mergerKey(name, c.MergeType(), depth);
    var start := ArrayState(items, None, None, None);
    forall j | 0 <= j < |src| && j < |vanilla|
      ensures ItemLaw(c, depth, src[j], vanilla[j])
    {
      RebuildsItem(c, depth, src[j], vanilla[j]);
    }
    DirectRuns(c, depth, Some(name), keyName, src, vanilla, 0, start);
    var changes := DirectChanges(c.rules, c.type_, depth, src, vanilla, 0);
    var state := MergeChanges(c, depth, Some(name), keyName, start, changes).value;
    assert state.entry.Some? && changes != [];
    TailShrinks(c, depth, name, src, vanilla, state);
  }

  /** Rows that share a key become one, so some are missing. */
  lemma TailShrinks(c: Context, depth: int, name: string, src: seq<Byml>, vanilla: seq<Byml>, state: ArrayState)
    requires DirectState(c, depth, Some(name), src, vanilla, |src|, state) && |vanilla| < |src|
    requires (forall i :: 0 <= i < |src| ==> Clean(src[i])) && !TailApart(c, name, depth, src, vanilla)
    ensures !RebuiltArray(c, depth, DirectIndex, Some(PArray(state.items, state.entry)), src)
  {
    hide Normal, SettleArray, KeyedRows.UniqueKeys, KeyedOutcome.Live;
    var items, entry := state.items, state.entry.value;
    forall j | 0 <= j < |items|
      ensures Settle(c, items[j]).Some? && !Settle(c, items[j]).value.IsRemove()
    {
      assert Rebuilt(c, depth, Some(items[j]), src[j]);
      NormalOfMark(c.rules, c.type_, depth, Settle(c, items[j]).value, src[j]);
    }
    var rows := seq(|items|, i requires 0 <= i < |items| => Settle(c, items[i]).value);
    SettledNode(c, items, state.entry, rows);
    assert entry == ArrayEntry(Some(name), depth, [Extra(src, |rows|, |src|)], {});
    if SettleArray(c, rows, entry).Some? {
      FewerRows(c, depth, name, src, rows);
      NormalLength(c, depth, SettleArray(c, rows, entry).value, src);
    }
  }

  lemma NormalLength(c: Context, depth: int, a: seq<Byml>, b: seq<Byml>)
    requires |a| != |b|
    ensures NormalArray(c.rules, c.type_, depth, DirectIndex, a) != NormalArray(c.rules, c.type_, depth, DirectIndex, b)
  {
    assert |NormalAll(c.rules, c.type_, depth, a)| != |NormalAll(c.rules, c.type_, depth, b)|;
  }

  lemma FewerRows(c: Context, depth: int, name: string, src: seq<Byml>, rows: seq<Byml>)
    requires |rows| < |src| && !TailApart(c, name, depth, src, rows)
    requires (forall i :: 0 <= i < |src| ==> !src[i].IsRemove()) && (forall i :: 0 <= i < |rows| ==> !rows[i].IsRemove())
    requires SettleArray(c, rows, ArrayEntry(Some(name), depth, [Extra(src, |rows|, |src|)], {})).Some?
    ensures |SettleArray(c, rows, ArrayEntry(Some(name), depth, [Extra(src, |rows|, |src|)], {})).value| < |src|
  {
    hide SettleArray, KeyedRows.UniqueKeys, KeyedOutcome.AddedKeys, KeyedOutcome.Keyless;
    var entry := ArrayEntry(Some(name), depth, [Extra(src, |rows|, |src|)], {});
    var tail := src[|rows|..];
    OneList(Extra(src, |rows|, |src|));
    assert KeyedRows.ValuesOf(Extra(src, |rows|, |src|)) == tail;
    assert Marked(rows, {}) == rows;
    RetainedAll(rows);
    RetainedAll(tail);
    KeyedOutcome.SettledByKey(c, rows, entry);
    KeyedOutcome.CountAdded(c.rules.mergerKey(name, c.ApplyType(), depth), tail);
  }

  /** Two rows a mod puts into an empty array come back as one if merging has a key for the array and it is the same in both. */
  lemma TwoRowsBecomeOne(c: Context, depth: int, name: string, key: KeyName, a: Byml, b: Byml)
    requires c.rules.mergerKey(name, c.ApplyType(), depth) == Some(key) && Clean(a) && Clean(b)
    requires KeyOf(key, a) == KeyOf(key, b) && !KeyOf(key, a).IsEmpty()
    ensures !PositionBack(c, depth, name, [a, b], [])
  {
    hide PositionBack, KeyOf, KeyedRows.UniqueKeys;
    TwoWithKey(key, [a, b], 0, 1);
    assert [a, b][0..] == [a, b];
    NotUnique(key, [a, b], KeyOf(key, a));
    PositionArrayBackIff(c, depth, name, [a, b], []);
  }

  lemma NotUnique(key: KeyName, rows: seq<Byml>, k: RowKey)
    requires |KeyedRows.WithKey(Some(key), rows, k)| >= 2 && !k.IsEmpty()
    ensures !KeyedRows.UniqueKeys(Some(key), rows)
  {
  }
}
