/** Merging any number of map changelogs: a key is gone when the last changelog mentioning it removes
    it, and a value is the one last set. */
module LastWriter {
  import opened Documents
  import opened Changelogs
  import opened Pending
  import opened Slots
  import opened Commuting
  import Heights
  import RoundTrip

  function NodeAt(node: Byml, path: seq<Key>): Option<Byml>
    decreases |path|
  {
    if path == [] then Some(node)
    else if node.Map? && path[0] in node.entries then NodeAt(node.entries[path[0]], path[1..])
    else None
  }

  /** What the last changelog that has anything at the path has there. */
  function LastMention(logs: seq<Byml>, path: seq<Key>): Option<Byml> {
    if logs == [] then None
    else if NodeAt(logs[|logs| - 1], path).Some? then NodeAt(logs[|logs| - 1], path)
    else LastMention(logs[..|logs| - 1], path)
  }

  /** What was last set at the path, removals aside; vanilla's if nothing was. */
  function LastSet(base: Byml, logs: seq<Byml>, path: seq<Key>): Option<Byml> {
    if logs == [] then NodeAt(base, path)
    else
      var last := NodeAt(logs[|logs| - 1], path);
      if last.Some? && !last.value.IsRemove() then last else LastSet(base, logs[..|logs| - 1], path)
  }

  /** The last changelog mentioning the path does not remove it. */
  predicate Alive(base: Byml, logs: seq<Byml>, path: seq<Key>) {
    match LastMention(logs, path)
    case None => NodeAt(base, path).Some?
    case Some(node) => !node.IsRemove()
  }

  predicate SameShape(a: Byml, b: Byml) {
    (a.Leaf? && b.Leaf?) || (a.Map? && b.Map? && a.kind == b.kind)
  }

  /** Nodes keep their kind: scalars stay scalars, maps stay maps; and only what vanilla has is removed. */
  ghost predicate SteadyAt(base: Byml, logs: seq<Byml>, path: seq<Key>) {
    forall i :: 0 <= i < |logs| && NodeAt(logs[i], path).Some? ==>
      var node := NodeAt(logs[i], path).value;
      if node.IsRemove() then NodeAt(base, path).Some?
      else
        && (NodeAt(base, path).Some? ==> SameShape(node, NodeAt(base, path).value))
        && forall j :: 0 <= j < |logs| && NodeAt(logs[j], path).Some? && !NodeAt(logs[j], path).value.IsRemove() ==>
             SameShape(node, NodeAt(logs[j], path).value)
  }

  ghost predicate Steady(base: Byml, logs: seq<Byml>) {
    && base.Map? && MapLog(base) && Clean(base)
    && (forall i :: 0 <= i < |logs| ==> logs[i].Map? && logs[i].kind == base.kind && MapLog(logs[i]))
    && forall path :: path != [] ==> SteadyAt(base, logs, path)
  }

  // ---------- one key ----------

  /** The values changelogs set for one key, in order. */
  function Entries(logs: seq<Byml>, k: Key): seq<Byml> {
    if logs == [] then []
    else
      var last := logs[|logs| - 1];
      Entries(logs[..|logs| - 1], k) + if last.Map? && k in last.entries && !last.entries[k].IsRemove() then [last.entries[k]] else []
  }

  lemma EntriesOneMore(logs: seq<Byml>, k: Key)
    requires logs != []
    ensures var last, before := logs[|logs| - 1], Entries(logs[..|logs| - 1], k);
            Entries(logs, k) == if last.Map? && k in last.entries && !last.entries[k].IsRemove() then before + [last.entries[k]] else before
  {
  }

  ghost function Fold(c: Context, depth: int, k: Key, slot: Slot, logs: seq<Byml>): Option<Slot>
    requires forall i :: 0 <= i < |logs| ==> logs[i].Map?
  {
    if logs == [] then Some(slot)
    else
      match Fold(c, depth, k, slot, logs[..|logs| - 1])
      case None => None
      case Some(before) => Step(c, depth, k, before, Get(logs[|logs| - 1].entries, k))
  }

  ghost predicate SlotIs(c: Context, depth: int, base: Tree, logs: seq<Byml>, tree: Tree, k: Key)
    requires base.PMap? && forall i :: 0 <= i < |logs| ==> logs[i].Map?
  {
    tree.PMap? && Fold(c, depth + 1, k, SlotAt(base, k), logs) == Some(SlotAt(tree, k))
  }

  ghost predicate Merges(c: Context, depth: int, base: Tree, logs: seq<Byml>, k: Key)
    requires base.PMap? && forall i :: 0 <= i < |logs| ==> logs[i].Map?
  {
    Fold(c, depth + 1, k, SlotAt(base, k), logs).Some?
  }

  /** Merging maps is merging key by key. */
  lemma {:induction false} MergeAllByKey(c: Context, depth: int, base: Tree, logs: seq<Byml>)
    requires base.PMap? && forall i :: 0 <= i < |logs| ==> logs[i].Map? && logs[i].kind == base.kind
    requires forall k :: Merges(c, depth, base, logs, k)
    ensures var r := MergeAll(c, depth, base, logs);
            r.Some? && r.value.PMap? && r.value.kind == base.kind && forall k :: SlotIs(c, depth, base, logs, r.value, k)
    decreases |logs|
  {
    if logs != [] {
      var n := |logs| - 1;
      forall k ensures Merges(c, depth, base, logs[..n], k) {
        assert Merges(c, depth, base, logs, k);
      }
      MergeAllByKey(c, depth, base, logs[..n]);
      var before := MergeAll(c, depth, base, logs[..n]).value;
      forall k ensures Step(c, depth + 1, k, SlotAt(before, k), Get(logs[n].entries, k)).Some? {
        assert SlotIs(c, depth, base, logs[..n], before, k) && Merges(c, depth, base, logs, k);
      }
      MergeByKey(c, depth, before, logs[n]);
      var r := Merge(c, depth, before, logs[n]).value;
      forall k ensures SlotIs(c, depth, base, logs, r, k) {
        assert SlotIs(c, depth, base, logs[..n], before, k);
        assert Step(c, depth + 1, k, SlotAt(before, k), Get(logs[n].entries, k)) == Some(SlotAt(r, k));
      }
    }
  }

  /** The last mention of a key is a removal. */
  function LastRemoves(logs: seq<Byml>, k: Key): bool {
    LastMention(logs, [k]).Some? && LastMention(logs, [k]).value.IsRemove()
  }

  ghost function MaybeMergeAll(c: Context, depth: int, value: Option<Tree>, entries: seq<Byml>): Option<Tree> {
    if value.Some? then MergeAll(c, depth, value.value, entries)
    else if entries == [] then None
    else MergeAll(c, depth, Fresh(entries[0]), entries[1..])
  }

  lemma OneKeyPath(log: Byml, k: Key)
    requires log.Map?
    ensures NodeAt(log, [k]) == Get(log.entries, k)
  {
    assert [k][1..] == [];
  }

  /** Scalars: the last one set stays. */
  lemma {:induction false} FoldScalars(c: Context, depth: int, k: Key, base: Byml, logs: seq<Byml>)
    requires base.Map? && forall i :: 0 <= i < |logs| ==> logs[i].Map?
    requires k in base.entries ==> base.entries[k].Leaf?
    requires forall i :: 0 <= i < |logs| && k in logs[i].entries ==> logs[i].entries[k].Leaf? || logs[i].entries[k].IsRemove()
    ensures var set_ := LastSet(base, logs, [k]);
            Fold(c, depth, k, SlotAt(Fresh(base), k), logs)
            == Some(Slot(if set_.Some? then Some(Plain(set_.value)) else None, LastRemoves(logs, k)))
            && (set_.Some? ==> set_.value.Leaf?)
    decreases |logs|
  {
    if logs == [] {
      OneKeyPath(base, k);
    } else {
      var n := |logs| - 1;
      FoldScalars(c, depth, k, base, logs[..n]);
      OneKeyPath(logs[n], k);
    }
  }

  /** Maps: the entries are merged one after the other, whatever removals come between. */
  lemma {:induction false} FoldMaps(c: Context, depth: int, k: Key, map_: Tree, kind: Kind, logs: seq<Byml>)
    requires forall i :: 0 <= i < |logs| ==> logs[i].Map?
    requires map_.PMap? && map_.kind == kind
    requires forall i :: 0 <= i < |logs| && k in logs[i].entries ==>
               logs[i].entries[k].IsRemove() || (logs[i].entries[k].Map? && logs[i].entries[k].kind == kind)
    requires MergeAll(c, depth, map_, Entries(logs, k)).Some?
    ensures MergeAll(c, depth, map_, Entries(logs, k)).value.PMap?
    ensures Fold(c, depth, k, Slot(Some(map_), false), logs) == Some(Slot(MergeAll(c, depth, map_, Entries(logs, k)), LastRemoves(logs, k)))
    decreases |logs|
  {
    if logs != [] {
      var n := |logs| - 1;
      OneKeyPath(logs[n], k);
      EntriesOneMore(logs, k);
      if k in logs[n].entries && !logs[n].entries[k].IsRemove() {
        MergeAllOne(c, depth, map_, Entries(logs[..n], k), logs[n].entries[k]);
      }
      FoldMaps(c, depth, k, map_, kind, logs[..n]);
      if k in logs[n].entries && !logs[n].entries[k].IsRemove() {
        EntryIsMerge(c, depth, k, MergeAll(c, depth, map_, Entries(logs[..n], k)).value, logs[n].entries[k]);
      }
    }
  }

  lemma MergeAllOne(c: Context, depth: int, base: Tree, logs: seq<Byml>, last: Byml)
    ensures MergeAll(c, depth, base, logs + [last])
            == match MergeAll(c, depth, base, logs) case None => None case Some(tree) => Merge(c, depth, tree, last)
  {
    assert (logs + [last])[..|logs|] == logs;
  }

  // ---------- below one key ----------

  /** The document below a key: vanilla's, or the first one set there. */
  function BaseBelow(base: Byml, logs: seq<Byml>, k: Key): Option<Byml>
    requires base.Map?
  {
    if k in base.entries then Some(base.entries[k])
    else if Entries(logs, k) == [] then None
    else Some(Entries(logs, k)[0])
  }

  function LogsBelow(base: Byml, logs: seq<Byml>, k: Key): seq<Byml>
    requires base.Map?
  {
    if k in base.entries || Entries(logs, k) == [] then Entries(logs, k) else Entries(logs, k)[1..]
  }

  lemma {:induction false} EntriesAre(logs: seq<Byml>, k: Key, e: nat) returns (i: nat)
    requires e < |Entries(logs, k)|
    ensures i < |logs| && logs[i].Map? && k in logs[i].entries && logs[i].entries[k] == Entries(logs, k)[e]
    ensures !Entries(logs, k)[e].IsRemove()
  {
    var n := |logs| - 1;
    if e < |Entries(logs[..n], k)| {
      i := EntriesAre(logs[..n], k, e);
    } else {
      i := n;
    }
  }

  lemma PathBelow(node: Byml, k: Key, path: seq<Key>)
    ensures NodeAt(node, [k] + path) == if node.Map? && k in node.entries then NodeAt(node.entries[k], path) else None
  {
    assert ([k] + path)[1..] == path;
  }

  lemma RemoveIsLeaf(node: Byml, path: seq<Key>)
    requires !node.Map? && path != []
    ensures NodeAt(node, path) == None
  {
  }

  lemma {:induction false} MentionBelow(logs: seq<Byml>, k: Key, path: seq<Key>)
    requires path != []
    ensures LastMention(logs, [k] + path) == LastMention(Entries(logs, k), path)
  {
    if logs != [] {
      var n := |logs| - 1;
      MentionBelow(logs[..n], k, path);
      PathBelow(logs[n], k, path);
      var before, all := Entries(logs[..n], k), Entries(logs, k);
      if logs[n].Map? && k in logs[n].entries && !logs[n].entries[k].IsRemove() {
        assert all[..|before|] == before && all[|before|] == logs[n].entries[k];
      } else {
        assert all == before;
      }
    }
  }

  lemma {:induction false} SetBelow(base: Byml, logs: seq<Byml>, k: Key, path: seq<Key>)
    requires path != [] && base.Map? && k in base.entries
    ensures LastSet(base, logs, [k] + path) == LastSet(base.entries[k], Entries(logs, k), path)
  {
    PathBelow(base, k, path);
    if logs != [] {
      var n := |logs| - 1;
      SetBelow(base, logs[..n], k, path);
      PathBelow(logs[n], k, path);
      var before, all := Entries(logs[..n], k), Entries(logs, k);
      if logs[n].Map? && k in logs[n].entries && !logs[n].entries[k].IsRemove() {
        assert all[..|before|] == before && all[|before|] == logs[n].entries[k];
      } else {
        assert all == before;
      }
    }
  }

  /** Without vanilla's, the first document set takes its place. */
  lemma {:induction false} SetBelowFirst(base: Byml, logs: seq<Byml>, k: Key, path: seq<Key>)
    requires path != [] && base.Map? && k !in base.entries && Entries(logs, k) != []
    requires var first := NodeAt(Entries(logs, k)[0], path); first.Some? ==> !first.value.IsRemove()
    ensures LastSet(base, logs, [k] + path) == LastSet(Entries(logs, k)[0], Entries(logs, k)[1..], path)
  {
    var n := |logs| - 1;
    PathBelow(logs[n], k, path);
    var before, all := Entries(logs[..n], k), Entries(logs, k);
    if logs[n].Map? && k in logs[n].entries && !logs[n].entries[k].IsRemove() {
      assert all == before + [logs[n].entries[k]];
      if before == [] {
        NothingSet(base, logs[..n], k, path);
        assert all[1..] == [];
      } else {
        SetBelowFirst(base, logs[..n], k, path);
        assert all[1..] == before[1..] + [logs[n].entries[k]] && all[1..][..|before| - 1] == before[1..];
      }
    } else {
      assert all == before;
      SetBelowFirst(base, logs[..n], k, path);
    }
  }

  lemma {:induction false} NothingSet(base: Byml, logs: seq<Byml>, k: Key, path: seq<Key>)
    requires path != [] && base.Map? && k !in base.entries && Entries(logs, k) == []
    ensures LastSet(base, logs, [k] + path) == None
  {
    PathBelow(base, k, path);
    if logs != [] {
      var n := |logs| - 1;
      PathBelow(logs[n], k, path);
      NothingSet(base, logs[..n], k, path);
    }
  }

  lemma {:induction false} NoRemoveIsClean(log: Byml)
    requires MapLog(log) && forall path :: NodeAt(log, path).Some? ==> !NodeAt(log, path).value.IsRemove()
    ensures Clean(log)
    decreases log
  {
    assert NodeAt(log, []) == Some(log);
    if log.Map? {
      forall k | k in log.entries
        ensures Clean(log.entries[k])
      {
        forall path | NodeAt(log.entries[k], path).Some?
          ensures !NodeAt(log.entries[k], path).value.IsRemove()
        {
          PathBelow(log, k, path);
        }
        NoRemoveIsClean(log.entries[k]);
      }
    }
  }

  lemma {:induction false} CleanHasNoRemove(node: Byml, path: seq<Key>)
    requires Clean(node)
    ensures NodeAt(node, path).Some? ==> !NodeAt(node, path).value.IsRemove()
    decreases |path|
  {
    if path != [] && node.Map? && path[0] in node.entries {
      CleanHasNoRemove(node.entries[path[0]], path[1..]);
    }
  }

  /** An entry set for a key: a scalar or a map like whatever else is there, with removals only of what
      vanilla has. */
  lemma EntryFits(base: Byml, logs: seq<Byml>, k: Key, e: nat)
    requires Steady(base, logs) && e < |Entries(logs, k)|
    ensures var entry := Entries(logs, k)[e];
            MapLog(entry) && !entry.IsRemove()
            && (k in base.entries ==> SameShape(entry, base.entries[k]))
            && (forall f :: 0 <= f < |Entries(logs, k)| ==> SameShape(entry, Entries(logs, k)[f]))
            && (k !in base.entries ==> Clean(entry))
  {
    var entry := Entries(logs, k)[e];
    var i := EntriesAre(logs, k, e);
    OneKeyPath(logs[i], k);
    OneKeyPath(base, k);
    assert SteadyAt(base, logs, [k]);
    forall f | 0 <= f < |Entries(logs, k)|
      ensures SameShape(entry, Entries(logs, k)[f])
    {
      var j := EntriesAre(logs, k, f);
      OneKeyPath(logs[j], k);
    }
    if k !in base.entries {
      forall path | NodeAt(entry, path).Some?
        ensures !NodeAt(entry, path).value.IsRemove()
      {
        if path != [] {
          PathBelow(logs[i], k, path);
          PathBelow(base, k, path);
          assert SteadyAt(base, logs, [k] + path);
        }
      }
      NoRemoveIsClean(entry);
    }
  }

  /** The entries the logs below a key are, as positions in `Entries`. */
  lemma BelowIsEntry(base: Byml, logs: seq<Byml>, k: Key, f: nat) returns (e: nat)
    requires base.Map? && f < |LogsBelow(base, logs, k)|
    ensures e < |Entries(logs, k)| && Entries(logs, k)[e] == LogsBelow(base, logs, k)[f]
  {
    e := if k in base.entries || Entries(logs, k) == [] then f else f + 1;
  }

  lemma SteadyBelow(base: Byml, logs: seq<Byml>, k: Key)
    requires Steady(base, logs) && BaseBelow(base, logs, k).Some? && BaseBelow(base, logs, k).value.Map?
    ensures Steady(BaseBelow(base, logs, k).value, LogsBelow(base, logs, k))
  {
    var b, below := BaseBelow(base, logs, k).value, LogsBelow(base, logs, k);
    if k !in base.entries { EntryFits(base, logs, k, 0); }
    forall f | 0 <= f < |below|
      ensures below[f].Map? && below[f].kind == b.kind && MapLog(below[f])
    {
      var e := BelowIsEntry(base, logs, k, f);
      EntryFits(base, logs, k, e);
    }
    forall path | path != []
      ensures SteadyAt(b, below, path)
    {
      SteadyPathBelow(base, logs, k, path);
    }
  }

  lemma SteadyPathBelow(base: Byml, logs: seq<Byml>, k: Key, path: seq<Key>)
    requires Steady(base, logs) && BaseBelow(base, logs, k).Some? && path != []
    ensures SteadyAt(BaseBelow(base, logs, k).value, LogsBelow(base, logs, k), path)
  {
    var b, below := BaseBelow(base, logs, k).value, LogsBelow(base, logs, k);
    PathBelow(base, k, path);
    assert SteadyAt(base, logs, [k] + path);
    forall f | 0 <= f < |below| && NodeAt(below[f], path).Some?
      ensures var node := NodeAt(below[f], path).value;
              if node.IsRemove() then NodeAt(b, path).Some?
              else
                && (NodeAt(b, path).Some? ==> SameShape(node, NodeAt(b, path).value))
                && forall g :: 0 <= g < |below| && NodeAt(below[g], path).Some? && !NodeAt(below[g], path).value.IsRemove() ==>
                     SameShape(node, NodeAt(below[g], path).value)
    {
      var i := LogOfBelow(base, logs, k, f, path);
      forall g | 0 <= g < |below| && NodeAt(below[g], path).Some? && !NodeAt(below[g], path).value.IsRemove()
        ensures !NodeAt(below[f], path).value.IsRemove() ==> SameShape(NodeAt(below[f], path).value, NodeAt(below[g], path).value)
      {
        var j := LogOfBelow(base, logs, k, g, path);
      }
      if k !in base.entries {
        EntryFits(base, logs, k, 0);
        CleanHasNoRemove(b, path);
        var j := EntriesAre(logs, k, 0);
        PathBelow(logs[j], k, path);
      }
    }
  }

  lemma LogOfBelow(base: Byml, logs: seq<Byml>, k: Key, f: nat, path: seq<Key>) returns (i: nat)
    requires Steady(base, logs) && f < |LogsBelow(base, logs, k)|
    ensures i < |logs| && NodeAt(logs[i], [k] + path) == NodeAt(LogsBelow(base, logs, k)[f], path)
  {
    var e := BelowIsEntry(base, logs, k, f);
    i := EntriesAre(logs, k, e);
    PathBelow(logs[i], k, path);
  }

  // ---------- alive below a key ----------

  lemma {:induction false} EntriesFromMentions(logs: seq<Byml>, k: Key)
    requires forall i :: 0 <= i < |logs| ==> logs[i].Map?
    ensures LastMention(logs, [k]).None? ==> Entries(logs, k) == []
    ensures LastMention(logs, [k]).Some? && !LastMention(logs, [k]).value.IsRemove() ==> Entries(logs, k) != []
  {
    if logs != [] {
      OneKeyPath(logs[|logs| - 1], k);
      EntriesFromMentions(logs[..|logs| - 1], k);
    }
  }

  lemma AliveKey(base: Byml, logs: seq<Byml>, k: Key)
    requires Steady(base, logs)
    ensures Alive(base, logs, [k]) <==> BaseBelow(base, logs, k).Some? && !LastRemoves(logs, k)
  {
    EntriesFromMentions(logs, k);
    OneKeyPath(base, k);
  }

  lemma {:induction false} MentionAfterFirst(entries: seq<Byml>, path: seq<Key>)
    requires entries != []
    ensures LastMention(entries, path) == if LastMention(entries[1..], path).Some? then LastMention(entries[1..], path) else NodeAt(entries[0], path)
  {
    var n := |entries| - 1;
    if n == 0 {
      assert entries[1..] == [] && entries[..0] == [];
    } else {
      MentionAfterFirst(entries[..n], path);
      assert entries[..n][1..] == entries[1..][..n - 1] && entries[1..][n - 1] == entries[n];
    }
  }

  lemma AliveBelow(base: Byml, logs: seq<Byml>, k: Key, path: seq<Key>)
    requires Steady(base, logs) && path != []
    ensures Alive(base, logs, [k] + path) <==>
              BaseBelow(base, logs, k).Some? && Alive(BaseBelow(base, logs, k).value, LogsBelow(base, logs, k), path)
  {
    MentionBelow(logs, k, path);
    PathBelow(base, k, path);
    if k !in base.entries && Entries(logs, k) != [] {
      MentionAfterFirst(Entries(logs, k), path);
      EntryFits(base, logs, k, 0);
      CleanHasNoRemove(Entries(logs, k)[0], path);
    }
  }

  lemma SetBelowAny(base: Byml, logs: seq<Byml>, k: Key, path: seq<Key>)
    requires Steady(base, logs) && path != [] && BaseBelow(base, logs, k).Some?
    ensures LastSet(base, logs, [k] + path) == LastSet(BaseBelow(base, logs, k).value, LogsBelow(base, logs, k), path)
  {
    if k in base.entries {
      SetBelow(base, logs, k, path);
    } else {
      EntryFits(base, logs, k, 0);
      CleanHasNoRemove(Entries(logs, k)[0], path);
      SetBelowFirst(base, logs, k, path);
    }
  }

  // ---------- the law ----------

  /** What the merged document has at a path: a node exactly when neither the path nor anything on the
      way to it was last removed, and the value last set there. */
  ghost predicate ResultAt(base: Byml, logs: seq<Byml>, r: Byml, path: seq<Key>) {
    var node := NodeAt(r, path);
    && (node.Some? <==> forall n :: 0 < n <= |path| ==> Alive(base, logs, path[..n]))
    && (node.Some? ==>
          LastSet(base, logs, path).Some? && SameShape(node.value, LastSet(base, logs, path).value)
          && (node.value.Leaf? ==> node == LastSet(base, logs, path)))
  }

  ghost predicate ResultBelow(base: Byml, logs: seq<Byml>, r: Byml) {
    forall path :: path != [] ==> ResultAt(base, logs, r, path)
  }

  ghost predicate ValueOutcome(base: Byml, logs: seq<Byml>, k: Key, v: Byml)
    requires base.Map? && BaseBelow(base, logs, k).Some?
  {
    var b := BaseBelow(base, logs, k).value;
    if b.Map? then v.Map? && v.kind == b.kind && ResultBelow(b, LogsBelow(base, logs, k), v)
    else v.Leaf? && Some(v) == LastSet(base, logs, [k])
  }

  ghost predicate KeyOutcome(c: Context, depth: int, base: Byml, logs: seq<Byml>, k: Key)
    requires base.Map? && forall i :: 0 <= i < |logs| ==> logs[i].Map?
  {
    match Fold(c, depth + 1, k, SlotAt(Fresh(base), k), logs)
    case None => false
    case Some(slot) =>
      && slot.removed == LastRemoves(logs, k)
      && (slot.value.Some? <==> BaseBelow(base, logs, k).Some?)
      && (slot.value.Some? ==> Settle(c, slot.value.value).Some? && ValueOutcome(base, logs, k, Settle(c, slot.value.value).value))
  }

  ghost predicate HeightsWithin(base: Byml, logs: seq<Byml>, n: nat) {
    Height(base) <= n && forall i :: 0 <= i < |logs| ==> Height(logs[i]) <= n
  }

  lemma HeightsBelow(base: Byml, logs: seq<Byml>, k: Key, n: nat)
    requires Steady(base, logs) && HeightsWithin(base, logs, n) && BaseBelow(base, logs, k).Some?
    ensures n > 0 && HeightsWithin(BaseBelow(base, logs, k).value, LogsBelow(base, logs, k), n - 1)
  {
    if k in base.entries {
      Heights.HeightOfEntry(base, k);
    } else {
      var i := EntriesAre(logs, k, 0);
      Heights.HeightOfEntry(logs[i], k);
    }
    forall f | 0 <= f < |LogsBelow(base, logs, k)|
      ensures Height(LogsBelow(base, logs, k)[f]) <= n - 1
    {
      var e := BelowIsEntry(base, logs, k, f);
      var i := EntriesAre(logs, k, e);
      Heights.HeightOfEntry(logs[i], k);
    }
  }

  /** A key that holds scalars, or nothing. */
  lemma ScalarKey(c: Context, depth: int, base: Byml, logs: seq<Byml>, k: Key)
    requires Steady(base, logs) && (BaseBelow(base, logs, k).Some? ==> !BaseBelow(base, logs, k).value.Map?)
    ensures KeyOutcome(c, depth, base, logs, k)
  {
    OneKeyPath(base, k);
    var e := Entries(logs, k);
    if k in base.entries { assert Clean(base.entries[k]) && MapLog(base.entries[k]); }
    if e != [] { EntryFits(base, logs, k, 0); }
    forall i | 0 <= i < |logs| && k in logs[i].entries
      ensures logs[i].entries[k].Leaf? || logs[i].entries[k].IsRemove()
    {
      OneKeyPath(logs[i], k);
      assert SteadyAt(base, logs, [k]);
      if !logs[i].entries[k].IsRemove() {
        EntryIn(logs, k, i);
        if k !in base.entries {
          var j := EntriesAre(logs, k, 0);
          OneKeyPath(logs[j], k);
        }
      }
    }
    FoldScalars(c, depth + 1, k, base, logs);
    SetIff(base, logs, k);
  }

  lemma {:induction false} EntryIn(logs: seq<Byml>, k: Key, i: nat)
    requires i < |logs| && logs[i].Map? && k in logs[i].entries && !logs[i].entries[k].IsRemove()
    ensures logs[i].entries[k] in Entries(logs, k)
    decreases |logs|
  {
    if i < |logs| - 1 {
      EntryIn(logs[..|logs| - 1], k, i);
    }
  }

  lemma {:induction false} SetIff(base: Byml, logs: seq<Byml>, k: Key)
    requires base.Map? && forall i :: 0 <= i < |logs| ==> logs[i].Map?
    ensures LastSet(base, logs, [k]).Some? <==> k in base.entries || Entries(logs, k) != []
  {
    if logs == [] {
      OneKeyPath(base, k);
    } else {
      OneKeyPath(logs[|logs| - 1], k);
      SetIff(base, logs[..|logs| - 1], k);
    }
  }

  /** A key that holds maps, once the law is known one level down. */
  lemma MapKey(c: Context, depth: int, base: Byml, logs: seq<Byml>, k: Key)
    requires Steady(base, logs) && BaseBelow(base, logs, k).Some? && BaseBelow(base, logs, k).value.Map?
    requires Merged(c, depth + 1, BaseBelow(base, logs, k).value, LogsBelow(base, logs, k))
    ensures KeyOutcome(c, depth, base, logs, k)
  {
    var b, below := BaseBelow(base, logs, k).value, LogsBelow(base, logs, k);
    if k in base.entries {
      forall i | 0 <= i < |logs| && k in logs[i].entries
        ensures logs[i].entries[k].IsRemove() || (logs[i].entries[k].Map? && logs[i].entries[k].kind == b.kind)
      {
        OneKeyPath(logs[i], k);
        OneKeyPath(base, k);
        assert SteadyAt(base, logs, [k]);
      }
      assert Fresh(base).entries[k] == Fresh(b);
      FoldMaps(c, depth + 1, k, Fresh(b), b.kind, logs);
    } else {
      FoldAdded(c, depth + 1, k, base, logs);
    }
  }

  /** Maps under a key vanilla lacks: the first stands, the others are merged into it. */
  lemma {:induction false} FoldAdded(c: Context, depth: int, k: Key, base: Byml, logs: seq<Byml>)
    requires Steady(base, logs) && k !in base.entries && Entries(logs, k) != [] && Entries(logs, k)[0].Map?
    requires MergeAll(c, depth, Fresh(Entries(logs, k)[0]), Entries(logs, k)[1..]).Some?
    ensures !LastRemoves(logs, k)
    ensures Fold(c, depth, k, SlotAt(Fresh(base), k), logs)
            == Some(Slot(MergeAll(c, depth, Fresh(Entries(logs, k)[0]), Entries(logs, k)[1..]), false))
    decreases |logs|
  {
    var n := |logs| - 1;
    var before, all := Entries(logs[..n], k), Entries(logs, k);
    OneKeyPath(logs[n], k);
    OneKeyPath(base, k);
    assert SteadyAt(base, logs, [k]);
    SteadyFewer(base, logs, n);
    if k in logs[n].entries {
      assert all == before + [logs[n].entries[k]];
      if before == [] {
        assert all[1..] == [];
        NothingYet(c, depth, k, base, logs[..n]);
      } else {
        assert all[1..] == before[1..] + [logs[n].entries[k]] && all[1..][..|before| - 1] == before[1..];
        FoldAdded(c, depth, k, base, logs[..n]);
        EntryFits(base, logs, k, |before|);
        assert SameShape(all[|before|], all[0]);
        MergeAllIsMap(c, depth, Fresh(all[0]), before[1..]);
        EntryIsMerge(c, depth, k, MergeAll(c, depth, Fresh(all[0]), before[1..]).value, logs[n].entries[k]);
      }
    } else {
      assert all == before;
      FoldAdded(c, depth, k, base, logs[..n]);
    }
  }

  lemma {:induction false} MergeAllIsMap(c: Context, depth: int, base: Tree, logs: seq<Byml>)
    requires base.PMap? && MergeAll(c, depth, base, logs).Some?
    ensures MergeAll(c, depth, base, logs).value.PMap?
  {
    if logs != [] {
      var n := |logs| - 1;
      MergeAllIsMap(c, depth, base, logs[..n]);
      if logs[n].Map? && logs[n].kind == MergeAll(c, depth, base, logs[..n]).value.kind {
        MergeByKey(c, depth, MergeAll(c, depth, base, logs[..n]).value, logs[n]);
      }
    }
  }

  lemma SteadyFewer(base: Byml, logs: seq<Byml>, n: nat)
    requires Steady(base, logs) && n <= |logs|
    ensures Steady(base, logs[..n])
  {
    forall path | path != []
      ensures SteadyAt(base, logs[..n], path)
    {
      assert SteadyAt(base, logs, path);
    }
  }

  lemma {:induction false} NothingYet(c: Context, depth: int, k: Key, base: Byml, logs: seq<Byml>)
    requires Steady(base, logs) && k !in base.entries && Entries(logs, k) == []
    ensures Fold(c, depth, k, SlotAt(Fresh(base), k), logs) == Some(Slot(None, false)) && LastMention(logs, [k]) == None
    decreases |logs|
  {
    if logs != [] {
      var n := |logs| - 1;
      OneKeyPath(logs[n], k);
      OneKeyPath(base, k);
      assert SteadyAt(base, logs, [k]);
      SteadyFewer(base, logs, n);
      NothingYet(c, depth, k, base, logs[..n]);
    }
  }

  /** The law: merging succeeds, and settles to what the paths say. */
  ghost predicate Merged(c: Context, depth: int, base: Byml, logs: seq<Byml>) {
    match MergeAll(c, depth, Fresh(base), logs)
    case None => false
    case Some(tree) =>
      match Settle(c, tree)
      case None => false
      case Some(r) => r.Map? && base.Map? && r.kind == base.kind && ResultBelow(base, logs, r)
  }

  lemma {:induction false} Holds(c: Context, depth: int, n: nat, base: Byml, logs: seq<Byml>)
    requires Steady(base, logs) && HeightsWithin(base, logs, n)
    ensures Merged(c, depth, base, logs)
    decreases n
  {
    forall k
      ensures KeyOutcome(c, depth, base, logs, k)
    {
      if BaseBelow(base, logs, k).Some? && BaseBelow(base, logs, k).value.Map? {
        SteadyBelow(base, logs, k);
        HeightsBelow(base, logs, k, n);
        Holds(c, depth + 1, n - 1, BaseBelow(base, logs, k).value, LogsBelow(base, logs, k));
        MapKey(c, depth, base, logs, k);
      } else {
        ScalarKey(c, depth, base, logs, k);
      }
    }
    KeysSettle(c, depth, base, logs);
  }

  lemma KeysSettle(c: Context, depth: int, base: Byml, logs: seq<Byml>)
    requires Steady(base, logs) && forall k :: KeyOutcome(c, depth, base, logs, k)
    ensures Merged(c, depth, base, logs)
  {
    forall k ensures Merges(c, depth, Fresh(base), logs, k) {
      assert KeyOutcome(c, depth, base, logs, k);
    }
    MergeAllByKey(c, depth, Fresh(base), logs);
    var tree := MergeAll(c, depth, Fresh(base), logs).value;
    forall k | k in tree.entries && k !in tree.removed
      ensures Settle(c, tree.entries[k]).Some?
    {
      assert SlotIs(c, depth, Fresh(base), logs, tree, k) && KeyOutcome(c, depth, base, logs, k);
    }
    var r := Settle(c, tree).value;
    forall path | path != []
      ensures ResultAt(base, logs, r, path)
    {
      var k := path[0];
      assert SlotIs(c, depth, Fresh(base), logs, tree, k) && KeyOutcome(c, depth, base, logs, k);
      assert k in r.entries <==> k in tree.entries && k !in tree.removed;
      PathResult(base, logs, r, k, path[1..]);
      assert path == [k] + path[1..];
    }
  }

  /** From what a key holds to what the paths through it say. */
  lemma PathResult(base: Byml, logs: seq<Byml>, r: Byml, k: Key, path: seq<Key>)
    requires Steady(base, logs) && r.Map?
    requires k in r.entries <==> BaseBelow(base, logs, k).Some? && !LastRemoves(logs, k)
    requires k in r.entries ==> ValueOutcome(base, logs, k, r.entries[k])
    ensures ResultAt(base, logs, r, [k] + path)
  {
    var whole := [k] + path;
    AliveKey(base, logs, k);
    assert whole[..1] == [k];
    PathBelow(r, k, path);
    if path == [] {
      assert whole == [k];
      OneKeyPath(r, k);
      if k in r.entries { ShapeOfKey(base, logs, k); }
    } else {
      AlivePaths(base, logs, k, path);
      if k in r.entries {
        var b, below := BaseBelow(base, logs, k).value, LogsBelow(base, logs, k);
        SetBelowAny(base, logs, k, path);
        if b.Map? {
          assert ResultAt(b, below, r.entries[k], path);
        } else {
          DeadBelowScalar(base, logs, k, path);
        }
      }
    }
  }

  lemma ShapeOfKey(base: Byml, logs: seq<Byml>, k: Key)
    requires Steady(base, logs) && BaseBelow(base, logs, k).Some?
    ensures var set_ := LastSet(base, logs, [k]);
            set_.Some? && SameShape(BaseBelow(base, logs, k).value, set_.value)
  {
    LastSetIsEntry(base, logs, k);
    if k !in base.entries || LastSet(base, logs, [k]).value in Entries(logs, k) {
      var e :| 0 <= e < |Entries(logs, k)| && Entries(logs, k)[e] == LastSet(base, logs, [k]).value;
      EntryFits(base, logs, k, e);
    } else {
      OneKeyPath(base, k);
      CleanHasNoRemove(base, [k]);
      assert MapLog(base.entries[k]);
    }
  }

  lemma {:induction false} LastSetIsEntry(base: Byml, logs: seq<Byml>, k: Key)
    requires base.Map? && (forall i :: 0 <= i < |logs| ==> logs[i].Map?) && BaseBelow(base, logs, k).Some?
    ensures var set_ := LastSet(base, logs, [k]);
            set_.Some? && (set_.value in Entries(logs, k) || (k in base.entries && set_.value == base.entries[k]))
  {
    SetIff(base, logs, k);
    if logs == [] {
      OneKeyPath(base, k);
    } else {
      var n := |logs| - 1;
      OneKeyPath(logs[n], k);
      if !(k in logs[n].entries && !logs[n].entries[k].IsRemove()) {
        LastSetIsEntry(base, logs[..n], k);
      }
    }
  }

  lemma AlivePaths(base: Byml, logs: seq<Byml>, k: Key, path: seq<Key>)
    requires Steady(base, logs) && path != []
    ensures (forall n :: 0 < n <= |path| + 1 ==> Alive(base, logs, ([k] + path)[..n])) <==>
              Alive(base, logs, [k]) && BaseBelow(base, logs, k).Some?
              && forall m :: 0 < m <= |path| ==> Alive(BaseBelow(base, logs, k).value, LogsBelow(base, logs, k), path[..m])
  {
    var whole := [k] + path;
    assert whole[..1] == [k];
    forall m | 0 < m <= |path|
      ensures whole[..m + 1] == [k] + path[..m]
      ensures Alive(base, logs, whole[..m + 1]) <==>
                BaseBelow(base, logs, k).Some? && Alive(BaseBelow(base, logs, k).value, LogsBelow(base, logs, k), path[..m])
    {
      assert whole[..m + 1] == [k] + path[..m];
      AliveBelow(base, logs, k, path[..m]);
    }
    forall n | 1 < n <= |path| + 1
      ensures Alive(base, logs, whole[..n]) <==>
                BaseBelow(base, logs, k).Some? && Alive(BaseBelow(base, logs, k).value, LogsBelow(base, logs, k), path[..n - 1])
    {
      assert whole[..n] == [k] + path[..n - 1];
      AliveBelow(base, logs, k, path[..n - 1]);
    }
    if (forall n :: 0 < n <= |path| + 1 ==> Alive(base, logs, whole[..n])) {
      AliveKey(base, logs, k);
      assert Alive(base, logs, whole[..1]);
      forall m | 0 < m <= |path|
        ensures Alive(BaseBelow(base, logs, k).value, LogsBelow(base, logs, k), path[..m])
      {
        assert Alive(base, logs, whole[..m + 1]);
      }
    }
    if Alive(base, logs, [k]) && BaseBelow(base, logs, k).Some?
       && forall m :: 0 < m <= |path| ==> Alive(BaseBelow(base, logs, k).value, LogsBelow(base, logs, k), path[..m]) {
      forall n | 0 < n <= |path| + 1
        ensures Alive(base, logs, whole[..n])
      {
        if n > 1 { assert Alive(BaseBelow(base, logs, k).value, LogsBelow(base, logs, k), path[..n - 1]); }
      }
    }
  }

  lemma DeadBelowScalar(base: Byml, logs: seq<Byml>, k: Key, path: seq<Key>)
    requires Steady(base, logs) && path != [] && BaseBelow(base, logs, k).Some? && !BaseBelow(base, logs, k).value.Map?
    ensures !Alive(BaseBelow(base, logs, k).value, LogsBelow(base, logs, k), path[..1])
  {
    var below := LogsBelow(base, logs, k);
    forall f | 0 <= f < |below|
      ensures !below[f].Map?
    {
      var e := BelowIsEntry(base, logs, k, f);
      EntryFits(base, logs, k, e);
    }
    NoMention(below, path[..1]);
  }

  lemma {:induction false} NoMention(logs: seq<Byml>, path: seq<Key>)
    requires path != [] && forall i :: 0 <= i < |logs| ==> !logs[i].Map?
    ensures LastMention(logs, path) == None
  {
    if logs != [] {
      NoMention(logs[..|logs| - 1], path);
    }
  }

  lemma {:induction false} SomeBound(base: Byml, logs: seq<Byml>) returns (n: nat)
    ensures HeightsWithin(base, logs, n)
  {
    if logs == [] {
      return Height(base);
    }
    var before := SomeBound(base, logs[..|logs| - 1]);
    var last := Height(logs[|logs| - 1]);
    n := if before < last then last else before;
  }

  /** Any number of changelogs of maps and scalars whose nodes keep their kinds: at every path the
      merged document has what was last set, unless it or something on the way was last removed. */
  lemma LastWriterWins(c: Context, base: Byml, logs: seq<Byml>)
    requires Steady(base, logs)
    ensures Merged(c, 0, base, logs)
  {
    var n := SomeBound(base, logs);
    Holds(c, 0, n, base, logs);
  }
}
