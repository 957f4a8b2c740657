/** Two changelogs that set nothing differently merge to the same document in either order. */
module Commuting {
  import opened Documents
  import opened Changelogs
  import opened Pending
  import opened Slots

  /** A changelog of maps and scalars: values set and keys removed. */
  ghost predicate MapLog(log: Byml) {
    match log
    case Leaf(_) => true
    case Marker(change) => change == Remove
    case Map(_, entries) => forall k :: k in entries ==> MapLog(entries[k])
    case _ => false
  }

  /** Wherever both say something they say the same, or both go further down. */
  ghost predicate Compatible(a: Byml, b: Byml)
    decreases a
  {
    if a.Map? && b.Map? then
      a.kind == b.kind ==> forall k :: k in a.entries && k in b.entries ==> Compatible(a.entries[k], b.entries[k])
    else a == b
  }

  /** A changelog removes keys only from maps that are there, of the kind it changes: what it adds is a plain document. */
  ghost predicate RemovesKnown(base: Tree, log: Byml)
    decreases log
  {
    log.Map? ==>
      if base.PMap? then
        base.kind == log.kind ==> forall k :: k in log.entries && log.entries[k].Map? ==>
          if k in base.entries then RemovesKnown(base.entries[k], log.entries[k]) else Clean(log.entries[k])
      else Clean(log)
  }

  lemma {:induction false} CompatibleSwap(a: Byml, b: Byml)
    requires Compatible(a, b)
    ensures Compatible(b, a)
    decreases a
  {
    if a.Map? && b.Map? && a.kind == b.kind {
      forall k | k in b.entries && k in a.entries
        ensures Compatible(b.entries[k], a.entries[k])
      {
        CompatibleSwap(a.entries[k], b.entries[k]);
      }
    }
  }

  ghost predicate SlotOk(slot: Slot, entry: Option<Byml>) {
    entry.Some? && entry.value.Map? ==>
      if slot.value.Some? then RemovesKnown(slot.value.value, entry.value) else Clean(entry.value)
  }

  lemma FreshSlot(a: Byml, k: Key)
    requires a.Map?
    ensures Fresh(a).PMap? && SlotAt(Fresh(a), k) == Slot(if k in a.entries then Some(Fresh(a.entries[k])) else None, false)
  {
  }

  /** Two maps added under the same new key, one merged into the other. */
  lemma {:induction false} AddedCommute(c: Context, depth: int, a: Byml, b: Byml)
    requires a.Map? && b.Map? && MapLog(a) && MapLog(b) && Clean(a) && Clean(b) && Compatible(a, b)
    ensures Merge(c, depth, Fresh(a), b) == Merge(c, depth, Fresh(b), a)
    decreases a, 1
  {
    if a.kind == b.kind {
      CompatibleSwap(a, b);
      forall k
        ensures Step(c, depth + 1, k, SlotAt(Fresh(a), k), Get(b.entries, k)) == Step(c, depth + 1, k, SlotAt(Fresh(b), k), Get(a.entries, k))
      {
        FreshSlot(a, k);
        FreshSlot(b, k);
        if k in a.entries && k in b.entries {
          AddedStep(c, depth + 1, k, a.entries[k], b.entries[k]);
        }
      }
      SameSteps(c, depth, Fresh(a), b, Fresh(b), a);
    }
  }

  lemma {:induction false} AddedStep(c: Context, depth: int, key: Key, a: Byml, b: Byml)
    requires MapLog(a) && MapLog(b) && Clean(a) && Clean(b) && Compatible(a, b)
    ensures MergeEntry(c, depth, key, Fresh(a), b) == MergeEntry(c, depth, key, Fresh(b), a)
    decreases a, 2
  {
    if a.Map? && b.Map? {
      AddedCommute(c, depth, a, b);
    }
  }

  /** Merges that do the same to every key are the same. */
  lemma SameSteps(c: Context, depth: int, base: Tree, log: Byml, base': Tree, log': Byml)
    requires base.PMap? && base'.PMap? && log.Map? && log'.Map? && base.kind == base'.kind == log.kind == log'.kind
    requires forall k :: Step(c, depth + 1, k, SlotAt(base, k), Get(log.entries, k)) == Step(c, depth + 1, k, SlotAt(base', k), Get(log'.entries, k))
    ensures Merge(c, depth, base, log) == Merge(c, depth, base', log')
  {
    MergeByKey(c, depth, base, log);
    MergeByKey(c, depth, base', log');
    var a, b := Merge(c, depth, base, log), Merge(c, depth, base', log');
    if a.Some? && b.Some? {
      forall k ensures SlotAt(a.value, k) == SlotAt(b.value, k) {
        assert Step(c, depth + 1, k, SlotAt(base, k), Get(log.entries, k)) == Some(SlotAt(a.value, k));
        assert Step(c, depth + 1, k, SlotAt(base', k), Get(log'.entries, k)) == Some(SlotAt(b.value, k));
      }
      SameSlots(a.value, b.value);
    }
  }

  lemma {:induction false} StepsCommute(c: Context, depth: int, key: Key, slot: Slot, a: Byml, b: Byml)
    requires MapLog(a) && MapLog(b) && SlotOk(slot, Some(a)) && SlotOk(slot, Some(b)) && Compatible(a, b)
    ensures BothSteps(c, depth, key, slot, Some(a), Some(b)) == BothSteps(c, depth, key, slot, Some(b), Some(a))
    decreases a, 4
  {
    if a.Map? && b.Map? {
      if slot.value.Some? && slot.value.value.PMap? {
        Commute(c, depth, slot.value.value, a, b);
        StepsAreMerges(c, depth, key, slot, a, b);
        StepsAreMerges(c, depth, key, slot, b, a);
      } else {
        AddedStep(c, depth, key, a, b);
        NotIntoMap(c, depth, key, slot, a);
        NotIntoMap(c, depth, key, slot, b);
      }
    }
  }

  /** A map replaces a scalar and does not go into anything but a map. */
  lemma NotIntoMap(c: Context, depth: int, key: Key, slot: Slot, a: Byml)
    requires a.Map? && (slot.value.Some? ==> !slot.value.value.PMap?)
    ensures Step(c, depth, key, slot, Some(a))
            == if slot.value.Some? && slot.value.value.IsContainer() then None else Some(Slot(Some(Fresh(a)), false))
  {
    if slot.value.Some? && slot.value.value.IsContainer() {
      assert Merge(c, depth, slot.value.value, a) == None;
    }
  }

  lemma EntryIsMerge(c: Context, depth: int, key: Key, base: Tree, log: Byml)
    requires base.PMap? && log.Map?
    ensures MergeEntry(c, depth, key, base, log) == Merge(c, depth, base, log)
    ensures Merge(c, depth, base, log).Some? ==> Merge(c, depth, base, log).value.PMap?
  {
    if base.kind == log.kind { MergeByKey(c, depth, base, log); }
  }

  lemma StepsAreMerges(c: Context, depth: int, key: Key, slot: Slot, a: Byml, b: Byml)
    requires a.Map? && b.Map? && slot.value.Some? && slot.value.value.PMap?
    ensures BothSteps(c, depth, key, slot, Some(a), Some(b))
            == match Both(c, depth, slot.value.value, a, b) case None => None case Some(tree) => Some(Slot(Some(tree), false))
  {
    EntryIsMerge(c, depth, key, slot.value.value, a);
    var one := Merge(c, depth, slot.value.value, a);
    if one.Some? {
      EntryIsMerge(c, depth, key, one.value, b);
    }
  }

  /** Compatible changelogs commute, on any tree whose keys they know. */
  lemma {:induction false} Commute(c: Context, depth: int, base: Tree, a: Byml, b: Byml)
    requires base.PMap? && a.Map? && b.Map? && MapLog(a) && MapLog(b) && Compatible(a, b)
    requires RemovesKnown(base, a) && RemovesKnown(base, b)
    ensures Both(c, depth, base, a, b) == Both(c, depth, base, b, a)
    decreases a, 3
  {
    if base.kind == a.kind == b.kind {
      BothByKey(c, depth, base, a, b);
      BothByKey(c, depth, base, b, a);
      forall k
        ensures BothSteps(c, depth + 1, k, SlotAt(base, k), Get(a.entries, k), Get(b.entries, k))
             == BothSteps(c, depth + 1, k, SlotAt(base, k), Get(b.entries, k), Get(a.entries, k))
      {
        if k in a.entries && k in b.entries {
          StepsCommute(c, depth + 1, k, SlotAt(base, k), a.entries[k], b.entries[k]);
        }
      }
      SameBoth(c, depth, base, a, b);
    } else {
      KindsDiffer(c, depth, base, a, b);
      KindsDiffer(c, depth, base, b, a);
    }
  }

  lemma KindsDiffer(c: Context, depth: int, base: Tree, a: Byml, b: Byml)
    requires base.PMap? && a.Map? && b.Map? && !(base.kind == a.kind == b.kind)
    ensures Both(c, depth, base, a, b) == None
  {
    if base.kind == a.kind {
      MergeByKey(c, depth, base, a);
    }
  }

  lemma SameBoth(c: Context, depth: int, base: Tree, a: Byml, b: Byml)
    requires base.PMap? && a.Map? && b.Map? && base.kind == a.kind == b.kind
    requires forall k :: BothSteps(c, depth + 1, k, SlotAt(base, k), Get(a.entries, k), Get(b.entries, k))
                      == BothSteps(c, depth + 1, k, SlotAt(base, k), Get(b.entries, k), Get(a.entries, k))
    ensures Both(c, depth, base, a, b) == Both(c, depth, base, b, a)
  {
    BothByKey(c, depth, base, a, b);
    BothByKey(c, depth, base, b, a);
    var ab, ba := Both(c, depth, base, a, b), Both(c, depth, base, b, a);
    if ab.Some? && ba.Some? {
      assert BothAt(c, depth, base, a, b, Hash(0)) && BothAt(c, depth, base, b, a, Hash(0));
      forall k ensures SlotAt(ab.value, k) == SlotAt(ba.value, k) {
        assert BothAt(c, depth, base, a, b, k) && BothAt(c, depth, base, b, a, k);
      }
      SameSlots(ab.value, ba.value);
    }
  }

  // ---------- changelogs that are not compatible ----------

  /** A document of maps and scalars, with keys noted to be removed. */
  ghost predicate MapTree(tree: Tree) {
    match tree
    case Plain(node) => !node.Map?
    case PMap(_, entries, _) => forall k :: k in entries ==> MapTree(entries[k])
    case PArray(_, _) => false
  }

  ghost predicate MapSlot(slot: Slot) { slot.value.Some? ==> MapTree(slot.value.value) }

  /** What is left of a key in the end. */
  ghost function Visible(c: Context, slot: Slot): Option<Byml> {
    if slot.removed || slot.value.None? then None else Settle(c, slot.value.value)
  }

  ghost function Settled(c: Context, tree: Option<Tree>): Option<Byml> {
    if tree.None? then None else Settle(c, tree.value)
  }

  lemma {:induction false} FreshIsMapTree(log: Byml)
    requires MapLog(log)
    ensures MapTree(Fresh(log))
    decreases log
  {
    if log.Map? {
      forall k | k in log.entries
        ensures MapTree(Fresh(log.entries[k]))
      {
        FreshIsMapTree(log.entries[k]);
      }
    }
  }

  /** Such a document always settles, key by key. */
  lemma {:induction false} MapTreeSettles(c: Context, tree: Tree)
    requires MapTree(tree)
    ensures Settle(c, tree).Some? && (Settle(c, tree).value.Map? <==> tree.PMap?)
    ensures tree.PMap? ==> forall k :: Get(Settle(c, tree).value.entries, k) == Visible(c, SlotAt(tree, k))
    decreases tree
  {
    if tree.PMap? {
      forall k | k in tree.entries
        ensures Settle(c, tree.entries[k]).Some?
      {
        MapTreeSettles(c, tree.entries[k]);
      }
    }
  }

  lemma LeafStays(c: Context, depth: int, key: Key, slot: Slot, entry: Byml)
    requires MapLog(entry) && !entry.Map? && !entry.IsRemove()
    ensures Step(c, depth, key, slot, Some(entry)) == Some(Slot(Some(Plain(entry)), false))
  {
  }

  lemma {:induction false} StepKeepsMaps(c: Context, depth: int, key: Key, slot: Slot, entry: Byml)
    requires MapSlot(slot) && MapLog(entry) && Step(c, depth, key, slot, Some(entry)).Some?
    ensures MapSlot(Step(c, depth, key, slot, Some(entry)).value)
    decreases entry, 1
  {
    hide Merge, MergeEntry;
    FreshIsMapTree(entry);
    if entry.IsRemove() {
    } else if !entry.Map? {
      LeafStays(c, depth, key, slot, entry);
    } else if slot.value.Some? && slot.value.value.PMap? {
      EntryIsMerge(c, depth, key, slot.value.value, entry);
      MergeKeepsMaps(c, depth, slot.value.value, entry);
    } else {
      NotIntoMap(c, depth, key, slot, entry);
    }
  }

  lemma {:induction false} MergeKeepsMaps(c: Context, depth: int, base: Tree, log: Byml)
    requires base.PMap? && MapTree(base) && log.Map? && MapLog(log) && Merge(c, depth, base, log).Some?
    ensures Merge(c, depth, base, log).value.PMap? && MapTree(Merge(c, depth, base, log).value)
    decreases log, 0
  {
    MergeByKey(c, depth, base, log);
    var merged := Merge(c, depth, base, log).value;
    forall k | k in merged.entries
      ensures MapTree(merged.entries[k])
    {
      assert Step(c, depth + 1, k, SlotAt(base, k), Get(log.entries, k)) == Some(SlotAt(merged, k));
      if k in log.entries {
        StepKeepsMaps(c, depth + 1, k, SlotAt(base, k), log.entries[k]);
      }
    }
  }

  lemma BothKeepMaps(c: Context, depth: int, base: Tree, a: Byml, b: Byml)
    requires base.PMap? && MapTree(base) && a.Map? && b.Map? && MapLog(a) && MapLog(b) && Both(c, depth, base, a, b).Some?
    ensures Both(c, depth, base, a, b).value.PMap? && MapTree(Both(c, depth, base, a, b).value)
  {
    hide MapTree, MapLog, Merge;
    MergeKeepsMaps(c, depth, base, a);
    MergeKeepsMaps(c, depth, Merge(c, depth, base, a).value, b);
  }

  /** What is set is there, and not to be removed. */
  lemma SetIsVisible(c: Context, depth: int, key: Key, slot: Slot, entry: Byml)
    requires MapSlot(slot) && MapLog(entry) && !entry.IsRemove() && Step(c, depth, key, slot, Some(entry)).Some?
    ensures var next := Step(c, depth, key, slot, Some(entry)).value;
            !next.removed && MapSlot(next) && Visible(c, next).Some? && (Visible(c, next).value.Map? <==> entry.Map?)
            && (!entry.Map? ==> Visible(c, next) == Some(entry))
  {
    hide Settle, MapTree, Merge, MergeEntry;
    StepKeepsMaps(c, depth, key, slot, entry);
    if !entry.Map? {
      LeafStays(c, depth, key, slot, entry);
      LeafSettles(c, entry);
    } else if slot.value.Some? && slot.value.value.PMap? {
      EntryIsMerge(c, depth, key, slot.value.value, entry);
    } else {
      NotIntoMap(c, depth, key, slot, entry);
    }
    MapTreeSettles(c, Step(c, depth, key, slot, Some(entry)).value.value.value);
  }

  lemma LeafSettles(c: Context, entry: Byml)
    ensures Settle(c, Plain(entry)) == Some(entry)
  {
  }

  /** Merging a plain map into an empty one gives the map. */
  lemma IntoNothing(c: Context, depth: int, a: Byml)
    requires a.Map? && MapLog(a) && Clean(a)
    ensures Merge(c, depth, PMap(a.kind, map[], {}), a) == Some(Fresh(a))
  {
    hide MapLog, Settle;
    var base: Tree := PMap(a.kind, map[], {});
    MergeByKey(c, depth, base, a);
    var r := Merge(c, depth, base, a);
    forall k ensures Step(c, depth + 1, k, SlotAt(base, k), Get(a.entries, k)) == Some(SlotAt(Fresh(a), k)) { FreshSlot(a, k); }
    if r.Some? {
      forall k ensures SlotAt(r.value, k) == SlotAt(Fresh(a), k) {
        assert Step(c, depth + 1, k, SlotAt(base, k), Get(a.entries, k)) == Some(SlotAt(r.value, k));
      }
      SameSlots(r.value, Fresh(a));
    }
  }

  lemma {:induction false} StepsDiffer(c: Context, depth: int, key: Key, slot: Slot, a: Byml, b: Byml)
    requires MapSlot(slot) && MapLog(a) && MapLog(b) && SlotOk(slot, Some(a)) && SlotOk(slot, Some(b)) && !Compatible(a, b)
    requires BothSteps(c, depth, key, slot, Some(a), Some(b)).Some? && BothSteps(c, depth, key, slot, Some(b), Some(a)).Some?
    ensures Visible(c, BothSteps(c, depth, key, slot, Some(a), Some(b)).value) != Visible(c, BothSteps(c, depth, key, slot, Some(b), Some(a)).value)
    decreases a, 4
  {
    if a.Map? && b.Map? {
      if slot.value.Some? && slot.value.value.PMap? {
        StepsAreMerges(c, depth, key, slot, a, b);
        StepsAreMerges(c, depth, key, slot, b, a);
        MergesDiffer(c, depth, slot.value.value, a, b);
      } else {
        AddedDiffer(c, depth, key, slot, a, b);
      }
    } else {
      LastShows(c, depth, key, slot, a, b);
      LastShows(c, depth, key, slot, b, a);
    }
  }

  /** Of two entries that are not both maps the last shows. */
  lemma LastShows(c: Context, depth: int, key: Key, slot: Slot, a: Byml, b: Byml)
    requires MapSlot(slot) && MapLog(a) && MapLog(b) && BothSteps(c, depth, key, slot, Some(a), Some(b)).Some?
    ensures var last := Visible(c, BothSteps(c, depth, key, slot, Some(a), Some(b)).value);
            if b.IsRemove() then last == None
            else last.Some? && (last.value.Map? <==> b.Map?) && (!b.Map? ==> last == Some(b))
  {
    hide Settle, MapTree, Merge, MergeEntry;
    var next := Step(c, depth, key, slot, Some(a)).value;
    StepKeepsMaps(c, depth, key, slot, a);
    if !b.IsRemove() {
      SetIsVisible(c, depth, key, next, b);
    }
  }

  lemma {:induction false} AddedDiffer(c: Context, depth: int, key: Key, slot: Slot, a: Byml, b: Byml)
    requires a.Map? && b.Map? && MapLog(a) && MapLog(b) && SlotOk(slot, Some(a)) && SlotOk(slot, Some(b)) && !Compatible(a, b)
    requires MapSlot(slot) && (slot.value.Some? ==> !slot.value.value.PMap?)
    requires BothSteps(c, depth, key, slot, Some(a), Some(b)).Some? && BothSteps(c, depth, key, slot, Some(b), Some(a)).Some?
    ensures Visible(c, BothSteps(c, depth, key, slot, Some(a), Some(b)).value) != Visible(c, BothSteps(c, depth, key, slot, Some(b), Some(a)).value)
    decreases a, 3, 1
  {
    hide Settle;
    var base: Tree := PMap(a.kind, map[], {});
    NotIntoMap(c, depth, key, slot, a);
    NotIntoMap(c, depth, key, slot, b);
    IntoNothing(c, depth, a);
    IntoNothing(c, depth, b);
    EntryIsMerge(c, depth, key, Fresh(a), b);
    EntryIsMerge(c, depth, key, Fresh(b), a);
    MergesDiffer(c, depth, base, a, b);
  }

  /** Changelogs that are not compatible merge to different documents, if they merge at all. */
  lemma {:induction false} MergesDiffer(c: Context, depth: int, base: Tree, a: Byml, b: Byml)
    requires base.PMap? && MapTree(base) && a.Map? && b.Map? && MapLog(a) && MapLog(b) && !Compatible(a, b)
    requires RemovesKnown(base, a) && RemovesKnown(base, b)
    requires Both(c, depth, base, a, b).Some? && Both(c, depth, base, b, a).Some?
    ensures Settle(c, Both(c, depth, base, a, b).value) != Settle(c, Both(c, depth, base, b, a).value)
    decreases a, 3, 0
  {
    hide Settle, Merge, Step;
    if base.kind != a.kind { KindsDiffer(c, depth, base, a, b); }
    var k :| k in a.entries && k in b.entries && !Compatible(a.entries[k], b.entries[k]);
    BothByKey(c, depth, base, a, b);
    BothByKey(c, depth, base, b, a);
    assert BothAt(c, depth, base, a, b, k) && BothAt(c, depth, base, b, a, k);
    StepsDiffer(c, depth + 1, k, SlotAt(base, k), a.entries[k], b.entries[k]);
    BothKeepMaps(c, depth, base, a, b);
    BothKeepMaps(c, depth, base, b, a);
    MapTreeSettles(c, Both(c, depth, base, a, b).value);
    MapTreeSettles(c, Both(c, depth, base, b, a).value);
  }

  /** Two changelogs merge to the same tree in either order, and to the same document, exactly when they are compatible. */
  lemma CommuteIff(c: Context, depth: int, base: Tree, a: Byml, b: Byml)
    requires base.PMap? && MapTree(base) && a.Map? && b.Map? && MapLog(a) && MapLog(b) && RemovesKnown(base, a) && RemovesKnown(base, b)
    requires Both(c, depth, base, a, b).Some? || Both(c, depth, base, b, a).Some?
    ensures Both(c, depth, base, a, b) == Both(c, depth, base, b, a) <==> Compatible(a, b)
    ensures Settled(c, Both(c, depth, base, a, b)) == Settled(c, Both(c, depth, base, b, a)) <==> Compatible(a, b)
  {
    hide MapTree, MapLog, RemovesKnown, Both, Settle;
    if Compatible(a, b) {
      Commute(c, depth, base, a, b);
    } else {
      if Both(c, depth, base, a, b).Some? {
        BothKeepMaps(c, depth, base, a, b);
        MapTreeSettles(c, Both(c, depth, base, a, b).value);
      }
      if Both(c, depth, base, b, a).Some? {
        BothKeepMaps(c, depth, base, b, a);
        MapTreeSettles(c, Both(c, depth, base, b, a).value);
      }
      if Both(c, depth, base, a, b).Some? && Both(c, depth, base, b, a).Some? {
        MergesDiffer(c, depth, base, a, b);
      }
    }
  }
}
