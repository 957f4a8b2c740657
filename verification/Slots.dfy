/** Merging map changelogs key by key: what one changelog does to one key of a map. */
module Slots {
  import opened Documents
  import opened Changelogs
  import opened Pending

  /** What a map holds for a key, and whether the key is to be removed in the end. */
  datatype Slot = Slot(value: Option<Tree>, removed: bool)

  ghost function SlotAt(tree: Tree, k: Key): Slot
    requires tree.PMap?
  {
    Slot(Get(tree.entries, k), k in tree.removed)
  }

  /** What a changelog's entry for a key does to it; nothing when the changelog has none. */
  ghost function Step(c: Context, depth: int, key: Key, slot: Slot, entry: Option<Byml>): Option<Slot> {
    if entry.None? then Some(slot)
    else if entry.value.IsRemove() then Some(slot.(removed := true))
    else if slot.value.None? then Some(Slot(Some(Fresh(entry.value)), false))
    else
      match MergeEntry(c, depth, key, slot.value.value, entry.value)
      case None => None
      case Some(tree) => Some(Slot(Some(tree), false))
  }

  lemma MergeByKey(c: Context, depth: int, base: Tree, log: Byml)
    requires base.PMap? && log.Map? && base.kind == log.kind
    ensures Merge(c, depth, base, log) == MergeMap(c, depth + 1, base, log)
    ensures var r := Merge(c, depth, base, log);
            if r.None? then exists k :: Step(c, depth + 1, k, SlotAt(base, k), Get(log.entries, k)).None?
            else r.value.PMap? && r.value.kind == base.kind
                 && forall k :: Step(c, depth + 1, k, SlotAt(base, k), Get(log.entries, k)) == Some(SlotAt(r.value, k))
  {
    var r := Merge(c, depth, base, log);
    assert r == MergeMap(c, depth + 1, base, log);
    if r.None? {
      var k :| k in log.entries && k in base.entries && Sets(log.entries, k)
               && MergeEntry(c, depth + 1, k, base.entries[k], log.entries[k]).None?;
      assert Step(c, depth + 1, k, SlotAt(base, k), Get(log.entries, k)).None?;
    } else {
      forall k
        ensures Step(c, depth + 1, k, SlotAt(base, k), Get(log.entries, k)) == Some(SlotAt(r.value, k))
      {
        MergedSlot(c, depth + 1, base, log, k);
      }
    }
  }

  lemma MergedSlot(c: Context, depth: int, base: Tree, log: Byml, k: Key)
    requires base.PMap? && log.Map? && MergeMap(c, depth, base, log).Some?
    ensures MergeMap(c, depth, base, log).value.PMap?
    ensures Step(c, depth, k, SlotAt(base, k), Get(log.entries, k)) == Some(SlotAt(MergeMap(c, depth, base, log).value, k))
  {
    var r := MergeMap(c, depth, base, log).value;
    assert k in r.removed <==> (k in log.entries && !Sets(log.entries, k)) || (k in base.removed && !Sets(log.entries, k));
    if Sets(log.entries, k) && k in base.entries {
      assert r.entries[k] == MergeEntry(c, depth, k, base.entries[k], log.entries[k]).value;
    }
  }

  lemma SameSlots(a: Tree, b: Tree)
    requires a.PMap? && b.PMap? && a.kind == b.kind && forall k :: SlotAt(a, k) == SlotAt(b, k)
    ensures a == b
  {
    forall k
      ensures k in a.entries <==> k in b.entries
      ensures k in a.entries ==> a.entries[k] == b.entries[k]
      ensures k in a.removed <==> k in b.removed
    {
      assert SlotAt(a, k) == SlotAt(b, k);
    }
    assert a.entries == b.entries;
    assert a.removed == b.removed;
  }

  /** Two changelogs, one after the other. */
  ghost function Both(c: Context, depth: int, base: Tree, first: Byml, second: Byml): Option<Tree> {
    match Merge(c, depth, base, first)
    case None => None
    case Some(tree) => Merge(c, depth, tree, second)
  }

  ghost function BothSteps(c: Context, depth: int, key: Key, slot: Slot, first: Option<Byml>, second: Option<Byml>): Option<Slot> {
    match Step(c, depth, key, slot, first)
    case None => None
    case Some(next) => Step(c, depth, key, next, second)
  }

  ghost predicate BothAt(c: Context, depth: int, base: Tree, first: Byml, second: Byml, k: Key)
    requires base.PMap? && first.Map? && second.Map?
  {
    match Both(c, depth, base, first, second)
    case None => true
    case Some(tree) =>
      tree.PMap? && tree.kind == base.kind
      && BothSteps(c, depth + 1, k, SlotAt(base, k), Get(first.entries, k), Get(second.entries, k)) == Some(SlotAt(tree, k))
  }

  lemma BothByKey(c: Context, depth: int, base: Tree, first: Byml, second: Byml)
    requires base.PMap? && first.Map? && second.Map? && base.kind == first.kind == second.kind
    ensures Both(c, depth, base, first, second).None? <==>
              exists k :: BothSteps(c, depth + 1, k, SlotAt(base, k), Get(first.entries, k), Get(second.entries, k)).None?
    ensures forall k :: BothAt(c, depth, base, first, second, k)
  {
    MergeByKey(c, depth, base, first);
    var one := Merge(c, depth, base, first);
    if one.None? {
      var k :| Step(c, depth + 1, k, SlotAt(base, k), Get(first.entries, k)).None?;
      assert BothSteps(c, depth + 1, k, SlotAt(base, k), Get(first.entries, k), Get(second.entries, k)).None?;
    } else {
      MergeByKey(c, depth, one.value, second);
      var two := Merge(c, depth, one.value, second);
      if two.None? {
        var k :| Step(c, depth + 1, k, SlotAt(one.value, k), Get(second.entries, k)).None?;
        assert Step(c, depth + 1, k, SlotAt(base, k), Get(first.entries, k)) == Some(SlotAt(one.value, k));
        assert BothSteps(c, depth + 1, k, SlotAt(base, k), Get(first.entries, k), Get(second.entries, k)).None?;
      } else {
        forall k
          ensures BothAt(c, depth, base, first, second, k)
        {
          assert Step(c, depth + 1, k, SlotAt(base, k), Get(first.entries, k)) == Some(SlotAt(one.value, k));
          assert Step(c, depth + 1, k, SlotAt(one.value, k), Get(second.entries, k)) == Some(SlotAt(two.value, k));
        }
      }
    }
  }
}
