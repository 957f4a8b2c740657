/** Whole arrays that several changelogs have under one name: none replaces another. */
module JoinedArrays {
  import opened Documents
  import opened Changelogs
  import opened Pending
  import opened RoundTrip

  function Joined(lists: seq<seq<Byml>>): seq<Byml> {
    if lists == [] then [] else Joined(lists[..|lists| - 1]) + lists[|lists| - 1]
  }

  /** A changelog each, that has an array under the name. */
  function Givers(kind: Kind, k: Key, lists: seq<seq<Byml>>): seq<Byml> {
    seq(|lists|, i requires 0 <= i < |lists| => Map(kind, map[k := Array(lists[i])]))
  }

  /** The rows that are there to begin with: those of an array, and none of anything else. */
  function Before(entries: map<Key, Byml>, k: Key): seq<Byml> {
    if k in entries && entries[k].Array? then entries[k].items else []
  }

  lemma FreshRows(xs: seq<Byml>, ys: seq<Byml>)
    ensures Fresh(Array(xs + ys))
            == PArray(Fresh(Array(xs)).items + seq(|ys|, i requires 0 <= i < |ys| => Fresh(ys[i])), None)
  {
  }

  /** A further array is put at the end of the one there is. */
  lemma OneMoreArray(c: Context, depth: int, kind: Kind, entries: map<Key, Byml>, k: Key, more: seq<Byml>)
    requires k in entries ==> !entries[k].Map? && !entries[k].ArrayLog?
    ensures Merge(c, depth, Fresh(Map(kind, entries)), Map(kind, map[k := Array(more)]))
            == Some(Fresh(Map(kind, entries[k := Array(Before(entries, k) + more)])))
  {
    var base, log := Fresh(Map(kind, entries)), Map(kind, map[k := Array(more)]);
    assert Sets(log.entries, k);
    if k in entries {
      EntryJoined(c, depth + 1, k, entries[k], more);
      assert base.entries[k] == Fresh(entries[k]);
    } else {
      assert Before(entries, k) + more == more;
    }
    var after := Fresh(Map(kind, entries[k := Array(Before(entries, k) + more)]));
    var merged := MergeMap(c, depth + 1, base, log);
    assert merged.Some? && merged.value.removed == {};
    assert merged.value.entries.Keys == after.entries.Keys;
    forall h | h in after.entries
      ensures merged.value.entries[h] == after.entries[h]
    {
      if h != k { assert h !in log.entries && h in entries; }
    }
    assert merged.value.entries == after.entries;
  }

  lemma EntryJoined(c: Context, depth: int, k: Key, node: Byml, more: seq<Byml>)
    requires !node.Map? && !node.ArrayLog?
    ensures MergeEntry(c, depth, k, Fresh(node), Array(more)) == Some(Fresh(Array((if node.Array? then node.items else []) + more)))
  {
    if node.Array? {
      FreshRows(node.items, more);
    } else {
      assert [] + more == more;
    }
  }

  /** The arrays the changelogs have are put one after the other, in the order of the mods, after the rows of an array
      there was; a scalar there was is replaced.  With a map in its place merging fails. */
  lemma {:induction false} ArraysJoin(c: Context, kind: Kind, entries: map<Key, Byml>, k: Key, lists: seq<seq<Byml>>)
    requires lists != []
    ensures var tree := MergeAll(c, 0, Fresh(Map(kind, entries)), Givers(kind, k, lists));
            if k in entries && (entries[k].Map? || entries[k].ArrayLog?) then tree == None
            else tree.Some? && Settle(c, tree.value) == Some(Map(kind, entries[k := Array(Before(entries, k) + Joined(lists))]))
  {
    hide Settle, MergeAll, Fresh, Joined;
    if k in entries && (entries[k].Map? || entries[k].ArrayLog?) {
      NothingJoins(c, kind, entries, k, lists);
    } else {
      AllJoined(c, kind, entries, k, lists);
      FreshSettles(c, Map(kind, entries[k := Array(Before(entries, k) + Joined(lists))]));
    }
  }

  lemma {:induction false} AllJoined(c: Context, kind: Kind, entries: map<Key, Byml>, k: Key, lists: seq<seq<Byml>>)
    requires lists != [] && (k in entries ==> !entries[k].Map? && !entries[k].ArrayLog?)
    ensures MergeAll(c, 0, Fresh(Map(kind, entries)), Givers(kind, k, lists))
            == Some(Fresh(Map(kind, entries[k := Array(Before(entries, k) + Joined(lists))])))
    decreases |lists|
  {
    hide Fresh, Merge, Before;
    var last := |lists| - 1;
    var front, base := lists[..last], Fresh(Map(kind, entries));
    assert Givers(kind, k, lists)[..last] == Givers(kind, k, front);
    if last > 0 {
      AllJoined(c, kind, entries, k, front);
      JoinedOn(c, kind, entries, k, Joined(front), lists[last]);
    } else {
      assert Givers(kind, k, front) == [] && Joined(lists) == lists[last];
      OneMoreArray(c, 0, kind, entries, k, lists[last]);
    }
  }

  lemma JoinedOn(c: Context, kind: Kind, entries: map<Key, Byml>, k: Key, rows: seq<Byml>, more: seq<Byml>)
    requires k in entries ==> !entries[k].Map? && !entries[k].ArrayLog?
    ensures Merge(c, 0, Fresh(Map(kind, entries[k := Array(Before(entries, k) + rows)])), Map(kind, map[k := Array(more)]))
            == Some(Fresh(Map(kind, entries[k := Array(Before(entries, k) + (rows + more))])))
  {
    hide Fresh, Merge;
    var now := entries[k := Array(Before(entries, k) + rows)];
    OneMoreArray(c, 0, kind, now, k, more);
    assert Before(now, k) + more == Before(entries, k) + (rows + more);
    assert now[k := Array(Before(entries, k) + (rows + more))] == entries[k := Array(Before(entries, k) + (rows + more))];
  }

  lemma {:induction false} NothingJoins(c: Context, kind: Kind, entries: map<Key, Byml>, k: Key, lists: seq<seq<Byml>>)
    requires lists != [] && k in entries && (entries[k].Map? || entries[k].ArrayLog?)
    ensures MergeAll(c, 0, Fresh(Map(kind, entries)), Givers(kind, k, lists)) == None
    decreases |lists|
  {
    hide Merge, Fresh;
    var last := |lists| - 1;
    assert Givers(kind, k, lists)[..last] == Givers(kind, k, lists[..last]);
    if last > 0 {
      NothingJoins(c, kind, entries, k, lists[..last]);
    } else {
      assert Givers(kind, k, lists[..last]) == [];
      OneFails(c, kind, entries, k, lists[0]);
    }
  }

  lemma OneFails(c: Context, kind: Kind, entries: map<Key, Byml>, k: Key, more: seq<Byml>)
    requires k in entries && (entries[k].Map? || entries[k].ArrayLog?)
    ensures Merge(c, 0, Fresh(Map(kind, entries)), Map(kind, map[k := Array(more)])) == None
  {
    var base, log := Fresh(Map(kind, entries)), Map(kind, map[k := Array(more)]);
    assert Sets(log.entries, k) && base.entries[k] == Fresh(entries[k]);
    assert MergeEntry(c, 1, k, base.entries[k], log.entries[k]) == None;
  }
}
