/** When no collision is reported among any number of mods, it does not matter in what order they are merged. */
module AnyOrder {
  import opened Documents
  import opened Changelogs
  import opened Pending
  import opened Commuting
  import opened Conflicts
  import opened ConflictLaws
  import opened RoundTripLaws
  import LastWriter
  import Slots

  // ---------- merging one changelog leaves the others' keys known ----------

  /** What a compatible changelog leaves of a map the other still knows. */
  lemma {:induction false} KnownAfter(c: Context, depth: int, base: Tree, a: Byml, b: Byml)
    requires base.PMap? && a.Map? && b.Map? && MapLog(a) && MapLog(b) && Compatible(a, b)
    requires RemovesKnown(base, b) && Merge(c, depth, base, a).Some?
    ensures Merge(c, depth, base, a).value.PMap? && RemovesKnown(Merge(c, depth, base, a).value, b)
    decreases b
  {
    Slots.MergeByKey(c, depth, base, a);
    var merged := Merge(c, depth, base, a).value;
    if base.kind == b.kind {
      forall k | k in b.entries && b.entries[k].Map?
        ensures if k in merged.entries then RemovesKnown(merged.entries[k], b.entries[k]) else Clean(b.entries[k])
      {
        assert Slots.Step(c, depth + 1, k, Slots.SlotAt(base, k), Get(a.entries, k)) == Some(Slots.SlotAt(merged, k));
        if k in a.entries && k in base.entries && base.entries[k].PMap? {
          EntryIsMerge(c, depth + 1, k, base.entries[k], a.entries[k]);
          KnownAfter(c, depth + 1, base.entries[k], a.entries[k], b.entries[k]);
        } else if k in merged.entries && (k in base.entries ==> !base.entries[k].PMap?) {
          CleanIsKnown(merged.entries[k], b.entries[k]);
        }
      }
    }
  }

  // ---------- any order of compatible changelogs ----------

  /** Changelogs that know the keys they remove, no two of them saying different things. */
  ghost predicate Agreeing(base: Tree, logs: seq<Byml>) {
    && base.PMap?
    && (forall a :: a in logs ==> a.Map? && MapLog(a) && RemovesKnown(base, a))
    && (forall a, b :: a in logs && b in logs ==> Compatible(a, b))
  }

  lemma AgreeingPart(base: Tree, logs: seq<Byml>, some: seq<Byml>)
    requires Agreeing(base, logs) && forall a :: a in some ==> a in logs
    ensures Agreeing(base, some)
  {
    hide MapLog, RemovesKnown, Compatible;
  }

  /** What some of them leave is still known to every other. */
  lemma {:induction false} KnownAfterAll(c: Context, depth: int, base: Tree, logs: seq<Byml>, b: Byml)
    requires Agreeing(base, logs + [b]) && MergeAll(c, depth, base, logs).Some?
    ensures MergeAll(c, depth, base, logs).value.PMap? && RemovesKnown(MergeAll(c, depth, base, logs).value, b)
    decreases |logs|
  {
    hide MapLog, RemovesKnown, Compatible;
    assert b in logs + [b];
    if logs != [] {
      var n := |logs| - 1;
      AgreeingPart(base, logs + [b], logs[..n] + [b]);
      KnownAfterAll(c, depth, base, logs[..n], b);
      assert logs[n] in logs + [b];
      KnownAfter(c, depth, MergeAll(c, depth, base, logs[..n]).value, logs[n], b);
    }
  }

  /** The last two of them can change places. */
  lemma LastTwoSwap(c: Context, depth: int, base: Tree, logs: seq<Byml>, a: Byml, b: Byml)
    requires Agreeing(base, logs + [a, b])
    ensures MergeAll(c, depth, base, logs + [a] + [b]) == MergeAll(c, depth, base, logs + [b] + [a])
  {
    hide MapLog, RemovesKnown, Compatible, Merge;
    LastWriter.MergeAllOne(c, depth, base, logs + [a], b);
    LastWriter.MergeAllOne(c, depth, base, logs + [b], a);
    LastWriter.MergeAllOne(c, depth, base, logs, a);
    LastWriter.MergeAllOne(c, depth, base, logs, b);
    if MergeAll(c, depth, base, logs).Some? {
      assert a in logs + [a, b] && b in logs + [a, b];
      AgreeingPart(base, logs + [a, b], logs + [a]);
      AgreeingPart(base, logs + [a, b], logs + [b]);
      KnownAfterAll(c, depth, base, logs, a);
      KnownAfterAll(c, depth, base, logs, b);
      Commute(c, depth, MergeAll(c, depth, base, logs).value, a, b);
    }
  }

  /** One of them can be merged after all the others. */
  lemma {:induction false} MoveLast(c: Context, depth: int, base: Tree, before: seq<Byml>, a: Byml, after: seq<Byml>)
    requires Agreeing(base, before + [a] + after)
    ensures MergeAll(c, depth, base, before + [a] + after) == MergeAll(c, depth, base, before + after + [a])
    decreases |after|
  {
    hide Agreeing, Merge, MergeAll;
    if after == [] {
      assert before + [a] + after == before + after + [a];
    } else {
      var n := |after| - 1;
      var fewer, last := after[..n], after[n];
      LastApart(before, a, fewer, last);
      assert after == fewer + [last];
      AgreeingPart(base, before + [a] + after, before + [a] + fewer);
      AgreeingPart(base, before + [a] + after, before + fewer + [a, last]);
      MoveLast(c, depth, base, before, a, fewer);
      LastWriter.MergeAllOne(c, depth, base, before + [a] + fewer, last);
      LastWriter.MergeAllOne(c, depth, base, before + fewer + [a], last);
      LastTwoSwap(c, depth, base, before + fewer, a, last);
    }
  }

  lemma LastApart<T>(before: seq<T>, a: T, fewer: seq<T>, last: T)
    ensures before + [a] + (fewer + [last]) == before + [a] + fewer + [last]
    ensures before + (fewer + [last]) + [a] == before + fewer + [last] + [a]
    ensures forall x :: x in before + [a] + fewer ==> x in before + [a] + (fewer + [last])
    ensures forall x :: x in before + fewer + [a, last] ==> x in before + [a] + (fewer + [last])
  {
  }

  /** The last of a list, somewhere in another order of it. */
  lemma LastOf<T>(logs: seq<T>, order: seq<T>) returns (before: seq<T>, after: seq<T>)
    requires logs != [] && multiset(order) == multiset(logs)
    ensures order == before + [logs[|logs| - 1]] + after
    ensures multiset(before + after) == multiset(logs[..|logs| - 1])
  {
    var most, last := logs[..|logs| - 1], logs[|logs| - 1];
    assert last in multiset(order);
    before, after := Around(order, last);
    TakenOut(before, last, after);
    LastTakenOut(most, last);
    assert most + [last] == logs;
  }

  lemma LastTakenOut<T>(most: seq<T>, last: T)
    ensures multiset(most) == multiset(most + [last]) - multiset{last}
  {
  }

  lemma Around<T>(order: seq<T>, one: T) returns (before: seq<T>, after: seq<T>)
    requires one in order
    ensures order == before + [one] + after
  {
    var i :| 0 <= i < |order| && order[i] == one;
    before, after := order[..i], order[i + 1..];
  }

  lemma TakenOut<T>(before: seq<T>, one: T, after: seq<T>)
    ensures multiset(before + after) == multiset(before + [one] + after) - multiset{one}
  {
    assert multiset(before + [one] + after) == multiset(before) + multiset{one} + multiset(after);
  }

  lemma SameMembers(logs: seq<Byml>, order: seq<Byml>)
    requires multiset(order) == multiset(logs)
    ensures forall a :: a in order ==> a in logs
    ensures |order| == |logs|
  {
    assert |order| == |multiset(order)| == |multiset(logs)| == |logs|;
    forall a | a in order ensures a in logs { assert a in multiset(order); }
  }

  /** Compatible changelogs, however many, merge to the same tree in every order, or in none. */
  lemma {:induction false} EveryOrder(c: Context, depth: int, base: Tree, logs: seq<Byml>, order: seq<Byml>)
    requires Agreeing(base, logs) && multiset(order) == multiset(logs)
    ensures MergeAll(c, depth, base, order) == MergeAll(c, depth, base, logs)
    decreases |logs|
  {
    hide Agreeing, Merge;
    SameMembers(logs, order);
    if logs != [] {
      var n := |logs| - 1;
      var before, after := LastOf(logs, order);
      AgreeingPart(base, logs, before + [logs[n]] + after);
      MoveLast(c, depth, base, before, logs[n], after);
      AgreeingPart(base, logs, logs[..n]);
      EveryOrder(c, depth, base, logs[..n], before + after);
      LastWriter.MergeAllOne(c, depth, base, before + after, logs[n]);
    }
  }

  // ---------- any order of mods with nothing reported ----------

  function AllChanges(c: Context, mods: seq<Byml>, vanilla: Byml): seq<Byml> {
    seq(|mods|, i requires 0 <= i < |mods| => Changes(c, mods[i], vanilla))
  }

  lemma {:induction false} SameIsCompatible(a: Byml)
    ensures Compatible(a, a)
    decreases a
  {
    if a.Map? {
      forall k | k in a.entries ensures Compatible(a.entries[k], a.entries[k]) { SameIsCompatible(a.entries[k]); }
    }
  }

  /** When nothing is reported among any number of mods and no two have a hollow map against something else, all orders of
      merging them give the same document, or all fail. */
  lemma UnreportedMergeInEveryOrder(c: Context, row: ArrayChange -> string, vanilla: Byml, mods: seq<Byml>, leaves: seq<Leaves>, order: seq<Byml>)
    requires NoneReported(c, row, vanilla, mods, leaves)
    requires forall i, j :: 0 <= i < |mods| && 0 <= j < |mods| && i != j ==> NoHole(Changes(c, mods[i], vanilla), Changes(c, mods[j], vanilla))
    requires multiset(order) == multiset(AllChanges(c, mods, vanilla))
    ensures MergeAll(c, 0, Fresh(vanilla), order) == MergeAll(c, 0, Fresh(vanilla), AllChanges(c, mods, vanilla))
  {
    hide Diff, PlainKeys, CollectedFrom, Reports, AllValues, MapsOnly, MapLog, RemovesKnown, PathValues, Compatible, NoHole, RootNamed;
    var logs := AllChanges(c, mods, vanilla);
    forall a | a in logs
      ensures a.Map? && MapLog(a) && RemovesKnown(Fresh(vanilla), a)
    {
      var i :| 0 <= i < |logs| && logs[i] == a;
      ModIsLog(c, row, vanilla, mods[i], leaves[i]);
    }
    forall a, b | a in logs && b in logs
      ensures Compatible(a, b)
    {
      var i :| 0 <= i < |logs| && logs[i] == a;
      var j :| 0 <= j < |logs| && logs[j] == b;
      if i == j {
        SameIsCompatible(a);
      } else {
        TwoLogs(c, row, vanilla, mods, leaves, i, j);
      }
    }
    EveryOrder(c, 0, Fresh(vanilla), logs, order);
  }
}
