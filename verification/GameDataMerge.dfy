/** Merging changelogs into a table of the GameDataList: rows are changed where they are and what is left
    for later is tracked by index; only when all of it is applied are rows dropped and the table sorted. */
module GameDataMerge {
  import opened Documents
  import opened Changelogs
  import opened Pending
  import opened Views
  import opened TrackingSteps
  import opened Settlement
  import opened PathTracking
  import opened GameData

  /** What the changelog's entries taken so far have done, and the others have not. */
  ghost predicate SteppedSoFar(c: Context, wide: bool, start: Table, now: Table, entries: map<nat, Byml>, taken: set<nat>) {
    forall h :: if h in taken then Step(c, FateOf(wide, start, h), Get(entries, h)) == Some(FateOf(wide, now, h))
                else FateOf(wide, now, h) == FateOf(wide, start, h)
  }

  lemma SteppedOne(c: Context, wide: bool, start: Table, before: Table, after: Table, entries: map<nat, Byml>, taken: set<nat>, hash: nat, fate: Fate)
    requires SteppedSoFar(c, wide, start, before, entries, taken) && hash !in taken && OnlyFate(wide, before, after, hash, fate)
    requires Step(c, FateOf(wide, before, hash), Get(entries, hash)) == Some(fate)
    ensures SteppedSoFar(c, wide, start, after, entries, taken + {hash})
  {
    hide FateOf, Step;
    assert FateOf(wide, before, hash) == FateOf(wide, start, hash);
  }

  lemma SteppedNone(c: Context, wide: bool, start: Table, before: Table, entries: map<nat, Byml>, taken: set<nat>, hash: nat)
    requires SteppedSoFar(c, wide, start, before, entries, taken) && hash !in taken && hash !in entries
    ensures SteppedSoFar(c, wide, start, before, entries, taken + {hash})
  {
    hide FateOf;
  }

  /** Rows as they come, with nothing pending. */
  function Untouched(rows: seq<Byml>): seq<Tree> { seq(|rows|, i requires 0 <= i < |rows| => Fresh(rows[i])) }

  ghost predicate ToldApart(wide: bool, rows: seq<Byml>) {
    && (forall i :: 0 <= i < |rows| ==> RowHash(wide, rows[i]).Some?)
    && forall i, j :: 0 <= i < j < |rows| ==> RowHash(wide, rows[i]) != RowHash(wide, rows[j])
  }

  ghost function Hashes(wide: bool, rows: seq<Byml>): set<nat>
    requires ToldApart(wide, rows)
  {
    set i | 0 <= i < |rows| :: RowHash(wide, rows[i]).value
  }

  lemma UntouchedConsistent(wide: bool, rows: seq<Byml>)
    requires ToldApart(wide, rows)
    ensures Consistent(wide, Hashes(wide, rows), Table(Untouched(rows), [], {}))
  {
    hide FindRow, Fresh, RowHash, TreeHash;
    var trees := Untouched(rows);
    forall i | 0 <= i < |rows|
      ensures TreeHash(wide, trees[i]) == RowHash(wide, rows[i])
    {
      FreshHash(wide, rows[i]);
    }
  }

  lemma NothingPending(rows: seq<Byml>, view: View)
    requires Annotate(Array(rows), view) == Fresh(Array(rows))
    ensures AnnotateAll(rows, view) == Untouched(rows)
  {
    assert Annotate(Array(rows), view).items == AnnotateAll(rows, view);
    assert Fresh(Array(rows)).items == Untouched(rows);
  }

  lemma LessOneMore(entries: map<nat, Byml>, taken: set<nat>, hash: nat)
    ensures (entries - taken) - {hash} == entries - (taken + {hash})
  {
  }

  lemma SameHashesSelf(wide: bool, rows: seq<Tree>)
    ensures SameHashes(wide, rows, rows)
  {
  }

  class TableMerge {
    const wide: bool
    const cx: Contexts
    const tracking: Tracking
    var rows: seq<Byml>
    var added: seq<Addition>
    var dropped: set<nat>
    /** The hashes of the rows the table had at first. */
    ghost const vanilla: set<nat>

    ghost function Value(): Table
      reads this, tracking
    {
      Table(AnnotateAll(rows, tracking.ViewAt([])), added, dropped)
    }

    ghost predicate Valid()
      reads this, tracking
    {
      && tracking.context == cx.main && tracking.depth == 0
      && InPlace(Array(rows), tracking.ViewAt([])) && [] !in tracking.arrays
      && Consistent(wide, vanilla, Value())
    }

    constructor (wide: bool, cx: Contexts, rows: seq<Byml>)
      requires ToldApart(wide, rows)
      ensures this.wide == wide && this.cx == cx && fresh(tracking) && Valid()
      ensures vanilla == Hashes(wide, rows)
      ensures Value() == Table(Untouched(rows), [], {})
    {
      hide Consistent, RowHash, InPlace;
      this.wide, this.cx, this.rows := wide, cx, rows;
      tracking := new Tracking(cx.main);
      added, dropped := [], {};
      vanilla := Hashes(wide, rows);
      new;
      NothingTracked(Array(rows), tracking.maps, tracking.arrays);
      NothingPending(rows, tracking.ViewAt([]));
      UntouchedConsistent(wide, rows);
    }

    /** The rows as they stand have the hashes of what is pending in them. */
    lemma HashesStand(i: nat)
      requires Valid() && i < |rows|
      ensures RowHash(wide, rows[i]) == TreeHash(wide, Value().rows[i]) && RowHash(wide, rows[i]).Some?
    {
      StripAnnotate(rows[i], Sub(tracking.ViewAt([]), AtIndex(i)));
      StripHash(wide, Value().rows[i]);
    }

    /** One changelog's entries for the table. */
    method MergeEntries(entries: map<nat, Byml>) returns (ok: bool)
      requires Valid() && Proper(wide, vanilla, entries)
      modifies this, tracking
      ensures ok ==> Valid() && forall h :: Step(cx.main, old(FateOf(wide, Value(), h)), Get(entries, h)) == Some(FateOf(wide, Value(), h))
      ensures !ok ==> exists h :: Step(cx.main, old(FateOf(wide, Value(), h)), Get(entries, h)) == None
    {
      hide FateOf, Step, Consistent;
      ghost var start := Value();
      var rest, merged := MergeRows(entries);
      if !merged { return false; }
      ghost var taken := HashesUpTo(wide, Value().rows, |rows|);
      AllTaken(wide, vanilla, Value(), taken);
      AddRows(entries, rest, taken, start);
      ok := true;
    }

    /** The rows there are, each with its entry if there is one; what is left are entries for other rows. */
    method MergeRows(entries: map<nat, Byml>) returns (rest: map<nat, Byml>, ok: bool)
      requires Valid() && Proper(wide, vanilla, entries)
      modifies this, tracking
      ensures ok ==> Valid() && rest == entries - HashesUpTo(wide, Value().rows, |rows|)
      ensures ok ==> SteppedSoFar(cx.main, wide, old(Value()), Value(), entries, HashesUpTo(wide, Value().rows, |rows|))
      ensures !ok ==> exists h :: Step(cx.main, old(FateOf(wide, Value(), h)), Get(entries, h)) == None
    {
      hide FateOf, Step, Consistent, SteppedSoFar;
      rest := entries;
      NothingTaken(cx.main, wide, Value(), entries);
      var i, n := 0, |rows|;
      while i < n
        invariant 0 <= i <= n == |rows| && Valid() && rest == entries - HashesUpTo(wide, Value().rows, i)
        invariant SteppedSoFar(cx.main, wide, old(Value()), Value(), entries, HashesUpTo(wide, Value().rows, i))
      {
        rest, ok := TakeEntry(i, rest, entries, old(Value()));
        if !ok { return; }
        i := i + 1;
      }
      ok := true;
    }

    method TakeEntry(i: nat, rest: map<nat, Byml>, ghost entries: map<nat, Byml>, ghost start: Table) returns (left: map<nat, Byml>, ok: bool)
      requires Valid() && Proper(wide, vanilla, entries) && i < |rows| && rest == entries - HashesUpTo(wide, Value().rows, i)
      requires SteppedSoFar(cx.main, wide, start, Value(), entries, HashesUpTo(wide, Value().rows, i))
      modifies this, tracking
      ensures ok ==> Valid() && |rows| == |old(rows)| && left == entries - HashesUpTo(wide, Value().rows, i + 1)
      ensures ok ==> SteppedSoFar(cx.main, wide, start, Value(), entries, HashesUpTo(wide, Value().rows, i + 1))
      ensures !ok ==> exists h :: Step(cx.main, FateOf(wide, start, h), Get(entries, h)) == None
    {
      hide FateOf, Step, Consistent, SteppedSoFar, KeepsHash, WholeRow;
      HashesStand(i);
      var hash := RowHash(wide, rows[i]).value;
      ghost var before, taken := Value(), HashesUpTo(wide, Value().rows, i);
      NotBefore(wide, vanilla, before, i, hash);
      SoFarSame(cx.main, wide, start, before, entries, taken, hash);
      LessOneMore(entries, taken, hash);
      left := rest - {hash};
      ok := true;
      if hash in rest {
        ok := MergeRow(i, hash, rest[hash]);
        if !ok { return; }
        SameHashesUpTo(wide, before.rows, Value().rows, i);
        SteppedOne(cx.main, wide, start, before, Value(), entries, taken, hash, FateOf(wide, Value(), hash));
      } else {
        SteppedNone(cx.main, wide, start, before, entries, taken, hash);
      }
      OneMoreHash(wide, Value().rows, i, hash);
    }

    /** A row of the table that the changelog has an entry for. */
    method MergeRow(i: nat, hash: nat, change: Byml) returns (ok: bool)
      requires Valid() && i < |rows| && TreeHash(wide, Value().rows[i]) == Some(hash)
      requires !change.IsRemove() ==> if hash in vanilla then KeepsHash(wide, hash, change) else WholeRow(wide, hash, change)
      modifies this, tracking
      ensures ok ==> Valid() && SameHashes(wide, old(Value().rows), Value().rows) && |rows| == |old(rows)|
      ensures ok ==> Step(cx.main, old(FateOf(wide, Value(), hash)), Some(change)) == Some(FateOf(wide, Value(), hash))
      ensures ok ==> OnlyFate(wide, old(Value()), Value(), hash, FateOf(wide, Value(), hash))
      ensures !ok ==> Step(cx.main, old(FateOf(wide, Value(), hash)), Some(change)) == None
    {
      hide Consistent, FindRow, FindAdded, SameHashes, KeepsHash, WholeRow, FateOf, Step, OnlyFate, TreeHash, Merge, Fate.Marked;
      ghost var start := Value();
      SameHashesSelf(wide, start.rows);
      if change.IsRemove() {
        StepRemoves(cx.main, FateOf(wide, start, hash), change);
        DropRow(i, hash);
        TheFate(wide, start, Value(), hash, FateOf(wide, start, hash).Marked(true));
        return true;
      }
      var known := FindAdded(added, hash);
      if known.Some? {
        NoteVersion(i, known.value, hash, change);
        StepNotes(cx.main, FateOf(wide, start, hash), change);
        TheFate(wide, start, Value(), hash, Added(FateOf(wide, start, hash).row, FateOf(wide, start, hash).changes + [change], false));
        return true;
      }
      VanillaUnlessAdded(wide, vanilla, start, i, hash);
      StepMerges(cx.main, FateOf(wide, start, hash), change);
      ok := MergeInto(i, hash, change, start);
      if ok { TheFate(wide, start, Value(), hash, Vanilla(Merge(cx.main, 0, start.rows[i], change).value, false)); }
    }

    method DropRow(ghost i: nat, hash: nat)
      requires Valid() && i < |rows| && TreeHash(wide, Value().rows[i]) == Some(hash)
      modifies this`dropped
      ensures Valid() && Value().rows == old(Value().rows)
      ensures OnlyFate(wide, old(Value()), Value(), hash, old(FateOf(wide, Value(), hash)).Marked(true))
    {
      hide Consistent, FateOf, OnlyFate, Fate.Marked;
      ghost var start := Value();
      RowDropped(wide, vanilla, start, i, hash, true);
      dropped := dropped + {hash};
      assert Value() == start.(dropped := start.dropped + {hash});
    }

    /** A row added before: later changelogs' versions of it are kept for the end. */
    method NoteVersion(ghost i: nat, j: nat, hash: nat, change: Byml)
      requires Valid() && i < |rows| && TreeHash(wide, Value().rows[i]) == Some(hash) && FindAdded(added, hash) == Some(j)
      requires if hash in vanilla then KeepsHash(wide, hash, change) else WholeRow(wide, hash, change)
      modifies this`added, this`dropped
      ensures Valid() && old(FateOf(wide, Value(), hash)).Added? && Value().rows == old(Value().rows)
      ensures OnlyFate(wide, old(Value()), Value(), hash, Added(old(FateOf(wide, Value(), hash)).row, old(FateOf(wide, Value(), hash)).changes + [change], false))
    {
      hide Consistent, FindRow, FindAdded, KeepsHash, WholeRow;
      ghost var start := Value();
      FateOfRow(wide, vanilla, start, i, hash);
      RowDropped(wide, vanilla, start, i, hash, false);
      dropped := dropped - {hash};
      FateOfRow(wide, vanilla, Value(), i, hash);
      AddedNotVanilla(wide, vanilla, Value(), j);
      VersionNoted(wide, vanilla, Value(), j, change);
      added := added[j := Addition(hash, added[j].changes + [change])];
    }

    /** A row vanilla has: the change goes into it, what is left for later is tracked under its index. */
    method MergeInto(i: nat, hash: nat, change: Byml, ghost start: Table) returns (ok: bool)
      requires Valid() && i < |rows| && TreeHash(wide, Value().rows[i]) == Some(hash) && KeepsHash(wide, hash, change)
      requires FindAdded(added, hash).None? && start == Value()
      modifies this`rows, this`dropped, tracking
      ensures ok ==> Valid() && SameHashes(wide, start.rows, Value().rows) && |rows| == |old(rows)|
      ensures ok ==> Merge(cx.main, 0, start.rows[i], change).Some?
                     && OnlyFate(wide, start, Value(), hash, Vanilla(Merge(cx.main, 0, start.rows[i], change).value, false))
      ensures !ok ==> Merge(cx.main, 0, start.rows[i], change).None?
    {
      hide Consistent, FateOf, TreeHash, KeepsHash, Merge, OnlyFate, FindAdded, InPlace, Fresh;
      ok := MergeTree(i, change, start);
      if !ok { return; }
      ghost var tree := Merge(cx.main, 0, start.rows[i], change).value;
      dropped := dropped - {hash};
      MergeKeepsHash(cx.main, wide, hash, 0, start.rows[i], change);
      RowMerged(wide, vanilla, start, i, tree, hash);
    }

    /** The row at `i` with a change merged into it, tracked under its index. */
    method MergeTree(i: nat, change: Byml, ghost start: Table) returns (ok: bool)
      requires Valid() && i < |rows| && start == Value()
      modifies this`rows, tracking
      ensures ok <==> Merge(cx.main, 0, start.rows[i], change).Some?
      ensures ok ==> tracking.context == cx.main && tracking.depth == 0
                     && InPlace(Array(rows), tracking.ViewAt([])) && [] !in tracking.arrays
      ensures ok ==> Value() == Table(start.rows[i := Merge(cx.main, 0, start.rows[i], change).value], start.added, start.dropped)
    {
      hide Consistent, FateOf, TreeHash, KeepsHash, Merge, Fresh;
      ghost var view := tracking.ViewAt([]);
      AtChild(tracking.maps, tracking.arrays, [], AtIndex(i));
      ChildInPlace(Array(rows), view, AtIndex(i));
      ghost var maps, arrays := tracking.maps, tracking.arrays;
      var merged := tracking.Merge(rows[i], change, [] + [AtIndex(i)]);
      if merged.None? { return false; }
      ElsewhereView(maps, arrays, tracking.maps, tracking.arrays, [], AtIndex(i));
      AtChild(tracking.maps, tracking.arrays, [], AtIndex(i));
      assert Get(tracking.arrays, []) == Get(arrays, []);
      UpdatedArray(rows, view, i, merged.value, tracking.ViewAt([]));
      rows := rows[i := merged.value];
      ok := true;
    }

    /** Rows the table does not have are added at its end; removals of such rows mean nothing. */
    method AddRows(ghost entries: map<nat, Byml>, rest: map<nat, Byml>, ghost taken: set<nat>, ghost start: Table)
      requires Valid() && Proper(wide, vanilla, entries) && rest == entries - taken
      requires SteppedSoFar(cx.main, wide, start, Value(), entries, taken)
      requires forall h :: h in taken || FateOf(wide, Value(), h).Absent?
      modifies this`rows, this`added
      ensures Valid() && forall h :: Step(cx.main, FateOf(wide, start, h), Get(entries, h)) == Some(FateOf(wide, Value(), h))
    {
      hide FateOf, Consistent, WholeRow, KeepsHash, RowHash, TreeHash, Fresh, SteppedSoFar, Proper, InPlace;
      var todo := rest.Keys;
      ghost var done := taken;
      while todo != {}
        invariant Valid() && todo <= rest.Keys && SteppedSoFar(cx.main, wide, start, Value(), entries, done)
        invariant forall h :: h in todo ==> FateOf(wide, Value(), h).Absent? && h !in done
        invariant forall h :: h in entries ==> h in done || h in todo
        invariant forall h :: h in done || FateOf(wide, Value(), h).Absent?
        decreases |todo|
      {
        var hash :| hash in todo;
        AddRow(entries, hash, rest[hash], start, done);
        done := done + {hash};
        todo := todo - {hash};
      }
      AllStepped(cx.main, wide, start, Value(), entries, done);
    }

    method AddRow(ghost entries: map<nat, Byml>, hash: nat, row: Byml, ghost start: Table, ghost done: set<nat>)
      requires Valid() && Proper(wide, vanilla, entries) && Get(entries, hash) == Some(row) && hash !in done
      requires SteppedSoFar(cx.main, wide, start, Value(), entries, done) && FateOf(wide, Value(), hash).Absent?
      modifies this`rows, this`added
      ensures Valid() && SteppedSoFar(cx.main, wide, start, Value(), entries, done + {hash})
      ensures forall h :: h != hash ==> FateOf(wide, Value(), h) == FateOf(wide, old(Value()), h)
    {
      hide FateOf, Consistent, WholeRow, KeepsHash, RowHash, TreeHash, Fresh, SteppedSoFar, InPlace;
      ghost var before := Value();
      AbsentNotVanilla(wide, vanilla, before, hash);
      if !row.IsRemove() {
        ExtendedArray(rows, [row], tracking.ViewAt([]));
        RowAppended(wide, vanilla, before, row, hash);
        rows := rows + [row];
        added := added + [Addition(hash, [])];
        assert Value() == Table(before.rows + [Fresh(row)], before.added + [Addition(hash, [])], before.dropped);
      }
      SteppedOne(cx.main, wide, start, before, Value(), entries, done, hash, FateOf(wide, Value(), hash));
    }
  }

  lemma AllStepped(c: Context, wide: bool, start: Table, now: Table, entries: map<nat, Byml>, done: set<nat>)
    requires SteppedSoFar(c, wide, start, now, entries, done) && entries.Keys <= done
    ensures forall h :: Step(c, FateOf(wide, start, h), Get(entries, h)) == Some(FateOf(wide, now, h))
  {
    hide FateOf;
  }

  lemma NothingTaken(c: Context, wide: bool, t: Table, entries: map<nat, Byml>)
    ensures SteppedSoFar(c, wide, t, t, entries, {}) && entries - {} == entries
  {
  }

  lemma SoFarSame(c: Context, wide: bool, start: Table, now: Table, entries: map<nat, Byml>, taken: set<nat>, hash: nat)
    requires SteppedSoFar(c, wide, start, now, entries, taken) && hash !in taken
    ensures FateOf(wide, now, hash) == FateOf(wide, start, hash)
  {
  }

  lemma FateOfRow(wide: bool, vanilla: set<nat>, t: Table, i: nat, hash: nat)
    requires Consistent(wide, vanilla, t) && i < |t.rows| && TreeHash(wide, t.rows[i]) == Some(hash)
    ensures FindRow(wide, t.rows, hash) == Some(i)
  {
    RowAt(wide, t.rows, i);
  }

  lemma AddedNotVanilla(wide: bool, vanilla: set<nat>, t: Table, j: nat)
    requires Consistent(wide, vanilla, t) && j < |t.added|
    ensures t.added[j].hash !in vanilla
  {
    assert AdditionThere(wide, vanilla, t, j);
  }

  lemma VanillaUnlessAdded(wide: bool, vanilla: set<nat>, t: Table, i: nat, hash: nat)
    requires Consistent(wide, vanilla, t) && i < |t.rows| && TreeHash(wide, t.rows[i]) == Some(hash) && FindAdded(t.added, hash).None?
    ensures hash in vanilla && FateOf(wide, t, hash) == Vanilla(t.rows[i], hash in t.dropped)
  {
    RowAt(wide, t.rows, i);
  }

  lemma TheFate(wide: bool, before: Table, after: Table, hash: nat, fate: Fate)
    requires OnlyFate(wide, before, after, hash, fate)
    ensures FateOf(wide, after, hash) == fate && OnlyFate(wide, before, after, hash, FateOf(wide, after, hash))
  {
    hide FateOf;
  }

  lemma StepRemoves(c: Context, fate: Fate, change: Byml)
    requires change.IsRemove()
    ensures Step(c, fate, Some(change)) == Some(fate.Marked(true))
  {
  }

  lemma StepNotes(c: Context, fate: Fate, change: Byml)
    requires !change.IsRemove() && fate.Added?
    ensures Step(c, fate, Some(change)) == Some(Added(fate.row, fate.changes + [change], false))
  {
  }

  lemma StepMerges(c: Context, fate: Fate, change: Byml)
    requires !change.IsRemove() && fate.Vanilla?
    ensures Step(c, fate, Some(change)) == match Merge(c, 0, fate.tree, change) case None => None case Some(merged) => Some(Vanilla(merged, false))
  {
    hide Merge;
  }

  lemma AbsentNotVanilla(wide: bool, vanilla: set<nat>, t: Table, hash: nat)
    requires Consistent(wide, vanilla, t) && FateOf(wide, t, hash).Absent?
    ensures hash !in vanilla
  {
  }

  // ---------- the hashes of the first rows ----------

  ghost predicate SameHashes(wide: bool, a: seq<Tree>, b: seq<Tree>) {
    |a| == |b| && forall i :: 0 <= i < |a| ==> TreeHash(wide, a[i]) == TreeHash(wide, b[i])
  }

  ghost function HashesUpTo(wide: bool, rows: seq<Tree>, n: nat): set<nat>
    requires n <= |rows|
  {
    if n == 0 then {}
    else HashesUpTo(wide, rows, n - 1) + match TreeHash(wide, rows[n - 1]) case None => {} case Some(h) => {h}
  }

  lemma {:induction false} AmongHashes(wide: bool, rows: seq<Tree>, n: nat, h: nat)
    requires n <= |rows|
    ensures h in HashesUpTo(wide, rows, n) <==> exists i :: 0 <= i < n && TreeHash(wide, rows[i]) == Some(h)
  {
    if n > 0 { AmongHashes(wide, rows, n - 1, h); }
  }

  lemma {:induction false} SameHashesUpTo(wide: bool, a: seq<Tree>, b: seq<Tree>, n: nat)
    requires SameHashes(wide, a, b) && n <= |a|
    ensures HashesUpTo(wide, a, n) == HashesUpTo(wide, b, n)
  {
    if n > 0 { SameHashesUpTo(wide, a, b, n - 1); }
  }

  lemma NotBefore(wide: bool, vanilla: set<nat>, t: Table, i: nat, hash: nat)
    requires Consistent(wide, vanilla, t) && i < |t.rows| && TreeHash(wide, t.rows[i]) == Some(hash)
    ensures hash !in HashesUpTo(wide, t.rows, i)
  {
    AmongHashes(wide, t.rows, i, hash);
    assert forall k :: 0 <= k < i ==> TreeHash(wide, t.rows[k]) != TreeHash(wide, t.rows[i]);
  }

  lemma OneMoreHash(wide: bool, rows: seq<Tree>, i: nat, hash: nat)
    requires i < |rows| && TreeHash(wide, rows[i]) == Some(hash)
    ensures HashesUpTo(wide, rows, i + 1) == HashesUpTo(wide, rows, i) + {hash}
  {
  }

  lemma AllTaken(wide: bool, vanilla: set<nat>, t: Table, taken: set<nat>)
    requires Consistent(wide, vanilla, t) && taken == HashesUpTo(wide, t.rows, |t.rows|)
    ensures forall h :: h in taken || FateOf(wide, t, h).Absent?
  {
    forall h
      ensures h in taken || FateOf(wide, t, h).Absent?
    {
      AmongHashes(wide, t.rows, |t.rows|, h);
    }
  }
}
