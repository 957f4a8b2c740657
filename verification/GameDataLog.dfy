/** The changelog of a table of the GameDataList, and the table it gives back. */
module GameDataLog {
  import opened Documents
  import opened Changelogs
  import opened Pending
  import opened GameData
  import opened GameDataMerge
  import opened GameDataResult
  import ChangelogBuilder
  import RoundTrip
  import RoundTripLaws
  import SortedVectors

  /** The hashes of the rows that have one. */
  function HashesOf(wide: bool, rows: seq<Byml>): set<nat> {
    set i | 0 <= i < |rows| && RowHash(wide, rows[i]).Some? :: RowHash(wide, rows[i]).value
  }

  /** Rows of the mod that count as kept: those vanilla has too, and those without a hash. */
  function KeptCount(wide: bool, vanilla: map<nat, Byml>, src: seq<Byml>): nat {
    if src == [] then 0
    else
      var hash := RowHash(wide, src[|src| - 1]);
      KeptCount(wide, vanilla, src[..|src| - 1]) + if hash.None? || hash.value in vanilla then 1 else 0
  }

  /** What a row contributes: itself if vanilla has none with its hash, else what it changes, if anything. */
  function LoggedRow(c: Context, wide: bool, vanilla: map<nat, Byml>, row: Byml): map<nat, Byml> {
    match RowHash(wide, row)
    case None => map[]
    case Some(hash) =>
      if hash !in vanilla then map[hash := row]
      else
        var (log, same) := Diff(c.rules, c.type_, 0, row, vanilla[hash]);
        if same then map[] else map[hash := log]
  }

  function LoggedRows(c: Context, wide: bool, vanilla: map<nat, Byml>, src: seq<Byml>): map<nat, Byml> {
    if src == [] then map[] else LoggedRows(c, wide, vanilla, src[..|src| - 1]) + LoggedRow(c, wide, vanilla, src[|src| - 1])
  }

  /** Removals are looked for only when the number of kept rows is not vanilla's. */
  function Removals(wide: bool, vanilla: map<nat, Byml>, count: nat, src: seq<Byml>): set<nat> {
    if KeptCount(wide, vanilla, src) == count then {} else vanilla.Keys - HashesOf(wide, src)
  }

  ghost function TableLog(c: Context, wide: bool, vanilla: seq<Byml>, src: seq<Byml>): map<nat, Byml> {
    LoggedRows(c, wide, ByHash(wide, vanilla), src)
    + map h | h in Removals(wide, ByHash(wide, vanilla), |vanilla|, src) :: Marker(Remove)
  }

  // ---------- the loops ----------

  method IndexRows(wide: bool, rows: seq<Byml>) returns (index: map<nat, Byml>)
    requires ToldApart(wide, rows)
    ensures index == ByHash(wide, rows)
  {
    hide SortedVectors.MapOf, RowHash;
    index := map[];
    ghost var pairs := Pairs(wide, rows);
    var i := 0;
    assert pairs[..0] == [];
    EmptyMap();
    while i < |rows|
      invariant 0 <= i <= |rows| && index == SortedVectors.MapOf(pairs[..i])
    {
      SortedVectors.MapOfNext(pairs, i);
      index := index[RowHash(wide, rows[i]).value := rows[i]];
      i := i + 1;
    }
    assert pairs[..i] == pairs;
  }

  lemma EmptyMap()
    ensures SortedVectors.MapOf<nat, Byml>([]) == map[]
  {
  }

  method LogTable(c: Context, wide: bool, vanilla: seq<Byml>, src: seq<Byml>) returns (log: map<nat, Byml>)
    requires ToldApart(wide, vanilla)
    ensures log == TableLog(c, wide, vanilla, src)
  {
    hide ByHash, RowHash, ToldApart, LoggedRow;
    var index := IndexRows(wide, vanilla);
    var info := new ChangelogBuilder.TrackingInfo(c.rules, c.type_, 0);
    log := map[];
    var seen: set<nat>, kept, i := {}, 0, 0;
    while i < |src|
      invariant 0 <= i <= |src| && info.depth == 0 && info.rules == c.rules && info.type_ == c.type_ && fresh(info)
      invariant log == LoggedRows(c, wide, index, src[..i]) && kept == KeptCount(wide, index, src[..i]) && seen == HashesOf(wide, src[..i])
    {
      assert src[..i + 1][..i] == src[..i];
      var logged := LogOne(c, wide, index, src[i], info);
      log := log + logged;
      var hash := RowHash(wide, src[i]);
      OneMore(wide, src, i);
      if hash.None? || hash.value in index { kept := kept + 1; }
      if hash.Some? { seen := seen + {hash.value}; }
      i := i + 1;
    }
    assert src[..i] == src;
    var removed := if kept == |vanilla| then {} else index.Keys - seen;
    log := log + map h | h in removed :: Marker(Remove);
  }

  lemma OneMore(wide: bool, src: seq<Byml>, i: nat)
    requires i < |src|
    ensures HashesOf(wide, src[..i + 1]) == HashesOf(wide, src[..i]) + if RowHash(wide, src[i]).Some? then {RowHash(wide, src[i]).value} else {}
  {
    hide RowHash;
    var more, before := src[..i + 1], src[..i];
    forall h
      ensures h in HashesOf(wide, more) <==> h in HashesOf(wide, before) || RowHash(wide, src[i]) == Some(h)
    {
      if h in HashesOf(wide, more) {
        var k :| 0 <= k < |more| && RowHash(wide, more[k]) == Some(h);
        if k < i { assert before[k] == more[k]; }
      }
      if h in HashesOf(wide, before) {
        var k :| 0 <= k < |before| && RowHash(wide, before[k]) == Some(h);
        assert more[k] == before[k];
      }
      if RowHash(wide, src[i]) == Some(h) { assert more[i] == src[i]; }
    }
  }

  method LogOne(c: Context, wide: bool, index: map<nat, Byml>, row: Byml, info: ChangelogBuilder.TrackingInfo) returns (logged: map<nat, Byml>)
    requires info.depth == 0 && info.rules == c.rules && info.type_ == c.type_
    modifies info
    ensures logged == LoggedRow(c, wide, index, row) && info.depth == 0
  {
    match RowHash(wide, row) {
      case None => return map[];
      case Some(hash) =>
        if hash !in index { return map[hash := row]; }
        var log, same := info.LogChanges(row, index[hash]);
        return if same then map[] else map[hash := log];
    }
  }

  // ---------- removals ----------

  /** Rows of the mod that count as kept without standing for a row of vanilla: those without a hash, and those with a hash
      of vanilla's that an earlier row has. */
  function Spare(wide: bool, vanilla: map<nat, Byml>, src: seq<Byml>): nat {
    if src == [] then 0
    else
      var before, hash := src[..|src| - 1], RowHash(wide, src[|src| - 1]);
      Spare(wide, vanilla, before) + if hash.None? || (hash.value in vanilla && hash.value in HashesOf(wide, before)) then 1 else 0
  }

  lemma {:induction false} KeptIs(wide: bool, vanilla: map<nat, Byml>, src: seq<Byml>)
    ensures KeptCount(wide, vanilla, src) == |vanilla.Keys * HashesOf(wide, src)| + Spare(wide, vanilla, src)
  {
    hide RowHash, HashesOf;
    if src != [] {
      var n := |src| - 1;
      KeptIs(wide, vanilla, src[..n]);
      assert src[..n + 1] == src;
      OneMore(wide, src, n);
      if RowHash(wide, src[n]).Some? {
        OneMoreCommon(vanilla.Keys, HashesOf(wide, src[..n]), RowHash(wide, src[n]).value);
      }
    } else {
      NoHashes(wide);
    }
  }

  lemma {:induction false} NoneSpare(wide: bool, vanilla: map<nat, Byml>, src: seq<Byml>)
    requires ToldApart(wide, src)
    ensures Spare(wide, vanilla, src) == 0
  {
    hide RowHash, HashesOf;
    if src != [] {
      NoneSpare(wide, vanilla, src[..|src| - 1]);
      NotAmongEarlier(wide, src, |src| - 1);
    }
  }

  lemma NoHashes(wide: bool)
    ensures HashesOf(wide, []) == {}
  {
  }

  lemma OneMoreCommon(a: set<nat>, b: set<nat>, x: nat)
    ensures |a * (b + {x})| == |a * b| + if x in a && x !in b then 1 else 0
  {
    if x in b {
      assert b + {x} == b;
    } else if x in a {
      assert a * (b + {x}) == a * b + {x};
    } else {
      assert a * (b + {x}) == a * b;
    }
  }

  lemma NotAmongEarlier(wide: bool, src: seq<Byml>, n: nat)
    requires ToldApart(wide, src) && n < |src|
    ensures RowHash(wide, src[n]).value !in HashesOf(wide, src[..n])
  {
    hide RowHash;
    forall k | 0 <= k < n ensures RowHash(wide, src[..n][k]) != RowHash(wide, src[n]) { assert src[..n][k] == src[k]; }
  }

  lemma {:induction false} CountOfHashes(wide: bool, rows: seq<Byml>)
    requires ToldApart(wide, rows)
    ensures |HashesOf(wide, rows)| == |rows|
  {
    hide RowHash;
    if rows != [] {
      var n := |rows| - 1;
      CountOfHashes(wide, rows[..n]);
      assert rows[..n + 1] == rows;
      OneMore(wide, rows, n);
      NotAmongEarlier(wide, rows, n);
    }
  }

  lemma KeysOfTable(wide: bool, rows: seq<Byml>)
    requires ToldApart(wide, rows)
    ensures ByHash(wide, rows).Keys == HashesOf(wide, rows) == Hashes(wide, rows)
  {
    hide RowHash, SortedVectors.MapOf;
    forall h
      ensures h in ByHash(wide, rows) <==> h in HashesOf(wide, rows)
    {
      if h in HashesOf(wide, rows) {
        var i :| 0 <= i < |rows| && RowHash(wide, rows[i]) == Some(h);
        InByHash(wide, rows, i);
      } else {
        NotInByHash(wide, rows, h);
      }
    }
  }

  lemma SizeSplits(a: set<nat>, b: set<nat>)
    ensures |a| == |a * b| + |a - b|
  {
    assert a == a * b + (a - b);
  }

  /** The rows of vanilla the mod does not have. */
  ghost function Missing(wide: bool, vanilla: seq<Byml>, src: seq<Byml>): set<nat> {
    ByHash(wide, vanilla).Keys - HashesOf(wide, src)
  }

  /** The missing rows are marked removed exactly when there are none or not as many as there are spare rows. */
  lemma RemovedIffNotMadeUp(wide: bool, vanilla: seq<Byml>, src: seq<Byml>)
    requires ToldApart(wide, vanilla)
    ensures var v, missing := ByHash(wide, vanilla), Missing(wide, vanilla, src);
            Removals(wide, v, |vanilla|, src) == missing <==> missing == {} || |missing| != Spare(wide, v, src)
  {
    hide RowHash, ByHash, HashesOf;
    var v := ByHash(wide, vanilla);
    KeptIs(wide, v, src);
    KeysOfTable(wide, vanilla);
    CountOfHashes(wide, vanilla);
    SizeSplits(v.Keys, HashesOf(wide, src));
  }

  /** With unique hashes, exactly the rows of vanilla that the mod does not have are marked removed. */
  lemma RemovalsAreTheMissing(wide: bool, vanilla: seq<Byml>, src: seq<Byml>)
    requires ToldApart(wide, vanilla) && ToldApart(wide, src)
    ensures Removals(wide, ByHash(wide, vanilla), |vanilla|, src) == Hashes(wide, vanilla) - Hashes(wide, src)
  {
    hide RowHash, ByHash, HashesOf;
    KeysOfTable(wide, vanilla);
    KeysOfTable(wide, src);
    NoneSpare(wide, ByHash(wide, vanilla), src);
    RemovedIffNotMadeUp(wide, vanilla, src);
  }

  // ---------- the table comes back ----------

  /** A table whose rows the changelog can rebuild: rows both have are documents that come back, and keep their hash. */
  ghost predicate Comparable(c: Context, wide: bool, vanilla: seq<Byml>, src: seq<Byml>) {
    && ToldApart(wide, vanilla) && ToldApart(wide, src)
    && forall i, j :: 0 <= i < |src| && 0 <= j < |vanilla| && RowHash(wide, src[i]) == RowHash(wide, vanilla[j]) ==>
         ComparableRows(c, src[i], vanilla[j])
  }

  ghost predicate ComparableRows(c: Context, row: Byml, vanilla: Byml) {
    && Clean(row) && Clean(vanilla)
    && RoundTrip.Rebuildable(c, 0, row, vanilla)
  }

  /** What the changelog says of a hash: nothing, the mod's row, what it changes in vanilla's, or that it is gone. */
  function EntryFor(c: Context, vanilla: map<nat, Byml>, src: map<nat, Byml>, h: nat): Option<Byml> {
    if h !in src then if h in vanilla then Some(Marker(Remove)) else None
    else if h !in vanilla then Some(src[h])
    else
      var (log, same) := Diff(c.rules, c.type_, 0, src[h], vanilla[h]);
      if same then None else Some(log)
  }

  lemma {:induction false} LoggedFor(c: Context, wide: bool, vanilla: map<nat, Byml>, src: seq<Byml>, h: nat)
    requires ToldApart(wide, src)
    ensures Get(LoggedRows(c, wide, vanilla, src), h) == if h in ByHash(wide, src) then EntryFor(c, vanilla, ByHash(wide, src), h) else None
  {
    hide RowHash, SortedVectors.MapOf, Diff;
    if src != [] {
      var n := |src| - 1;
      var before, last := src[..n], src[n];
      LoggedFor(c, wide, vanilla, before, h);
      NotAmongEarlier(wide, src, n);
      ByHashLast(wide, src);
      KeysOfTable(wide, before);
    } else {
      assert Pairs(wide, src) == [];
      EmptyMap();
    }
  }

  lemma ByHashLast(wide: bool, src: seq<Byml>)
    requires ToldApart(wide, src) && src != []
    ensures ByHash(wide, src) == ByHash(wide, src[..|src| - 1])[RowHash(wide, src[|src| - 1]).value := src[|src| - 1]]
  {
    hide RowHash, SortedVectors.MapOf;
    var n := |src| - 1;
    assert Pairs(wide, src)[..n + 1] == Pairs(wide, src) && Pairs(wide, src)[..n] == Pairs(wide, src[..n]);
    SortedVectors.MapOfNext(Pairs(wide, src), n);
  }

  lemma LogFor(c: Context, wide: bool, vanilla: seq<Byml>, src: seq<Byml>, h: nat)
    requires ToldApart(wide, vanilla) && ToldApart(wide, src)
    ensures Get(TableLog(c, wide, vanilla, src), h) == EntryFor(c, ByHash(wide, vanilla), ByHash(wide, src), h)
  {
    hide RowHash, ByHash, Diff, LoggedRows, Removals;
    KeysOfTable(wide, vanilla);
    KeysOfTable(wide, src);
    RemovalsAreTheMissing(wide, vanilla, src);
    LoggedFor(c, wide, ByHash(wide, vanilla), src, h);
  }

  lemma RowOf(wide: bool, rows: seq<Byml>, h: nat) returns (i: nat)
    requires ToldApart(wide, rows) && h in ByHash(wide, rows)
    ensures i < |rows| && ByHash(wide, rows)[h] == rows[i] && RowHash(wide, rows[i]) == Some(h)
  {
    hide RowHash, ByHash;
    KeysOfTable(wide, rows);
    i :| 0 <= i < |rows| && RowHash(wide, rows[i]) == Some(h);
    InByHash(wide, rows, i);
  }

  lemma WholeRows(wide: bool, row: Byml, h: nat)
    requires RowHash(wide, row) == Some(h)
    ensures WholeRow(wide, h, row)
  {
    HashIs(wide, row.entries[HASH], h);
  }

  /** The changelog is one that can be merged: rows vanilla lacks are whole, the others keep their hash. */
  lemma LogIsProper(cx: Contexts, wide: bool, vanilla: seq<Byml>, src: seq<Byml>)
    requires ToldApart(wide, vanilla)
    ensures Proper(wide, Hashes(wide, vanilla), TableLog(cx.main, wide, vanilla, src))
  {
    hide RowHash, ByHash, LoggedRows, Removals, KeepsHash, WholeRow;
    KeysOfTable(wide, vanilla);
    forall h | h in LoggedRows(cx.main, wide, ByHash(wide, vanilla), src)
      ensures ProperEntry(cx.main, wide, vanilla, src, h)
    {
      LoggedIsProper(cx, wide, vanilla, src, h);
    }
  }

  ghost predicate ProperEntry(c: Context, wide: bool, vanilla: seq<Byml>, src: seq<Byml>, h: nat) {
    var log := LoggedRows(c, wide, ByHash(wide, vanilla), src);
    h in log ==> if h in ByHash(wide, vanilla) then KeepsHash(wide, h, log[h]) else WholeRow(wide, h, log[h])
  }

  lemma {:induction false} LoggedIsProper(cx: Contexts, wide: bool, vanilla: seq<Byml>, src: seq<Byml>, h: nat)
    requires ToldApart(wide, vanilla)
    ensures ProperEntry(cx.main, wide, vanilla, src, h)
  {
    hide RowHash, ByHash, LoggedRow, KeepsHash, WholeRow;
    if src != [] {
      LoggedIsProper(cx, wide, vanilla, src[..|src| - 1], h);
      OneIsProper(cx, wide, vanilla, src[|src| - 1], h);
    }
  }

  lemma OneIsProper(cx: Contexts, wide: bool, vanilla: seq<Byml>, row: Byml, h: nat)
    requires ToldApart(wide, vanilla)
    ensures var log := LoggedRow(cx.main, wide, ByHash(wide, vanilla), row);
            h in log ==> if h in ByHash(wide, vanilla) then KeepsHash(wide, h, log[h]) else WholeRow(wide, h, log[h])
  {
    hide RowHash, ByHash, Diff, KeepsHash, WholeRow;
    if RowHash(wide, row) == Some(h) {
      WholeRows(wide, row, h);
      if h in ByHash(wide, vanilla) {
        var j := RowOf(wide, vanilla, h);
        WholeRows(wide, vanilla[j], h);
        DiffKeepsHash(Contexts(cx.main, cx.main, cx.main), wide, h, vanilla[j], row);
      }
    }
  }

  // ---------- rows the mod removed ----------

  lemma {:induction false} LoggedAreOfMod(c: Context, wide: bool, vanilla: map<nat, Byml>, src: seq<Byml>, h: nat)
    ensures h in LoggedRows(c, wide, vanilla, src) ==> h in HashesOf(wide, src)
  {
    hide RowHash, HashesOf, Diff;
    if src != [] {
      var n := |src| - 1;
      LoggedAreOfMod(c, wide, vanilla, src[..n], h);
      assert src[..n + 1] == src;
      OneMore(wide, src, n);
    }
  }

  /** A row the mod lacks is in the merged table exactly when it is made up for. */
  lemma MissingRowStaysIff(cx: Contexts, wide: bool, vanilla: seq<Byml>, src: seq<Byml>, result: seq<Byml>, h: nat)
    requires ToldApart(wide, vanilla) && h in Missing(wide, vanilla, src)
    requires RowByHistory(cx, wide, vanilla, [TableLog(cx.main, wide, vanilla, src)], result, h)
    ensures h in ByHash(wide, result) <==> |Missing(wide, vanilla, src)| == Spare(wide, ByHash(wide, vanilla), src)
  {
    hide RowHash, ByHash, HashesOf, LoggedRows, RowByHistory;
    var c, v, missing := cx.main, ByHash(wide, vanilla), Missing(wide, vanilla, src);
    var log := TableLog(c, wide, vanilla, src);
    LoggedAreOfMod(c, wide, v, src, h);
    RemovedIffNotMadeUp(wide, vanilla, src);
    KeysOfTable(wide, vanilla);
    HashesInTheEnd(cx, wide, vanilla, [log], result, h);
    LastOfOne(h in Hashes(wide, vanilla), Get(log, h));
    assert History([log], h) == [Get(log, h)];
    assert Removals(wide, v, |vanilla|, src) == {} || Removals(wide, v, |vanilla|, src) == missing;
  }

  lemma LastOfOne(initially: bool, entry: Option<Byml>)
    ensures LastSays(initially, [entry]) == if entry.None? then initially else !entry.value.IsRemove()
  {
    assert [entry][..0] == [];
  }

  function Row(hash: nat): Byml { Map(Named, map[HASH := HashLeaf(false, hash)]) }

  /** Of the rows with hashes 1 and 2 the mod keeps one, and has one more row. */
  lemma OneMadeUp(cx: Contexts, extra: Byml, result: seq<Byml>)
    requires RowHash(false, extra) == None || RowHash(false, extra) == Some(1)
    requires RowByHistory(cx, false, [Row(1), Row(2)], [TableLog(cx.main, false, [Row(1), Row(2)], [Row(1), extra])], result, 2)
    ensures 2 !in HashesOf(false, [Row(1), extra]) && 2 in ByHash(false, result)
  {
    hide ByHash, RowByHistory, TableLog;
    var vanilla, src := [Row(1), Row(2)], [Row(1), extra];
    assert RowHash(false, Row(1)) == Some(1) && RowHash(false, Row(2)) == Some(2);
    KeysOfTable(false, vanilla);
    TwoHashes(extra);
    assert Missing(false, vanilla, src) == {2};
    OneSpare(ByHash(false, vanilla), extra);
    MissingRowStaysIff(cx, false, vanilla, src, result, 2);
  }

  lemma TwoHashes(extra: Byml)
    requires RowHash(false, extra) == None || RowHash(false, extra) == Some(1)
    ensures HashesOf(false, [Row(1), Row(2)]) == {1, 2} && HashesOf(false, [Row(1), extra]) == {1}
  {
    var vanilla, src := [Row(1), Row(2)], [Row(1), extra];
    assert RowHash(false, vanilla[0]) == Some(1) && RowHash(false, vanilla[1]) == Some(2) && RowHash(false, src[0]) == Some(1);
  }

  lemma OneSpare(vanilla: map<nat, Byml>, extra: Byml)
    requires 1 in vanilla && (RowHash(false, extra) == None || RowHash(false, extra) == Some(1))
    ensures Spare(false, vanilla, [Row(1), extra]) == 1
  {
    var src := [Row(1), extra];
    assert src[..1] == [Row(1)] && [Row(1)][..0] == [] && RowHash(false, [Row(1)][0]) == Some(1);
    assert Spare(false, vanilla, []) == 0;
    assert 1 in HashesOf(false, [Row(1)]);
    assert Spare(false, vanilla, [Row(1)]) == 0;
  }

  /** A hash the mod has twice makes up for one it lacks: the row it removed stays. */
  lemma DuplicateHidesRemoval(cx: Contexts, result: seq<Byml>)
    requires RowByHistory(cx, false, [Row(1), Row(2)], [TableLog(cx.main, false, [Row(1), Row(2)], [Row(1), Row(1)])], result, 2)
    ensures 2 !in HashesOf(false, [Row(1), Row(1)]) && 2 in ByHash(false, result)
  {
    OneMadeUp(cx, Row(1), result);
  }

  /** So does a row without a hash. */
  lemma HashlessHidesRemoval(cx: Contexts, result: seq<Byml>)
    requires RowByHistory(cx, false, [Row(1), Row(2)], [TableLog(cx.main, false, [Row(1), Row(2)], [Row(1), Map(Named, map[])])], result, 2)
    ensures 2 !in HashesOf(false, [Row(1), Map(Named, map[])]) && 2 in ByHash(false, result)
  {
    OneMadeUp(cx, Map(Named, map[]), result);
  }

  /** The row that comes back for a hash. */
  ghost predicate RowComesBack(c: Context, vanilla: map<nat, Byml>, src: map<nat, Byml>, result: map<nat, Byml>, h: nat) {
    && (h in result <==> h in src)
    && (h in src && h !in vanilla ==> result[h] == src[h])
    && (h in src && h in vanilla ==>
          RoundTrip.Normal(c.rules, c.type_, 0, result[h]) == RoundTrip.Normal(c.rules, c.type_, 0, src[h]))
  }

  lemma FirstFate(wide: bool, rows: seq<Byml>, h: nat)
    requires ToldApart(wide, rows)
    ensures AtFirst(wide, rows, h) == if h in ByHash(wide, rows) then Vanilla(Fresh(ByHash(wide, rows)[h]), false) else Absent
  {
    hide RowHash, TreeHash, Fresh, ByHash;
    var trees := Untouched(rows);
    KeysOfTable(wide, rows);
    forall i | 0 <= i < |rows| ensures TreeHash(wide, trees[i]) == RowHash(wide, rows[i]) { FreshHash(wide, rows[i]); }
    var at := FindRow(wide, trees, h);
    if at.Some? { InByHash(wide, rows, at.value); }
  }

  lemma OneStep(c: Context, fate: Fate, log: map<nat, Byml>, h: nat)
    ensures Run(c, fate, History([log], h)) == Step(c, fate, Get(log, h))
  {
    hide Step;
    assert History([log], h) == [Get(log, h)] && [Get(log, h)][..0] == [];
  }

  lemma RowBack(cx: Contexts, wide: bool, vanilla: seq<Byml>, src: seq<Byml>, h: nat)
    requires Comparable(cx.main, wide, vanilla, src)
    ensures var fate := Run(cx.main, AtFirst(wide, vanilla, h), History([TableLog(cx.main, wide, vanilla, src)], h));
            fate.Some? && (!fate.value.Absent? ==> Settled(cx, fate.value).Some?)
    ensures var fate := Run(cx.main, AtFirst(wide, vanilla, h), History([TableLog(cx.main, wide, vanilla, src)], h));
            EndOf(cx.main, ByHash(wide, vanilla), ByHash(wide, src), Outcome(cx, fate.value), h)
  {
    hide RowHash, ByHash, TableLog, Run, Fresh, RoundTrip.Normal, Diff, Clean, RoundTrip.Rebuildable, Merge, Settle;
    var c, v, s := cx.main, ByHash(wide, vanilla), ByHash(wide, src);
    var log := TableLog(c, wide, vanilla, src);
    OneStep(c, AtFirst(wide, vanilla, h), log, h);
    FirstFate(wide, vanilla, h);
    LogFor(c, wide, vanilla, src, h);
    if h in s && h in v {
      var i := RowOf(wide, src, h);
      var j := RowOf(wide, vanilla, h);
      assert ComparableRows(c, src[i], vanilla[j]);
      BothContainers(wide, src[i], h);
      BothContainers(wide, vanilla[j], h);
      RoundTripLaws.DocumentsComeBack(c, src[i], vanilla[j]);
      RoundTrip.FreshSettles(c, v[h]);
      DiffOfMaps(c, src[i], vanilla[j]);
    } else if h in v {
      RoundTrip.FreshSettles(c, v[h]);
    } else if h in s {
      var i := RowOf(wide, src, h);
      BothContainers(wide, src[i], h);
    }
  }

  ghost predicate EndOf(c: Context, vanilla: map<nat, Byml>, src: map<nat, Byml>, row: Option<Byml>, h: nat) {
    if h !in src then row == None
    else if h !in vanilla then row == Some(src[h])
    else row.Some? && RoundTrip.Normal(c.rules, c.type_, 0, row.value) == RoundTrip.Normal(c.rules, c.type_, 0, src[h])
  }

  lemma BothContainers(wide: bool, row: Byml, h: nat)
    requires RowHash(wide, row) == Some(h)
    ensures row.IsContainer() && !row.IsRemove() && row.Map? && row.kind == Named
  {
  }

  lemma DiffOfMaps(c: Context, row: Byml, vanilla: Byml)
    requires row.Map? && vanilla.Map? && row.kind == vanilla.kind
    ensures !Diff(c.rules, c.type_, 0, row, vanilla).0.IsRemove()
  {
    hide DiffMap;
  }

  /** A mod's table logged against vanilla's, and the log merged into vanilla's, gives back the mod's rows, hash by hash. */
  method RebuildTable(cx: Contexts, wide: bool, vanilla: seq<Byml>, src: seq<Byml>) returns (r: Option<seq<Byml>>)
    requires Comparable(cx.main, wide, vanilla, src)
    ensures r.Some? && Sorted(wide, r.value)
    ensures forall h :: RowComesBack(cx.main, ByHash(wide, vanilla), ByHash(wide, src), ByHash(wide, r.value), h)
  {
    hide TableLog, ByHash, RowHash, Sorted, Run, RoundTrip.Normal, Proper, ComparableRows;
    var log := LogTable(cx.main, wide, vanilla, src);
    LogIsProper(cx, wide, vanilla, src);
    r := MergeTable(wide, cx, vanilla, [log]);
    forall h
      ensures !CannotSettle(cx, wide, vanilla, [log], h)
      ensures r.Some? && RowByHistory(cx, wide, vanilla, [log], r.value, h) ==>
                RowComesBack(cx.main, ByHash(wide, vanilla), ByHash(wide, src), ByHash(wide, r.value), h)
    {
      RowBack(cx, wide, vanilla, src, h);
    }
  }
}
