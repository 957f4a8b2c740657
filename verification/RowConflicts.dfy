/** Rows of arrays that two mods change differently are reported. */
module RowConflicts {
  import opened Documents
  import opened Changelogs
  import opened Pending
  import opened Conflicts
  import opened ConflictLaws

  // ---------- where a list of changes lies ----------

  /** The names from a node down to another are those of maps, free of slashes and none empty at the root. */
  ghost predicate OnPath(node: Byml, keys: seq<Key>, path: string)
    decreases |keys|
  {
    keys == [] ||
    (node.Map? && keys[0] in node.entries && (forall k :: k in node.entries ==> PlainKey(k, node.kind))
     && (path == "" ==> Name("") !in node.entries)
     && OnPath(node.entries[keys[0]], keys[1..], Join(path, KeyText(keys[0], node.kind))))
  }

  ghost function NodeBelow(node: Byml, keys: seq<Key>, path: string): Byml
    requires OnPath(node, keys, path)
    decreases |keys|
  {
    if keys == [] then node else NodeBelow(node.entries[keys[0]], keys[1..], Join(path, KeyText(keys[0], node.kind)))
  }

  ghost function PathBelow(node: Byml, keys: seq<Key>, path: string): string
    requires OnPath(node, keys, path)
    decreases |keys|
  {
    if keys == [] then path else PathBelow(node.entries[keys[0]], keys[1..], Join(path, KeyText(keys[0], node.kind)))
  }

  lemma {:induction false} AllUnder(row: ArrayChange -> string, node: Byml, path: string, pv: (string, Value))
    requires path != "" && pv in ChildValues(row, node, path)
    ensures Under(pv.0, path)
    decreases node
  {
    match node
    case Map(kind, entries) =>
      var k :| k in entries && pv in ChildValues(row, entries[k], Join(path, KeyText(k, kind)));
      AllUnder(row, entries[k], Join(path, KeyText(k, kind)), pv);
      UnderJoin(pv.0, path, KeyText(k, kind));
    case ArrayLog(changes) =>
      var i :| 0 <= i < |changes| && pv in ChangeValues(row, changes[i], path);
      var inner := Join(path, row(changes[i]));
      if changes[i].change.Edit? {
        AllUnder(row, changes[i].node, inner, pv);
      }
      UnderJoin(pv.0, path, row(changes[i]));
    case _ =>
  }

  lemma {:induction false} PathGoesOn(node: Byml, keys: seq<Key>, path: string)
    requires OnPath(node, keys, path) && path != ""
    ensures Under(PathBelow(node, keys, path), path)
    decreases |keys|
  {
    if keys != [] {
      var segment := KeyText(keys[0], node.kind);
      PathGoesOn(node.entries[keys[0]], keys[1..], Join(path, segment));
      UnderJoin(PathBelow(node, keys, path), path, segment);
    }
  }

  lemma UnderUnder(a: string, b: string, c: string)
    requires Under(a, b) && Under(b, c)
    ensures Under(a, c)
  {
    if a != b && b != c {
      assert a[..|b|] == b && b[..|c|] == c;
      assert a[|c|] == b[|c|];
    }
  }

  /** The values below a path are those of the node there. */
  lemma {:induction false} Localized(row: ArrayChange -> string, node: Byml, keys: seq<Key>, path: string, pv: (string, Value))
    requires OnPath(node, keys, path) && pv in ChildValues(row, node, path) && Under(pv.0, PathBelow(node, keys, path))
    ensures pv in ChildValues(row, NodeBelow(node, keys, path), PathBelow(node, keys, path))
    decreases |keys|
  {
    if keys != [] {
      var k :| k in node.entries && pv in ChildValues(row, node.entries[k], Join(path, KeyText(k, node.kind)));
      var mine, other := KeyText(keys[0], node.kind), KeyText(k, node.kind);
      PlainText(keys[0], node.kind);
      PlainText(k, node.kind);
      AllUnder(row, node.entries[k], Join(path, other), pv);
      PathGoesOn(node.entries[keys[0]], keys[1..], Join(path, mine));
      UnderUnder(pv.0, PathBelow(node, keys, path), Join(path, mine));
      SameSegment(pv.0, path, mine, other);
      KeyTextInjective(keys[0], k, node.kind);
      Localized(row, node.entries[k], keys[1..], Join(path, mine), pv);
    }
  }

  lemma {:induction false} Contained(row: ArrayChange -> string, node: Byml, keys: seq<Key>, path: string, pv: (string, Value))
    requires OnPath(node, keys, path) && pv in ChildValues(row, NodeBelow(node, keys, path), PathBelow(node, keys, path))
    ensures pv in ChildValues(row, node, path)
    decreases |keys|
  {
    if keys != [] {
      Contained(row, node.entries[keys[0]], keys[1..], Join(path, KeyText(keys[0], node.kind)), pv);
    }
  }

  // ---------- one row ----------

  /** The change at `i` is alone in its row: no other row's text is its text, or has it go on after a slash. */
  ghost predicate RowApart(row: ArrayChange -> string, changes: seq<ArrayChange>, i: nat)
    requires i < |changes|
  {
    forall j :: 0 <= j < |changes| && j != i && !changes[j].change.Add? ==> !Under(row(changes[i]), row(changes[j]))
  }

  /** A changelog with a list of changes at a path, one of which is for a row of its own. */
  ghost predicate RowAt(row: ArrayChange -> string, log: Byml, keys: seq<Key>, changes: seq<ArrayChange>, i: nat) {
    && log.Map? && keys != [] && OnPath(log, keys, "") && NodeBelow(log, keys, "") == ArrayLog(changes)
    && i < |changes| && RowApart(row, changes, i)
  }

  ghost function RowPath(row: ArrayChange -> string, log: Byml, keys: seq<Key>, change: ArrayChange): string
    requires OnPath(log, keys, "")
  {
    Join(PathBelow(log, keys, ""), row(change))
  }

  lemma StripsTo(path: string, a: string, b: string)
    requires path != "" && Under(Join(path, a), Join(path, b))
    ensures Under(a, b)
  {
    var n := |path| + 1;
    var x, y := path + "/" + a, path + "/" + b;
    assert x[n..] == a && y[n..] == b;
    if x != y {
      assert y == x[..|y|];
      assert b == x[n..|y|] == a[..|b|];
      assert x[|y|] == a[|b|];
    }
  }

  lemma PathIsNamed(node: Byml, keys: seq<Key>, path: string)
    requires OnPath(node, keys, path) && keys != []
    ensures PathBelow(node, keys, path) != ""
    decreases |keys|
  {
    var segment := KeyText(keys[0], node.kind);
    PlainText(keys[0], node.kind);
    assert Join(path, segment) != "";
    PathGoesOn(node.entries[keys[0]], keys[1..], Join(path, segment));
  }

  /** Whatever a changelog says at the path of a row of its own is said by the change for that row. */
  lemma OfRow(row: ArrayChange -> string, log: Byml, keys: seq<Key>, changes: seq<ArrayChange>, i: nat, v: Value)
    requires RowAt(row, log, keys, changes, i) && (RowPath(row, log, keys, changes[i]), v) in PathValues(row, log, "")
    ensures (RowPath(row, log, keys, changes[i]), v) in ChangeValues(row, changes[i], PathBelow(log, keys, ""))
  {
    var path, q := PathBelow(log, keys, ""), RowPath(row, log, keys, changes[i]);
    PathIsNamed(log, keys, "");
    assert Under(q, path) by { UnderItself(q); UnderJoin(q, path, row(changes[i])); }
    Localized(row, log, keys, "", (q, v));
    var j :| 0 <= j < |changes| && (q, v) in ChangeValues(row, changes[j], path);
    if j != i {
      var inner := Join(path, row(changes[j]));
      if changes[j].change.Edit? { AllUnder(row, changes[j].node, inner, (q, v)); }
      StripsTo(path, row(changes[i]), row(changes[j]));
    }
  }

  lemma UnderItself(p: string)
    ensures Under(p, p)
  {
  }

  lemma SaidByRow(row: ArrayChange -> string, log: Byml, keys: seq<Key>, changes: seq<ArrayChange>, i: nat, pv: (string, Value))
    requires RowAt(row, log, keys, changes, i) && pv in ChangeValues(row, changes[i], PathBelow(log, keys, ""))
    ensures pv in PathValues(row, log, "")
  {
    Contained(row, log, keys, "", pv);
  }

  predicate Scalar(node: Byml) { !node.Map? && !node.ArrayLog? && !node.IsRemove() }

  /** A removed row is collected as removed, one edited to a scalar as that scalar. */
  lemma RowLeaf(row: ArrayChange -> string, log: Byml, keys: seq<Key>, changes: seq<ArrayChange>, i: nat, leaves: Leaves)
    requires RowAt(row, log, keys, changes, i) && CollectedFrom(row, log, leaves)
    ensures var q := RowPath(row, log, keys, changes[i]);
            && (changes[i].change.Remove? ==> q in leaves && leaves[q] == Gone)
            && (changes[i].change.Edit? && Scalar(changes[i].node) ==> q in leaves && leaves[q] == Set(changes[i].node))
  {
    hide OnPath, RowApart, PathValues, ChildValues;
    var q := RowPath(row, log, keys, changes[i]);
    if changes[i].change.Remove? {
      LeafOf(row, log, keys, changes, i, leaves, Gone);
    } else if changes[i].change.Edit? && Scalar(changes[i].node) {
      ScalarValues(row, changes[i].node, q);
      LeafOf(row, log, keys, changes, i, leaves, Set(changes[i].node));
    }
  }

  lemma ScalarValues(row: ArrayChange -> string, node: Byml, path: string)
    requires Scalar(node)
    ensures ChildValues(row, node, path) == {(path, Set(node))}
  {
  }

  lemma LeafOf(row: ArrayChange -> string, log: Byml, keys: seq<Key>, changes: seq<ArrayChange>, i: nat, leaves: Leaves, v: Value)
    requires RowAt(row, log, keys, changes, i) && CollectedFrom(row, log, leaves)
    requires ChangeValues(row, changes[i], PathBelow(log, keys, "")) == {(RowPath(row, log, keys, changes[i]), v)}
    ensures var q := RowPath(row, log, keys, changes[i]); q in leaves && leaves[q] == v
  {
    hide OnPath, RowApart, PathValues, ChangeValues;
    var q := RowPath(row, log, keys, changes[i]);
    SaidByRow(row, log, keys, changes, i, (q, v));
    assert (q, leaves[q]) in PathValues(row, log, "") by { assert (q, v) in PathValues(row, log, ""); }
    OfRow(row, log, keys, changes, i, leaves[q]);
  }

  /** Rows that are only added are not collected. */
  lemma AddedNotCollected(row: ArrayChange -> string, log: Byml, keys: seq<Key>, changes: seq<ArrayChange>, leaves: Leaves)
    requires log.Map? && OnPath(log, keys, "") && NodeBelow(log, keys, "") == ArrayLog(changes) && CollectedFrom(row, log, leaves)
    requires forall i :: 0 <= i < |changes| ==> changes[i].change.Add?
    ensures forall q :: q in leaves ==> !Under(q, PathBelow(log, keys, ""))
  {
    forall q | q in leaves
      ensures !Under(q, PathBelow(log, keys, ""))
    {
      assert (q, leaves[q]) in PathValues(row, log, "");
      if Under(q, PathBelow(log, keys, "")) {
        Localized(row, log, keys, "", (q, leaves[q]));
        var j :| 0 <= j < |changes| && (q, leaves[q]) in ChangeValues(row, changes[j], PathBelow(log, keys, ""));
      }
    }
  }

  // ---------- the report ----------

  /** What collides at some path is in the report. */
  lemma ReportedAt(values: map<string, Setters>, r: Option<Report>, p: string)
    requires Reports(values, r) && p in values && values[p] != [] && |Colliding(values, p)| >= 2
    ensures r.Some? && r.value.count >= 1 && Colliding(values, p) <= r.value.involved
  {
    var paths :| Ordered(paths, values) && r == ReportOf(values, paths);
    ContestedPaths(values, paths);
    assert p in Contested(values, paths);
  }

  /** Two mods with different values at a path are reported, unless one of them sets what the last mod there sets. */
  lemma DifferentReported(sets: seq<(nat, Leaves)>, i: nat, j: nat, p: string, r: Option<Report>)
    requires OwnNumbers(sets) && Reports(AllValues(sets), r) && i < |sets| && j < |sets| && i != j
    requires p in sets[i].1 && p in sets[j].1 && sets[i].1[p] != sets[j].1[p]
    ensures r.Some? && r.value.count >= 1 && (sets[i].0 in r.value.involved || sets[j].0 in r.value.involved)
    ensures |sets| == 2 ==> sets[i].0 in r.value.involved && sets[j].0 in r.value.involved
  {
    hide AllValues, Reports, Colliding, Winner;
    var values := AllValues(sets);
    var first, second := (sets[i].0, sets[i].1[p]), (sets[j].0, sets[j].1[p]);
    SettersAre(sets, p);
    assert SetBy(sets, i, p, first) && SetBy(sets, j, p, second);
    var winner := Winner(values[p]);
    var w :| SetBy(sets, w, p, winner);
    var loser := if first.1 != winner.1 then first else second;
    LoserCollides(values, p, loser);
    AtLeastTwo(Colliding(values, p), loser.0, winner.0);
    ReportedAt(values, r, p);
  }

  /** A value inside a path that another mod sets is reported with it. */
  lemma InsideReported(sets: seq<(nat, Leaves)>, i: nat, j: nat, p: string, q: string, r: Option<Report>)
    requires OwnNumbers(sets) && Reports(AllValues(sets), r) && i < |sets| && j < |sets| && i != j
    requires p in sets[i].1 && q in sets[j].1 && Inside(q, p)
    ensures r.Some? && r.value.count >= 1 && sets[i].0 in r.value.involved && sets[j].0 in r.value.involved
  {
    hide AllValues, Reports, Inside, Colliding;
    var values := AllValues(sets);
    var owner, other := (sets[i].0, sets[i].1[p]), (sets[j].0, sets[j].1[q]);
    SettersAre(sets, p);
    SettersAre(sets, q);
    assert SetBy(sets, i, p, owner) && SetBy(sets, j, q, other);
    assert other.0 in Intruders(values[p], values[q]) && owner.0 in Mods(values[p]);
    IntrudersCollide(values, p, q, other.0, owner.0);
    AtLeastTwo(Colliding(values, p), other.0, owner.0);
    ReportedAt(values, r, p);
  }

  /** Something is set in the node, or the node itself. */
  ghost predicate SetsSomething(node: Byml) {
    match node
    case Map(_, entries) => exists k :: k in entries && SetsSomething(entries[k])
    case ArrayLog(changes) =>
      exists i :: 0 <= i < |changes| && (changes[i].change.Remove? || (changes[i].change.Edit? && SetsSomething(changes[i].node)))
    case _ => true
  }

  lemma {:induction false} SomethingSet(row: ArrayChange -> string, node: Byml, path: string) returns (pv: (string, Value))
    requires SetsSomething(node)
    ensures pv in ChildValues(row, node, path)
    decreases node
  {
    match node
    case Map(kind, entries) =>
      var k :| k in entries && SetsSomething(entries[k]);
      pv := SomethingSet(row, entries[k], Join(path, KeyText(k, kind)));
    case ArrayLog(changes) =>
      var i :| 0 <= i < |changes| && (changes[i].change.Remove? || (changes[i].change.Edit? && SetsSomething(changes[i].node)));
      if changes[i].change.Remove? {
        pv := (Join(path, row(changes[i])), Gone);
        assert pv in ChangeValues(row, changes[i], path);
      } else {
        pv := SomethingSet(row, changes[i].node, Join(path, row(changes[i])));
        assert pv in ChangeValues(row, changes[i], path);
      }
    case _ =>
      pv := (path, if node.IsRemove() then Gone else Set(node));
  }

  /** Changes two mods make in the same row that cannot both be kept: it is removed and edited, or edited to different scalars. */
  predicate RowContested(a: ArrayChange, b: ArrayChange) {
    (a.change.Remove? && b.change.Edit? && !b.node.IsRemove())
    || (a.change.Edit? && b.change.Remove? && !a.node.IsRemove())
    || (a.change.Edit? && b.change.Edit? && Scalar(a.node) && Scalar(b.node) && a.node != b.node)
  }

  /** A row one of two mods removes and the other edits, or that both set to different scalars, is reported with both. */
  lemma RowsCollide(row: ArrayChange -> string, a: Byml, b: Byml, inA: seq<Key>, inB: seq<Key>, as_: seq<ArrayChange>, bs: seq<ArrayChange>,
                    i: nat, j: nat, la: Leaves, lb: Leaves, r: Option<Report>)
    requires RowAt(row, a, inA, as_, i) && RowAt(row, b, inB, bs, j)
    requires RowPath(row, a, inA, as_[i]) == RowPath(row, b, inB, bs[j]) && RowContested(as_[i], bs[j])
    requires (as_[i].change.Edit? ==> SetsSomething(as_[i].node)) && (bs[j].change.Edit? ==> SetsSomething(bs[j].node))
    requires CollectedFrom(row, a, la) && CollectedFrom(row, b, lb) && Reports(AllValues([(0, la), (1, lb)]), r)
    ensures r.Some? && r.value.count >= 1 && {0, 1} <= r.value.involved
  {
    hide OnPath, CollectedFrom, Reports, AllValues, SetsSomething, RowPath, RowApart;
    var sets := [(0, la), (1, lb)];
    RowLeaf(row, a, inA, as_, i, la);
    RowLeaf(row, b, inB, bs, j, lb);
    if as_[i].change.Remove? {
      RemovedAgainstEdit(row, b, inB, bs, j, lb, la, sets, 0, 1, r);
    } else if bs[j].change.Remove? {
      RemovedAgainstEdit(row, a, inA, as_, i, la, lb, sets, 1, 0, r);
    } else {
      DifferentReported(sets, 0, 1, RowPath(row, a, inA, as_[i]), r);
    }
  }

  lemma RemovedAgainstEdit(row: ArrayChange -> string, log: Byml, keys: seq<Key>, changes: seq<ArrayChange>, i: nat, mine: Leaves,
                           other: Leaves, sets: seq<(nat, Leaves)>, removes: nat, edits: nat, r: Option<Report>)
    requires RowAt(row, log, keys, changes, i) && CollectedFrom(row, log, mine)
    requires changes[i].change.Edit? && !changes[i].node.IsRemove() && SetsSomething(changes[i].node)
    requires |sets| == 2 && {removes, edits} == {0, 1} && sets[removes].1 == other && sets[edits].1 == mine
    requires OwnNumbers(sets) && Reports(AllValues(sets), r)
    requires var q := RowPath(row, log, keys, changes[i]); q in other && other[q] == Gone
    ensures r.Some? && r.value.count >= 1 && sets[removes].0 in r.value.involved && sets[edits].0 in r.value.involved
  {
    hide OnPath, RowApart, PathValues, AllValues, Reports, SetsSomething;
    var q := RowPath(row, log, keys, changes[i]);
    if Scalar(changes[i].node) {
      RowLeaf(row, log, keys, changes, i, mine);
      DifferentReported(sets, removes, edits, q, r);
    } else {
      var pv := SomethingSet(row, changes[i].node, q);
      SaidByRow(row, log, keys, changes, i, pv);
      RowPathNamed(row, log, keys, changes[i]);
      InsideContainer(row, changes[i].node, q, pv);
      InsideReported(sets, removes, edits, q, pv.0, r);
    }
  }

  lemma RowPathNamed(row: ArrayChange -> string, log: Byml, keys: seq<Key>, change: ArrayChange)
    requires OnPath(log, keys, "") && keys != []
    ensures RowPath(row, log, keys, change) != ""
  {
    PathIsNamed(log, keys, "");
  }

  lemma InsideContainer(row: ArrayChange -> string, node: Byml, path: string, pv: (string, Value))
    requires (node.Map? || node.ArrayLog?) && path != "" && pv in ChildValues(row, node, path)
    ensures Inside(pv.0, path)
  {
    if node.Map? {
      var k :| k in node.entries && pv in ChildValues(row, node.entries[k], Join(path, KeyText(k, node.kind)));
      AllUnder(row, node.entries[k], Join(path, KeyText(k, node.kind)), pv);
      UnderJoin(pv.0, path, KeyText(k, node.kind));
    } else {
      var i :| 0 <= i < |node.changes| && pv in ChangeValues(row, node.changes[i], path);
      var inner := Join(path, row(node.changes[i]));
      if node.changes[i].change.Edit? { AllUnder(row, node.changes[i].node, inner, pv); }
      UnderJoin(pv.0, path, row(node.changes[i]));
    }
  }

  /** Somewhere two changelogs change the same row in ways that cannot both be kept. */
  ghost predicate RowsContested(row: ArrayChange -> string, a: Byml, b: Byml) {
    exists inA, inB, as_, bs, i, j :: SameRow(row, a, b, inA, inB, as_, bs, i, j)
  }

  ghost predicate SameRow(row: ArrayChange -> string, a: Byml, b: Byml, inA: seq<Key>, inB: seq<Key>, as_: seq<ArrayChange>,
                          bs: seq<ArrayChange>, i: nat, j: nat) {
    && RowAt(row, a, inA, as_, i) && RowAt(row, b, inB, bs, j)
    && RowPath(row, a, inA, as_[i]) == RowPath(row, b, inB, bs[j]) && RowContested(as_[i], bs[j])
    && (as_[i].change.Edit? ==> SetsSomething(as_[i].node)) && (bs[j].change.Edit? ==> SetsSomething(bs[j].node))
  }

  /** The report on the changelogs of two mods. */
  method ReportTwo(row: ArrayChange -> string, a: Byml, b: Byml) returns (r: Option<Report>)
    ensures exists la, lb :: CollectedFrom(row, a, la) && CollectedFrom(row, b, lb) && Reports(AllValues([(0, la), (1, lb)]), r)
    ensures RowsContested(row, a, b) ==> r.Some? && r.value.count >= 1 && {0, 1} <= r.value.involved
  {
    hide CollectedFrom, AllValues, Reports, PathValues, SameRow;
    var first := new Collector(row);
    first.Collect(a);
    var second := new Collector(row);
    second.Collect(b);
    var la, lb := first.leaves, second.leaves;
    CollectedIs(row, a, la);
    CollectedIs(row, b, lb);
    r := Collisions([(0, la), (1, lb)]);
    if RowsContested(row, a, b) {
      ghost var inA, inB, as_, bs, i, j :| SameRow(row, a, b, inA, inB, as_, bs, i, j);
      SameRowReported(row, a, b, inA, inB, as_, bs, i, j, la, lb, r);
    }
  }

  lemma CollectedIs(row: ArrayChange -> string, log: Byml, leaves: Leaves)
    ensures PutIn(map[], leaves, PathValues(row, log, "")) ==> CollectedFrom(row, log, leaves)
  {
  }

  lemma SameRowReported(row: ArrayChange -> string, a: Byml, b: Byml, inA: seq<Key>, inB: seq<Key>, as_: seq<ArrayChange>,
                        bs: seq<ArrayChange>, i: nat, j: nat, la: Leaves, lb: Leaves, r: Option<Report>)
    requires SameRow(row, a, b, inA, inB, as_, bs, i, j)
    requires CollectedFrom(row, a, la) && CollectedFrom(row, b, lb) && Reports(AllValues([(0, la), (1, lb)]), r)
    ensures r.Some? && r.value.count >= 1 && {0, 1} <= r.value.involved
  {
    hide CollectedFrom, AllValues, Reports, RowPath, SetsSomething;
    RowsCollide(row, a, b, inA, inB, as_, bs, i, j, la, lb, r);
  }
}
