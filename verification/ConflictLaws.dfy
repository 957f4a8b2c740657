/** When no collision is reported among mods, it does not matter which of any two is merged first. */
module ConflictLaws {
  import opened Documents
  import opened Changelogs
  import opened Pending
  import opened Commuting
  import opened Conflicts
  import opened RoundTripLaws
  import Slots

  // ---------- path strings ----------

  predicate Under(inner: string, path: string) { inner == path || Inside(inner, path) }

  predicate SlashFree(text: string) { '/' !in text }

  lemma UnderJoin(inner: string, path: string, segment: string)
    requires path != "" && Under(inner, Join(path, segment))
    ensures Inside(inner, path)
  {
    var joined := path + "/" + segment;
    assert path < joined && joined[|path|] == '/';
    assert path <= inner && inner[|path|] == joined[|path|];
  }

  lemma SameSegment(inner: string, path: string, a: string, b: string)
    requires SlashFree(a) && SlashFree(b) && Under(inner, Join(path, a)) && Under(inner, Join(path, b))
    ensures a == b
  {
    var n := if path == "" then 0 else |path| + 1;
    SegmentAt(inner, path, a);
    SegmentAt(inner, path, b);
    NotShorter(inner, n, a, b);
    NotShorter(inner, n, b, a);
    assert a == inner[n..][..|a|] && b == inner[n..][..|b|];
  }

  lemma NotShorter(inner: string, n: nat, a: string, b: string)
    requires n + |a| <= |inner| && n + |b| <= |inner| && (n + |a| < |inner| ==> inner[n + |a|] == '/')
    requires forall i :: 0 <= i < |b| ==> inner[n + i] == b[i]
    ensures |b| <= |a| || !SlashFree(b)
  {
    if |a| < |b| {
      assert inner[n + |a|] == b[|a|] == '/';
    }
  }

  lemma SegmentAt(inner: string, path: string, segment: string)
    requires Under(inner, Join(path, segment))
    ensures var n := if path == "" then 0 else |path| + 1;
            n + |segment| <= |inner| && inner[n..n + |segment|] == segment && inner[n..][..|segment|] == segment
            && (n + |segment| < |inner| ==> inner[n + |segment|] == '/')
            && forall i :: 0 <= i < |segment| ==> inner[n + i] == segment[i]
  {
    var n := if path == "" then 0 else |path| + 1;
    var joined := Join(path, segment);
    assert |joined| == n + |segment| && joined[n..] == segment;
    assert inner[..|joined|] == joined;
    assert inner[n..n + |segment|] == joined[n..];
  }

  // ---------- hashes as text ----------

  function Digit(c: char): nat {
    if '0' <= c <= '9' then (c - '0') as nat else if 'a' <= c <= 'f' then (c - 'a') as nat + 10 else 0
  }

  function HexValue(text: string): nat {
    if text == "" then 0 else HexValue(text[..|text| - 1]) * 16 + Digit(text[|text| - 1])
  }

  lemma HexDigits(digit: nat)
    requires digit < 16
    ensures Digit(HexDigit(digit)) == digit && HexDigit(digit) != '/'
  {
  }

  lemma {:induction false} HexOf(value: nat)
    ensures HexValue(Hex(value)) == value && SlashFree(Hex(value)) && Hex(value) != ""
  {
    if value < 16 {
      HexDigits(value);
      assert Hex(value)[..0] == "";
    } else {
      HexOf(value / 16);
      HexDigits(value % 16);
      assert Hex(value)[..|Hex(value)| - 1] == Hex(value / 16);
    }
  }

  lemma {:induction false} HexZero(text: string)
    ensures HexValue("0" + text) == HexValue(text)
  {
    var padded := "0" + text;
    if text == "" {
      assert padded[..0] == "";
    } else {
      HexZero(text[..|text| - 1]);
      assert padded[..|padded| - 1] == "0" + text[..|text| - 1];
    }
  }

  lemma {:induction false} HexPadded(text: string, width: nat)
    requires SlashFree(text) && text != ""
    ensures HexValue(Pad(text, width)) == HexValue(text) && SlashFree(Pad(text, width)) && Pad(text, width) != ""
    decreases width - |text|
  {
    if |text| < width {
      HexZero(text);
      HexPadded("0" + text, width);
    }
  }

  /** A key fit for its map, and without a slash. */
  predicate PlainKey(key: Key, kind: Kind) {
    match key
    case Name(text) => kind == Named && SlashFree(text)
    case Hash(_) => kind != Named
  }

  lemma PlainText(key: Key, kind: Kind)
    requires PlainKey(key, kind)
    ensures SlashFree(KeyText(key, kind)) && (key != Name("") ==> KeyText(key, kind) != "")
  {
    if key.Hash? {
      HexOf(key.value);
      HexPadded(Hex(key.value), if kind == Hashed32 then 8 else 16);
    }
  }

  lemma KeyTextInjective(a: Key, b: Key, kind: Kind)
    requires PlainKey(a, kind) && PlainKey(b, kind) && KeyText(a, kind) == KeyText(b, kind)
    ensures a == b
  {
    if a.Hash? {
      HexOf(a.value);
      HexOf(b.value);
      HexPadded(Hex(a.value), if kind == Hashed32 then 8 else 16);
      HexPadded(Hex(b.value), if kind == Hashed32 then 8 else 16);
    }
  }

  // ---------- values by path ----------

  ghost predicate PlainKeys(log: Byml) {
    log.Map? ==> forall k :: k in log.entries ==> PlainKey(k, log.kind) && PlainKeys(log.entries[k])
  }

  /** No empty name at the root: what is inside one would have the paths of what is beside it. */
  ghost predicate RootNamed(log: Byml) {
    log.Map? ==> Name("") !in log.entries
  }

  /** Maps within maps with nothing in them: no value at all. */
  ghost predicate Hollow(log: Byml) {
    log.Map? && forall k :: k in log.entries ==> Hollow(log.entries[k])
  }

  /** Nowhere does one have a hollow map where the other has something other than a map. */
  ghost predicate NoHole(a: Byml, b: Byml)
    decreases a
  {
    if a.Map? && b.Map? then
      a.kind == b.kind ==> forall k :: k in a.entries && k in b.entries ==> NoHole(a.entries[k], b.entries[k])
    else !Hollow(a) && !Hollow(b)
  }

  lemma {:induction false} ValuesUnder(row: ArrayChange -> string, log: Byml, path: string, pv: (string, Value))
    requires MapLog(log) && path != "" && pv in ChildValues(row, log, path)
    ensures Under(pv.0, path)
    ensures log.Map? ==> Inside(pv.0, path)
    decreases log
  {
    if log.Map? {
      var k :| k in log.entries && pv in ChildValues(row, log.entries[k], Join(path, KeyText(k, log.kind)));
      ValuesUnder(row, log.entries[k], Join(path, KeyText(k, log.kind)), pv);
      UnderJoin(pv.0, path, KeyText(k, log.kind));
    }
  }

  lemma EntryOfValue(row: ArrayChange -> string, log: Byml, path: string, pv: (string, Value)) returns (k: Key)
    requires log.Map? && MapLog(log) && PlainKeys(log) && (path == "" ==> RootNamed(log)) && pv in PathValues(row, log, path)
    ensures k in log.entries && pv in ChildValues(row, log.entries[k], Join(path, KeyText(k, log.kind)))
    ensures Under(pv.0, Join(path, KeyText(k, log.kind)))
  {
    k :| k in log.entries && pv in ChildValues(row, log.entries[k], Join(path, KeyText(k, log.kind)));
    PlainText(k, log.kind);
    ValuesUnder(row, log.entries[k], Join(path, KeyText(k, log.kind)), pv);
  }

  /** With keys free of slashes every path has one value. */
  lemma {:induction false} OneValue(row: ArrayChange -> string, log: Byml, path: string, p: string, v: Value, w: Value)
    requires MapLog(log) && PlainKeys(log) && (path == "" ==> RootNamed(log)) && (p, v) in ChildValues(row, log, path) && (p, w) in ChildValues(row, log, path)
    ensures v == w
    decreases log
  {
    if log.Map? {
      var a := EntryOfValue(row, log, path, (p, v));
      var b := EntryOfValue(row, log, path, (p, w));
      PlainText(a, log.kind);
      PlainText(b, log.kind);
      SameSegment(p, path, KeyText(a, log.kind), KeyText(b, log.kind));
      KeyTextInjective(a, b, log.kind);
      OneValue(row, log.entries[a], Join(path, KeyText(a, log.kind)), p, v, w);
    }
  }

  lemma {:induction false} SomeValue(row: ArrayChange -> string, log: Byml, path: string) returns (pv: (string, Value))
    requires MapLog(log) && !Hollow(log)
    ensures pv in ChildValues(row, log, path)
    decreases log
  {
    if log.Map? {
      var k :| k in log.entries && !Hollow(log.entries[k]);
      pv := SomeValue(row, log.entries[k], Join(path, KeyText(k, log.kind)));
    } else {
      pv := (path, if log.IsRemove() then Gone else Set(log));
    }
  }

  /** No value of one is another value of the other's, or inside it. */
  ghost predicate Uncontested(a: set<(string, Value)>, b: set<(string, Value)>) {
    forall x, y :: x in a && y in b ==> (x.0 == y.0 ==> x.1 == y.1) && !Inside(x.0, y.0) && !Inside(y.0, x.0)
  }

  lemma UncontestedSwap(a: set<(string, Value)>, b: set<(string, Value)>)
    requires Uncontested(a, b)
    ensures Uncontested(b, a)
  {
  }

  lemma ScalarAgainstMap(row: ArrayChange -> string, a: Byml, b: Byml, path: string)
    requires MapLog(a) && MapLog(b) && path != "" && !a.Map? && b.Map? && !Hollow(b)
    ensures !Uncontested(ChildValues(row, a, path), ChildValues(row, b, path))
  {
    var pv := SomeValue(row, b, path);
    ValuesUnder(row, b, path, pv);
    var own := (path, if a.IsRemove() then Gone else Set(a));
    assert own in ChildValues(row, a, path);
  }

  /** Uncontested changes are compatible exactly when neither is hollow where the other is no map. */
  lemma {:induction false} CompatibleIffNoHole(row: ArrayChange -> string, a: Byml, b: Byml, path: string)
    requires MapLog(a) && MapLog(b) && path != ""
    requires Uncontested(ChildValues(row, a, path), ChildValues(row, b, path))
    ensures Compatible(a, b) <==> NoHole(a, b)
    decreases a
  {
    if a.Map? && b.Map? {
      MapsCompatibleIff(row, a, b, path);
    } else if a.Map? {
      if !Hollow(a) {
        UncontestedSwap(ChildValues(row, a, path), ChildValues(row, b, path));
        ScalarAgainstMap(row, b, a, path);
      }
    } else if b.Map? {
      if !Hollow(b) {
        ScalarAgainstMap(row, a, b, path);
      }
    } else {
      var va, vb := (path, if a.IsRemove() then Gone else Set(a)), (path, if b.IsRemove() then Gone else Set(b));
      assert va in ChildValues(row, a, path) && vb in ChildValues(row, b, path);
    }
  }

  lemma {:induction false} MapsCompatibleIff(row: ArrayChange -> string, a: Byml, b: Byml, path: string)
    requires a.Map? && b.Map? && MapLog(a) && MapLog(b)
    requires Uncontested(PathValues(row, a, path), PathValues(row, b, path))
    requires path == "" ==> PlainKeys(a) && RootNamed(a)
    ensures Compatible(a, b) <==> NoHole(a, b)
    decreases a, 0
  {
    if a.kind == b.kind {
      forall k | k in a.entries && k in b.entries
        ensures Compatible(a.entries[k], b.entries[k]) <==> NoHole(a.entries[k], b.entries[k])
      {
        var inner := Join(path, KeyText(k, a.kind));
        if path == "" { PlainText(k, a.kind); }
        assert ChildValues(row, a.entries[k], inner) <= PathValues(row, a, path);
        assert ChildValues(row, b.entries[k], inner) <= PathValues(row, b, path);
        CompatibleIffNoHole(row, a.entries[k], b.entries[k], inner);
      }
    }
  }

  // ---------- what the report says ----------

  lemma AtLeastTwo(s: set<nat>, x: nat, y: nat)
    requires x in s && y in s && x != y
    ensures |s| >= 2
  {
    assert s == {x, y} + (s - {x, y});
    assert |{x, y}| == 2;
  }

  ghost predicate OfTwo(values: map<string, Setters>, a: Leaves, b: Leaves) {
    forall p :: (p in values <==> p in a || p in b) && (p in values ==> values[p] == BothSetters(a, b, p))
  }

  function BothSetters(a: Leaves, b: Leaves, p: string): Setters {
    (if p in a then [(0, a[p])] else []) + if p in b then [(1, b[p])] else []
  }

  lemma TwoMods(a: Leaves, b: Leaves)
    ensures OfTwo(AllValues([(0, a), (1, b)]), a, b)
  {
    var sets := [(0, a), (1, b)];
    var none: seq<(nat, Leaves)> := [];
    assert sets[..1] == [(0, a)] && sets[..1][..0] == none;
    assert AllValues(sets[..1]) == WithLeaves(map[], 0, a);
  }

  lemma NotContested(values: map<string, Setters>, path: string)
    requires Reports(values, None) && path in values && values[path] != []
    ensures |Colliding(values, path)| < 2
  {
    var paths :| Ordered(paths, values) && None == ReportOf(values, paths);
    ContestedPaths(values, paths);
    assert path in paths;
    assert path !in Contested(values, paths);
  }

  ghost predicate OwnNumbers(sets: seq<(nat, Leaves)>) {
    forall i, j :: 0 <= i < j < |sets| ==> sets[i].0 != sets[j].0
  }

  ghost predicate SetBy(sets: seq<(nat, Leaves)>, i: nat, p: string, setter: (nat, Value)) {
    i < |sets| && p in sets[i].1 && setter == (sets[i].0, sets[i].1[p])
  }

  /** The setters of a path are the mods that have it. */
  lemma {:induction false} SettersAre(sets: seq<(nat, Leaves)>, p: string)
    ensures forall i, setter :: SetBy(sets, i, p, setter) ==> p in AllValues(sets) && setter in AllValues(sets)[p]
    ensures p in AllValues(sets) ==> forall setter :: setter in AllValues(sets)[p] ==> exists i :: SetBy(sets, i, p, setter)
  {
    if sets != [] {
      var n := |sets| - 1;
      var before := sets[..n];
      SettersAre(before, p);
      forall i: nat, setter | SetBy(sets, i, p, setter)
        ensures p in AllValues(sets) && setter in AllValues(sets)[p]
      {
        assert i < n ==> SetBy(before, i, p, setter);
      }
      if p in AllValues(sets) {
        forall setter | setter in AllValues(sets)[p]
          ensures exists i :: SetBy(sets, i, p, setter)
        {
          if setter in Old(AllValues(before), p) {
            var i :| SetBy(before, i, p, setter);
            assert SetBy(sets, i, p, setter);
          } else {
            assert SetBy(sets, n, p, setter);
          }
        }
      }
    }
  }

  /** With nothing reported among any number of mods, no path has two values, none of one mod lies inside one of another. */
  lemma NothingReported(sets: seq<(nat, Leaves)>, i: nat, j: nat)
    requires OwnNumbers(sets) && Reports(AllValues(sets), None) && i < |sets| && j < |sets| && i != j
    ensures forall p :: p in sets[i].1 && p in sets[j].1 ==> sets[i].1[p] == sets[j].1[p]
    ensures forall p, q :: p in sets[i].1 && q in sets[j].1 ==> !Inside(p, q) && !Inside(q, p)
  {
    hide AllValues, Reports, Inside;
    forall p | p in sets[i].1 && p in sets[j].1
      ensures sets[i].1[p] == sets[j].1[p]
    {
      SameValue(sets, i, j, p);
    }
    forall p, q | p in sets[i].1 && q in sets[j].1
      ensures !Inside(p, q) && !Inside(q, p)
    {
      NotInside(sets, i, j, p, q);
      NotInside(sets, j, i, q, p);
    }
  }

  lemma SameValue(sets: seq<(nat, Leaves)>, i: nat, j: nat, p: string)
    requires OwnNumbers(sets) && Reports(AllValues(sets), None) && i < |sets| && j < |sets| && i != j && p in sets[i].1 && p in sets[j].1
    ensures sets[i].1[p] == sets[j].1[p]
  {
    hide AllValues, Reports, Colliding, Winner;
    var values := AllValues(sets);
    var first, second := (sets[i].0, sets[i].1[p]), (sets[j].0, sets[j].1[p]);
    SettersAre(sets, p);
    assert SetBy(sets, i, p, first) && SetBy(sets, j, p, second);
    NotContested(values, p);
    var winner := Winner(values[p]);
    var w :| SetBy(sets, w, p, winner);
    if first.1 != second.1 {
      var loser := if first.1 != winner.1 then first else second;
      LoserCollides(values, p, loser);
      AtLeastTwo(Colliding(values, p), loser.0, winner.0);
    }
  }

  lemma LoserCollides(values: map<string, Setters>, p: string, loser: (nat, Value))
    requires p in values && values[p] != [] && loser in values[p] && loser.1 != Winner(values[p]).1
    ensures loser.0 in Colliding(values, p) && Winner(values[p]).0 in Colliding(values, p)
  {
    hide Winner, Intruders;
    var set' := values[p];
    var losers := set i | 0 <= i < |set'| && set'[i].1 != Winner(set').1 :: set'[i].0;
    assert loser.0 in losers;
  }

  lemma NotInside(sets: seq<(nat, Leaves)>, i: nat, j: nat, p: string, q: string)
    requires OwnNumbers(sets) && Reports(AllValues(sets), None) && i < |sets| && j < |sets| && i != j && p in sets[i].1 && q in sets[j].1
    ensures !Inside(q, p)
  {
    hide AllValues, Reports, Inside, Colliding;
    var values := AllValues(sets);
    var owner, other := (sets[i].0, sets[i].1[p]), (sets[j].0, sets[j].1[q]);
    SettersAre(sets, p);
    SettersAre(sets, q);
    assert SetBy(sets, i, p, owner) && SetBy(sets, j, q, other);
    NotContested(values, p);
    if Inside(q, p) {
      assert other.0 in Intruders(values[p], values[q]) && owner.0 in Mods(values[p]);
      IntrudersCollide(values, p, q, other.0, owner.0);
      AtLeastTwo(Colliding(values, p), other.0, owner.0);
    }
  }

  lemma IntrudersCollide(values: map<string, Setters>, p: string, q: string, other: nat, owner: nat)
    requires p in values && q in values && values[p] != [] && Inside(q, p)
    requires other in Intruders(values[p], values[q]) && owner in Mods(values[p])
    ensures other in Colliding(values, p) && owner in Colliding(values, p)
  {
  }

  // ---------- changelogs of documents ----------

  lemma {:induction false} CleanIsKnown(base: Tree, log: Byml)
    requires MapLog(log) && Clean(log)
    ensures RemovesKnown(base, log)
    decreases log
  {
    if log.Map? && base.PMap? {
      forall k | k in log.entries && k in base.entries
        ensures RemovesKnown(base.entries[k], log.entries[k])
      {
        CleanIsKnown(base.entries[k], log.entries[k]);
      }
    }
  }

  lemma {:induction false} MapsOnlyIsLog(node: Byml)
    requires MapsOnly(node)
    ensures MapLog(node) && Clean(node)
    decreases node
  {
    if node.Map? {
      forall k | k in node.entries
        ensures MapLog(node.entries[k]) && Clean(node.entries[k])
      {
        MapsOnlyIsLog(node.entries[k]);
      }
    }
  }

  lemma {:induction false} DiffIsLog(rules: Rules, type_: string, depth: int, src: Byml, vanilla: Byml)
    requires MapsOnly(src) && MapsOnly(vanilla)
    ensures MapLog(Diff(rules, type_, depth, src, vanilla).0) && RemovesKnown(Fresh(vanilla), Diff(rules, type_, depth, src, vanilla).0)
    decreases src
  {
    MapsOnlyIsLog(src);
    CleanIsKnown(Fresh(vanilla), src);
    if src.Map? && vanilla.Map? && src.kind == vanilla.kind {
      var log := DiffMap(rules, type_, depth, src, vanilla.entries);
      forall k | k in log
        ensures MapLog(log[k])
        ensures log[k].Map? ==> if k in vanilla.entries then RemovesKnown(Fresh(vanilla).entries[k], log[k]) else Clean(log[k])
      {
        if k in src.entries && k in vanilla.entries {
          assert DiffEntry(rules, type_, depth + 1, k, src.entries[k], vanilla.entries[k])
              == Diff(rules, type_, depth + 1, src.entries[k], vanilla.entries[k]);
          DiffIsLog(rules, type_, depth + 1, src.entries[k], vanilla.entries[k]);
        }
      }
      LogOfEntries(vanilla, Map(src.kind, log));
    }
  }

  lemma LogOfEntries(vanilla: Byml, log: Byml)
    requires vanilla.Map? && log.Map?
    requires forall k :: k in log.entries ==> MapLog(log.entries[k])
    requires forall k :: k in log.entries && log.entries[k].Map? ==>
               if k in vanilla.entries then RemovesKnown(Fresh(vanilla).entries[k], log.entries[k]) else Clean(log.entries[k])
    ensures MapLog(log) && RemovesKnown(Fresh(vanilla), log)
  {
  }

  /** What `Collector.Collect` leaves for a changelog. */
  ghost predicate CollectedFrom(row: ArrayChange -> string, log: Byml, leaves: Leaves) {
    PutIn(map[], leaves, PathValues(row, log, ""))
  }

  lemma CollectedValue(row: ArrayChange -> string, log: Byml, leaves: Leaves, pv: (string, Value))
    requires log.Map? && MapLog(log) && PlainKeys(log) && RootNamed(log) && CollectedFrom(row, log, leaves) && pv in PathValues(row, log, "")
    ensures pv.0 in leaves && leaves[pv.0] == pv.1
  {
    var p := pv.0;
    assert (p, leaves[p]) in PathValues(row, log, "") by {
      assert (p, pv.1) in PathValues(row, log, "");
    }
    OneValue(row, log, "", p, pv.1, leaves[p]);
  }

  /** The document two changelogs make, one after the other. */
  ghost function Document(c: Context, vanilla: Byml, a: Byml, b: Byml): Option<Byml> {
    Settled(c, MergeAll(c, 0, Fresh(vanilla), [a, b]))
  }

  function Changes(c: Context, mod: Byml, vanilla: Byml): Byml { Diff(c.rules, c.type_, 0, mod, vanilla).0 }

  function Numbered(leaves: seq<Leaves>): seq<(nat, Leaves)> {
    seq(|leaves|, i requires 0 <= i < |leaves| => (i, leaves[i]))
  }

  /** Any number of mods of maps and scalars with plain names, none empty at the root, and nothing reported among them. */
  ghost predicate NoneReported(c: Context, row: ArrayChange -> string, vanilla: Byml, mods: seq<Byml>, leaves: seq<Leaves>) {
    && MapsOnly(vanilla) && vanilla.Map? && |leaves| == |mods|
    && (forall i :: 0 <= i < |mods| ==> PlainMod(c, row, vanilla, mods[i], leaves[i]))
    && Reports(AllValues(Numbered(leaves)), None)
  }

  ghost predicate PlainMod(c: Context, row: ArrayChange -> string, vanilla: Byml, mod: Byml, leaves: Leaves) {
    && MapsOnly(mod) && mod.Map?
    && (var a := Changes(c, mod, vanilla); PlainKeys(a) && RootNamed(a) && CollectedFrom(row, a, leaves))
  }

  lemma ModIsLog(c: Context, row: ArrayChange -> string, vanilla: Byml, mod: Byml, leaves: Leaves)
    requires MapsOnly(vanilla) && vanilla.Map? && PlainMod(c, row, vanilla, mod, leaves)
    ensures var a := Changes(c, mod, vanilla); a.Map? && MapLog(a) && RemovesKnown(Fresh(vanilla), a)
  {
    DiffOfMapsIsMap(c, mod, vanilla);
    DiffIsLog(c.rules, c.type_, 0, mod, vanilla);
  }

  /** With nothing reported two of the mods are compatible exactly when neither has a hollow map where the other has something else. */
  lemma TwoCompatibleIff(c: Context, row: ArrayChange -> string, vanilla: Byml, mods: seq<Byml>, leaves: seq<Leaves>, i: nat, j: nat)
    requires NoneReported(c, row, vanilla, mods, leaves) && i < |mods| && j < |mods| && i != j
    ensures var a, b := Changes(c, mods[i], vanilla), Changes(c, mods[j], vanilla); Compatible(a, b) <==> NoHole(a, b)
  {
    hide Diff, PlainKeys, CollectedFrom, Reports, AllValues, MapsOnly, MapLog, RemovesKnown, PathValues, Compatible, NoHole, RootNamed, Inside;
    var a, b := Changes(c, mods[i], vanilla), Changes(c, mods[j], vanilla);
    assert PlainMod(c, row, vanilla, mods[i], leaves[i]) && PlainMod(c, row, vanilla, mods[j], leaves[j]);
    ModIsLog(c, row, vanilla, mods[i], leaves[i]);
    ModIsLog(c, row, vanilla, mods[j], leaves[j]);
    NothingReported(Numbered(leaves), i, j);
    assert Numbered(leaves)[i].1 == leaves[i] && Numbered(leaves)[j].1 == leaves[j];
    forall x, y | x in PathValues(row, a, "") && y in PathValues(row, b, "")
      ensures (x.0 == y.0 ==> x.1 == y.1) && !Inside(x.0, y.0) && !Inside(y.0, x.0)
    {
      CollectedValue(row, a, leaves[i], x);
      CollectedValue(row, b, leaves[j], y);
    }
    MapsCompatibleIff(row, a, b, "");
  }

  /** When nothing is reported, two mods that make no hollow map where the other has something else can be merged in either
      order, with the same outcome. */
  lemma UncontestedMergeEitherWay(c: Context, row: ArrayChange -> string, vanilla: Byml, mods: seq<Byml>, leaves: seq<Leaves>, i: nat, j: nat)
    requires NoneReported(c, row, vanilla, mods, leaves) && i < |mods| && j < |mods| && i != j
    requires NoHole(Changes(c, mods[i], vanilla), Changes(c, mods[j], vanilla))
    ensures var a, b := Changes(c, mods[i], vanilla), Changes(c, mods[j], vanilla);
            MergeAll(c, 0, Fresh(vanilla), [a, b]) == MergeAll(c, 0, Fresh(vanilla), [b, a])
  {
    hide MergeAll, Diff, MapsOnly, MapLog, RemovesKnown, Slots.Both, Compatible, NoHole, NoneReported;
    var a, b := Changes(c, mods[i], vanilla), Changes(c, mods[j], vanilla);
    TwoLogs(c, row, vanilla, mods, leaves, i, j);
    VanillaIsTree(c, row, vanilla, mods, leaves);
    Commute(c, 0, Fresh(vanilla), a, b);
    TwoMerged(c, Fresh(vanilla), a, b);
    TwoMerged(c, Fresh(vanilla), b, a);
  }

  lemma TwoLogs(c: Context, row: ArrayChange -> string, vanilla: Byml, mods: seq<Byml>, leaves: seq<Leaves>, i: nat, j: nat)
    requires NoneReported(c, row, vanilla, mods, leaves) && i < |mods| && j < |mods| && i != j
    ensures var a, b := Changes(c, mods[i], vanilla), Changes(c, mods[j], vanilla);
            && a.Map? && b.Map? && MapLog(a) && MapLog(b) && RemovesKnown(Fresh(vanilla), a) && RemovesKnown(Fresh(vanilla), b)
            && (Compatible(a, b) <==> NoHole(a, b))
  {
    hide Diff, MapsOnly, MapLog, RemovesKnown, Compatible, NoHole, Reports, AllValues, PlainMod;
    ModIsLog(c, row, vanilla, mods[i], leaves[i]);
    ModIsLog(c, row, vanilla, mods[j], leaves[j]);
    TwoCompatibleIff(c, row, vanilla, mods, leaves, i, j);
  }

  lemma VanillaIsTree(c: Context, row: ArrayChange -> string, vanilla: Byml, mods: seq<Byml>, leaves: seq<Leaves>)
    requires NoneReported(c, row, vanilla, mods, leaves)
    ensures Fresh(vanilla).PMap? && MapTree(Fresh(vanilla))
  {
    MapsOnlyIsLog(vanilla);
    FreshIsMapTree(vanilla);
  }

  /** When nothing is reported, two mods that can be merged in some order make the same document in either order exactly when
      neither has a hollow map where the other has something else. */
  lemma UnreportedMergeEitherWayIff(c: Context, row: ArrayChange -> string, vanilla: Byml, mods: seq<Byml>, leaves: seq<Leaves>, i: nat, j: nat)
    requires NoneReported(c, row, vanilla, mods, leaves) && i < |mods| && j < |mods| && i != j
    requires var a, b := Changes(c, mods[i], vanilla), Changes(c, mods[j], vanilla);
             Document(c, vanilla, a, b).Some? || Document(c, vanilla, b, a).Some?
    ensures var a, b := Changes(c, mods[i], vanilla), Changes(c, mods[j], vanilla);
            && (MergeAll(c, 0, Fresh(vanilla), [a, b]) == MergeAll(c, 0, Fresh(vanilla), [b, a]) <==> NoHole(a, b))
            && (Document(c, vanilla, a, b) == Document(c, vanilla, b, a) <==> NoHole(a, b))
  {
    hide MergeAll, Diff, MapsOnly, MapLog, RemovesKnown, Slots.Both, Compatible, NoHole, NoneReported, MapTree, Settle;
    var a, b := Changes(c, mods[i], vanilla), Changes(c, mods[j], vanilla);
    TwoLogs(c, row, vanilla, mods, leaves, i, j);
    VanillaIsTree(c, row, vanilla, mods, leaves);
    TwoMerged(c, Fresh(vanilla), a, b);
    TwoMerged(c, Fresh(vanilla), b, a);
    CommuteIff(c, 0, Fresh(vanilla), a, b);
  }

  lemma DiffOfMapsIsMap(c: Context, src: Byml, vanilla: Byml)
    requires src.Map? && vanilla.Map?
    ensures Diff(c.rules, c.type_, 0, src, vanilla).0.Map?
  {
  }

  lemma TwoMerged(c: Context, base: Tree, a: Byml, b: Byml)
    ensures MergeAll(c, 0, base, [a, b]) == Slots.Both(c, 0, base, a, b)
  {
    var none: seq<Byml> := [];
    assert [a, b][..1] == [a] && [a][..0] == none;
    assert MergeAll(c, 0, base, [a]) == Merge(c, 0, base, a);
  }

  // ---------- what the report does not see ----------

  lemma OneEntry(row: ArrayChange -> string, key: string, value: Byml)
    ensures PathValues(row, Map(Named, map[Name(key) := value]), "") == ChildValues(row, value, key)
  {
    var node := Map(Named, map[Name(key) := value]);
    assert Join("", KeyText(Name(key), Named)) == key;
    assert Name(key) in node.entries && node.entries[Name(key)] == value;
  }

  /** An added empty map has no values: one mod sets a key to an empty map, the other to a number,
      nothing is reported, and the last one merged wins. */
  lemma EmptyMapUnseen(c: Context, row: ArrayChange -> string, key: string, number: int)
    ensures var a, b := Map(Named, map[Name(key) := Map(Named, map[])]), Map(Named, map[Name(key) := Leaf(Int(number))]);
            var base := Fresh(Map(Named, map[Name(key) := NULL]));
            CollectedFrom(row, a, map[]) && CollectedFrom(row, b, map[key := Set(Leaf(Int(number)))])
            && Reports(AllValues([(0, map[]), (1, map[key := Set(Leaf(Int(number)))])]), None)
            && MergeAll(c, 0, base, [a, b]) != MergeAll(c, 0, base, [b, a])
  {
    hide MergeAll, PathValues, ChildValues, Reports, AllValues, CollectedFrom;
    var lb: Leaves := map[key := Set(Leaf(Int(number)))];
    OneEntry(row, key, Map(Named, map[]));
    OneEntry(row, key, Leaf(Int(number)));
    OnePath(row, Leaf(Int(number)), key, key, Leaf(Int(number)));
    CollectedNone(row, Map(Named, map[Name(key) := Map(Named, map[])]), key);
    CollectedOne(row, Map(Named, map[Name(key) := Leaf(Int(number))]), key, Set(Leaf(Int(number))));
    OnePathReport(map[], lb, key);
    LastMatters(c, key, Map(Named, map[]), Leaf(Int(number)));
  }

  /** Merging two values for one key that held a scalar. */
  lemma LastWins(c: Context, key: string, x: Byml, y: Byml)
    requires !x.IsRemove() && !y.IsRemove() && !(x.IsContainer() && y.IsContainer()) && !x.ArrayLog? && !y.ArrayLog?
    ensures var base := Fresh(Map(Named, map[Name(key) := NULL]));
            MergeAll(c, 0, base, [Map(Named, map[Name(key) := x]), Map(Named, map[Name(key) := y])])
            == Some(PMap(Named, map[Name(key) := Fresh(y)], {}))
  {
    var k := Name(key);
    var base, a, b := Fresh(Map(Named, map[k := NULL])), Map(Named, map[k := x]), Map(Named, map[k := y]);
    TwoMerged(c, base, a, b);
    SetOne(c, k, NULL, x);
    SetOne(c, k, x, y);
  }

  lemma LastMatters(c: Context, key: string, x: Byml, y: Byml)
    requires x.Map? && y.Leaf?
    ensures var base, a, b := Fresh(Map(Named, map[Name(key) := NULL])), Map(Named, map[Name(key) := x]), Map(Named, map[Name(key) := y]);
            MergeAll(c, 0, base, [a, b]) != MergeAll(c, 0, base, [b, a])
  {
    hide MergeAll;
    LastWins(c, key, x, y);
    LastWins(c, key, y, x);
    assert map[Name(key) := Fresh(x)][Name(key)] != map[Name(key) := Fresh(y)][Name(key)];
  }

  lemma SetOne(c: Context, k: Key, old_: Byml, now: Byml)
    requires !now.IsRemove() && !now.ArrayLog? && !(old_.IsContainer() && now.IsContainer())
    ensures Merge(c, 0, PMap(Named, map[k := Fresh(old_)], {}), Map(Named, map[k := now])) == Some(PMap(Named, map[k := Fresh(now)], {}))
    ensures Fresh(Map(Named, map[k := old_])) == PMap(Named, map[k := Fresh(old_)], {})
  {
    var base, log := PMap(Named, map[k := Fresh(old_)], {}), Map(Named, map[k := now]);
    assert MergeEntry(c, 1, k, Fresh(old_), now) == Some(Fresh(now));
    Slots.MergeByKey(c, 0, base, log);
    var r := Merge(c, 0, base, log);
    forall j
      ensures Slots.Step(c, 1, j, Slots.SlotAt(base, j), Get(log.entries, j)) == Some(Slots.SlotAt(PMap(Named, map[k := Fresh(now)], {}), j))
    {
    }
    if r.Some? {
      forall j ensures Slots.SlotAt(r.value, j) == Slots.SlotAt(PMap(Named, map[k := Fresh(now)], {}), j) {
        assert Slots.Step(c, 1, j, Slots.SlotAt(base, j), Get(log.entries, j)) == Some(Slots.SlotAt(r.value, j));
      }
      Slots.SameSlots(r.value, PMap(Named, map[k := Fresh(now)], {}));
    }
  }

  /** An empty name at the root hides what is inside: one mod sets the name to a number, the other sets something inside it,
      nothing is reported, and the last one merged wins. */
  lemma EmptyNameUnseen(c: Context, row: ArrayChange -> string, name: string, number: int)
    requires name != "" && SlashFree(name)
    ensures var inner := Map(Named, map[Name(name) := Leaf(Int(number))]);
            var a, b := Map(Named, map[Name("") := inner]), Map(Named, map[Name("") := Leaf(Int(number))]);
            var la: Leaves, lb: Leaves := map[name := Set(Leaf(Int(number)))], map["" := Set(Leaf(Int(number)))];
            var base := Fresh(Map(Named, map[Name("") := NULL]));
            CollectedFrom(row, a, la) && CollectedFrom(row, b, lb) && Reports(AllValues([(0, la), (1, lb)]), None)
            && MergeAll(c, 0, base, [a, b]) != MergeAll(c, 0, base, [b, a])
  {
    hide MergeAll, PathValues, ChildValues, Reports, AllValues, CollectedFrom;
    var value := Leaf(Int(number));
    var inner := Map(Named, map[Name(name) := value]);
    OneEntry(row, "", inner);
    OneEntry(row, name, value);
    OneEntry(row, "", value);
    OnePath(row, inner, "", name, value);
    OnePath(row, value, name, name, value);
    OnePath(row, value, "", "", value);
    CollectedOne(row, Map(Named, map[Name("") := inner]), name, Set(value));
    CollectedOne(row, Map(Named, map[Name("") := value]), "", Set(value));
    TwoPathsReport(map[name := Set(value)], map["" := Set(value)], name);
    LastMatters(c, "", inner, value);
  }

  /** The path of a value, or of what an empty name holds. */
  lemma OnePath(row: ArrayChange -> string, node: Byml, path: string, name: string, value: Byml)
    requires value.Leaf? && ((node == value && path == name) || (path == "" && node == Map(Named, map[Name(name) := value])))
    ensures ChildValues(row, node, path) == {(name, Set(value))}
  {
    if node != value { OneEntry(row, name, value); }
  }

  lemma CollectedNone(row: ArrayChange -> string, log: Byml, key: string)
    requires PathValues(row, log, "") == ChildValues(row, Map(Named, map[]), key)
    ensures CollectedFrom(row, log, map[])
  {
    assert ChildValues(row, Map(Named, map[]), key) == {};
  }

  lemma CollectedOne(row: ArrayChange -> string, log: Byml, path: string, value: Value)
    requires PathValues(row, log, "") == {(path, value)}
    ensures CollectedFrom(row, log, map[path := value])
  {
    hide PathValues;
  }

  lemma TwoPathsReport(a: Leaves, b: Leaves, name: string)
    requires a.Keys == {name} && b.Keys == {""} && name != "" && SlashFree(name)
    ensures Reports(AllValues([(0, a), (1, b)]), None)
  {
    hide Overruled, Intruders;
    var values := AllValues([(0, a), (1, b)]);
    TwoMods(a, b);
    assert values.Keys == {name, ""};
    assert values[""] == BothSetters(a, b, "") == [(1, b[""])] && values[name] == BothSetters(a, b, name) == [(0, a[name])];
    forall p, q | p in values && q in values ensures !Inside(q, p) { }
    AloneIsClear(values, "");
    AloneIsClear(values, name);
    ClearReport(values, "", name);
  }

  lemma ClearReport(values: map<string, Setters>, p: string, q: string)
    requires Less(p, q) && values.Keys == {p, q} && values[p] != [] && values[q] != []
    requires Colliding(values, p) == {} && Colliding(values, q) == {}
    ensures Reports(values, None)
  {
    hide Colliding;
    var paths := [p, q];
    assert paths[..1] == [p] && paths[..1][..0] == [];
    assert Contested(values, paths[..1][..0]) == [] && Contested(values, paths[..1]) == [];
    assert Contested(values, paths) == [];
    assert Ordered(paths, values);
    assert ReportOf(values, paths) == None;
  }

  lemma AloneIsClear(values: map<string, Setters>, path: string)
    requires path in values && |values[path]| == 1 && forall q :: q in values ==> !Inside(q, path)
    ensures Colliding(values, path) == {}
  {
    assert Winner(values[path]) == values[path][0];
  }

  // ---------- names with a slash ----------

  /** A map with a number under two names, and one beside it whose name is the path of that number. */
  function Slashed(inner: int, beside: int): Byml {
    Map(Named, map[Name("a") := Map(Named, map[Name("b") := Leaf(Int(inner))]), Name("a/b") := Leaf(Int(beside))])
  }

  /** A name with a slash hides what has the same path: of a mod's two values one is collected, so two mods that differ in the
      other are not seen to collide, and the last one merged wins. */
  lemma SlashUnseen(c: Context, row: ArrayChange -> string)
    ensures var a, b, base := Slashed(1, 2), Slashed(3, 2), Fresh(Slashed(0, 0));
            var leaves: Leaves := map["a/b" := Set(Leaf(Int(2)))];
            CollectedFrom(row, a, leaves) && CollectedFrom(row, b, leaves) && Reports(AllValues([(0, leaves), (1, leaves)]), None)
            && MergeAll(c, 0, base, [a, b]) != MergeAll(c, 0, base, [b, a])
  {
    hide MergeAll, PathValues, Reports, AllValues, CollectedFrom, Fresh, MapTree, MapLog, RemovesKnown, Compatible;
    var a, b, base := Slashed(1, 2), Slashed(3, 2), Fresh(Slashed(0, 0));
    SlashedValues(row, 1, 2);
    SlashedValues(row, 3, 2);
    SamePathReport("a/b", Set(Leaf(Int(2))));
    SlashedLogs(1, 2, 3, 2);
    SlashedMerges(c, a, b);
    CommuteIff(c, 0, base, a, b);
    TwoMerged(c, base, a, b);
    TwoMerged(c, base, b, a);
  }

  lemma EntryFor(row: ArrayChange -> string, node: Byml, path: string, pv: (string, Value)) returns (k: Key)
    requires node.Map? && pv in ChildValues(row, node, path)
    ensures k in node.entries && pv in ChildValues(row, node.entries[k], Join(path, KeyText(k, node.kind)))
  {
    k :| k in node.entries && pv in ChildValues(row, node.entries[k], Join(path, KeyText(k, node.kind)));
  }

  lemma SlashedValues(row: ArrayChange -> string, inner: int, beside: int)
    ensures CollectedFrom(row, Slashed(inner, beside), map["a/b" := Set(Leaf(Int(beside)))])
  {
    var node, child := Slashed(inner, beside), Map(Named, map[Name("b") := Leaf(Int(inner))]);
    assert Join("", KeyText(Name("a/b"), Named)) == "a/b" && Join("", KeyText(Name("a"), Named)) == "a";
    assert Join("a", KeyText(Name("b"), Named)) == "a/b";
    assert Name("a/b") in node.entries && ("a/b", Set(Leaf(Int(beside)))) in ChildValues(row, node.entries[Name("a/b")], "a/b");
    forall pv | pv in PathValues(row, node, "")
      ensures pv.0 == "a/b"
    {
      var k := EntryFor(row, node, "", pv);
      if k == Name("a") {
        var l := EntryFor(row, child, "a", pv);
        assert ChildValues(row, Leaf(Int(inner)), "a/b") == {("a/b", Set(Leaf(Int(inner))))};
      } else {
        assert ChildValues(row, Leaf(Int(beside)), "a/b") == {("a/b", Set(Leaf(Int(beside))))};
      }
    }
  }

  lemma SlashedLogs(inner: int, beside: int, inner': int, beside': int)
    requires inner != inner'
    ensures var a, b, base := Slashed(inner, beside), Slashed(inner', beside'), Fresh(Slashed(0, 0));
            && base.PMap? && MapTree(base) && MapLog(a) && MapLog(b) && RemovesKnown(base, a) && RemovesKnown(base, b) && !Compatible(a, b)
  {
    hide Compatible, MapLog, MapTree, RemovesKnown, Clean;
    SlashedDiffer(inner, beside, inner', beside');
    SlashedIsLog(inner, beside);
    SlashedIsLog(inner', beside');
    SlashedIsLog(0, 0);
    FreshIsMapTree(Slashed(0, 0));
    CleanIsKnown(Fresh(Slashed(0, 0)), Slashed(inner, beside));
    CleanIsKnown(Fresh(Slashed(0, 0)), Slashed(inner', beside'));
  }

  lemma SlashedDiffer(inner: int, beside: int, inner': int, beside': int)
    requires inner != inner'
    ensures !Compatible(Slashed(inner, beside), Slashed(inner', beside'))
  {
    var k, i := Name("a"), Name("b");
    var a, b := Slashed(inner, beside), Slashed(inner', beside');
    assert k in a.entries && k in b.entries && i in a.entries[k].entries && i in b.entries[k].entries;
    assert !Compatible(a.entries[k].entries[i], b.entries[k].entries[i]);
    assert !Compatible(a.entries[k], b.entries[k]);
  }

  lemma SlashedIsLog(inner: int, beside: int)
    ensures MapLog(Slashed(inner, beside)) && Clean(Slashed(inner, beside))
  {
  }

  lemma SlashedMerges(c: Context, a: Byml, b: Byml)
    requires exists x, y, x', y' :: a == Slashed(x, y) && b == Slashed(x', y')
    ensures Slots.Both(c, 0, Fresh(Slashed(0, 0)), a, b).Some?
  {
    hide Slots.Both, Slots.Step, Merge, MergeEntry;
    var k, base := Name("a"), Fresh(Slashed(0, 0));
    InnerMerges(c, a.entries[k], b.entries[k]);
    assert base.entries[k] == PMap(Named, map[Name("b") := Plain(Leaf(Int(0)))], {});
    Slots.BothByKey(c, 0, base, a, b);
    forall j
      ensures Slots.BothSteps(c, 1, j, Slots.SlotAt(base, j), Get(a.entries, j), Get(b.entries, j)).Some?
    {
      if j == k {
        assert Slots.SlotAt(base, j).value == Some(base.entries[k]);
        StepsAreMerges(c, 1, j, Slots.SlotAt(base, j), a.entries[j], b.entries[j]);
      } else if j == Name("a/b") {
        LeavesStay(c, 1, j, Slots.SlotAt(base, j), a.entries[j], b.entries[j]);
      } else {
        NothingSaid(c, 1, j, Slots.SlotAt(base, j));
      }
    }
  }

  lemma InnerMerges(c: Context, a: Byml, b: Byml)
    requires a.Map? && b.Map? && a.kind == b.kind == Named && a.entries.Keys == b.entries.Keys == {Name("b")}
    requires a.entries[Name("b")].Leaf? && b.entries[Name("b")].Leaf?
    ensures Slots.Both(c, 1, PMap(Named, map[Name("b") := Plain(Leaf(Int(0)))], {}), a, b).Some?
  {
    hide Slots.Both, Slots.Step, Merge, MergeEntry;
    var base: Tree := PMap(Named, map[Name("b") := Plain(Leaf(Int(0)))], {});
    Slots.BothByKey(c, 1, base, a, b);
    forall j
      ensures Slots.BothSteps(c, 2, j, Slots.SlotAt(base, j), Get(a.entries, j), Get(b.entries, j)).Some?
    {
      if j == Name("b") {
        LeavesStay(c, 2, j, Slots.SlotAt(base, j), a.entries[j], b.entries[j]);
      } else {
        assert j !in a.entries.Keys && j !in b.entries.Keys;
        NothingSaid(c, 2, j, Slots.SlotAt(base, j));
      }
    }
  }

  lemma LeavesStay(c: Context, depth: int, key: Key, slot: Slots.Slot, a: Byml, b: Byml)
    requires a.Leaf? && b.Leaf?
    ensures Slots.BothSteps(c, depth, key, slot, Some(a), Some(b)).Some?
  {
    LeafStays(c, depth, key, slot, a);
    LeafStays(c, depth, key, Slots.Slot(Some(Plain(a)), false), b);
  }

  lemma NothingSaid(c: Context, depth: int, key: Key, slot: Slots.Slot)
    ensures Slots.BothSteps(c, depth, key, slot, None, None).Some?
  {
  }

  lemma SamePathReport(key: string, value: Value)
    ensures Reports(AllValues([(0, map[key := value]), (1, map[key := value])]), None)
  {
    hide Colliding;
    var a: Leaves := map[key := value];
    var values := AllValues([(0, a), (1, a)]);
    TwoMods(a, a);
    assert values.Keys == {key} && values[key] == BothSetters(a, a, key) == [(0, value), (1, value)];
    AgreeingIsClear(values, key, value);
    var paths := [key];
    assert paths[..0] == [] && Contested(values, paths[..0]) == [];
    assert Ordered(paths, values);
    assert ReportOf(values, paths) == None;
  }

  lemma AgreeingIsClear(values: map<string, Setters>, key: string, value: Value)
    requires values.Keys == {key} && values[key] == [(0, value), (1, value)]
    ensures Colliding(values, key) == {}
  {
    assert Winner(values[key]).1 == value;
    assert forall q :: q in values ==> q == key;
  }

  lemma OnePathReport(a: Leaves, b: Leaves, key: string)
    requires a == map[] && b.Keys == {key}
    ensures Reports(AllValues([(0, a), (1, b)]), None)
  {
    var values := AllValues([(0, a), (1, b)]);
    TwoMods(a, b);
    assert values.Keys == {key} && values[key] == BothSetters(a, b, key) == [(1, b[key])];
    assert Winner(values[key]) == (1, b[key]);
    assert Colliding(values, key) == {};
    var paths := [key];
    assert paths[..0] == [] && Contested(values, paths[..0]) == [];
    assert Ordered(paths, values);
    assert ReportOf(values, paths) == None;
  }
}
