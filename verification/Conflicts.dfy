/** Which mods set the same values differently: the values of a changelog by path, and a scan over all
    mods' paths in order that stops early. */
module Conflicts {
  import opened Documents

  /** What a changelog does to the value at a path.  Hashes of values are taken to be injective. */
  datatype Value = Set(node: Byml) | Gone

  type Leaves = map<string, Value>

  function Join(path: string, segment: string): string {
    if path == "" then segment else path + "/" + segment
  }

  function HexDigit(digit: nat): char
    requires digit < 16
  {
    "0123456789abcdef"[digit]
  }

  function Hex(value: nat): string {
    if value < 16 then [HexDigit(value)] else Hex(value / 16) + [HexDigit(value % 16)]
  }

  function Pad(text: string, width: nat): string
    decreases width - |text|
  {
    if |text| >= width then text else Pad("0" + text, width)
  }

  function KeyText(key: Key, kind: Kind): string {
    match key
    case Name(text) => text
    case Hash(value) => Pad(Hex(value), if kind == Hashed32 then 8 else 16)
  }

  // ---------- the values of a changelog ----------

  /** Every value of a changelog with its path; rows are named by `row`. */
  ghost function PathValues(row: ArrayChange -> string, node: Byml, path: string): set<(string, Value)>
    decreases node, 0
  {
    match node
    case Map(kind, entries) =>
      set k, pv | k in entries && pv in ChildValues(row, entries[k], Join(path, KeyText(k, kind))) :: pv
    case ArrayLog(changes) =>
      set i, pv | 0 <= i < |changes| && pv in ChangeValues(row, changes[i], path) :: pv
    case _ => {(path, Set(node))}
  }

  ghost function ChildValues(row: ArrayChange -> string, node: Byml, path: string): set<(string, Value)>
    decreases node, 1
  {
    if node.IsRemove() then {(path, Gone)} else PathValues(row, node, path)
  }

  ghost function ChangeValues(row: ArrayChange -> string, change: ArrayChange, path: string): set<(string, Value)>
    decreases change, 0
  {
    match change.change
    case Add => {}
    case Remove => {(Join(path, row(change)), Gone)}
    case Edit => ChildValues(row, change.node, Join(path, row(change)))
  }

  ghost function EntryValues(row: ArrayChange -> string, node: Byml, path: string, keys: set<Key>): set<(string, Value)>
    requires node.Map? && keys <= node.entries.Keys
  {
    set k, pv | k in keys && pv in ChildValues(row, node.entries[k], Join(path, KeyText(k, node.kind))) :: pv
  }

  ghost function ChangesValues(row: ArrayChange -> string, changes: seq<ArrayChange>, path: string, n: nat): set<(string, Value)>
    requires n <= |changes|
  {
    set i, pv | 0 <= i < n && pv in ChangeValues(row, changes[i], path) :: pv
  }

  lemma OneMoreEntry(row: ArrayChange -> string, node: Byml, path: string, keys: set<Key>, key: Key)
    requires node.Map? && keys <= node.entries.Keys && key in node.entries
    ensures EntryValues(row, node, path, keys + {key})
            == EntryValues(row, node, path, keys) + ChildValues(row, node.entries[key], Join(path, KeyText(key, node.kind)))
  {
  }

  lemma AllEntries(row: ArrayChange -> string, node: Byml, path: string)
    requires node.Map?
    ensures EntryValues(row, node, path, node.entries.Keys) == PathValues(row, node, path)
  {
  }

  lemma OneMoreChange(row: ArrayChange -> string, changes: seq<ArrayChange>, path: string, n: nat)
    requires n < |changes|
    ensures ChangesValues(row, changes, path, n + 1) == ChangesValues(row, changes, path, n) + ChangeValues(row, changes[n], path)
  {
    forall pv
      ensures pv in ChangesValues(row, changes, path, n + 1) <==>
                pv in ChangesValues(row, changes, path, n) || pv in ChangeValues(row, changes[n], path)
    {
      if pv in ChangeValues(row, changes[n], path) {
        assert 0 <= n < n + 1 && pv in ChangeValues(row, changes[n], path);
      }
    }
  }

  lemma AllChanges(row: ArrayChange -> string, changes: seq<ArrayChange>, path: string)
    ensures ChangesValues(row, changes, path, |changes|) == PathValues(row, ArrayLog(changes), path)
  {
  }

  /** `after` is `before` with these values put in, one after the other in some order. */
  ghost predicate PutIn(before: Leaves, after: Leaves, values: set<(string, Value)>) {
    && (forall pv :: pv in values ==> pv.0 in after)
    && forall p :: if p in after && (p, after[p]) in values then true
                   else Get(after, p) == Get(before, p) && forall v :: (p, v) !in values
  }

  lemma PutInBoth(a: Leaves, b: Leaves, c: Leaves, first: set<(string, Value)>, second: set<(string, Value)>)
    requires PutIn(a, b, first) && PutIn(b, c, second)
    ensures PutIn(a, c, first + second)
  {
    forall p
      ensures if p in c && (p, c[p]) in first + second then true
              else Get(c, p) == Get(a, p) && forall v :: (p, v) !in first + second
      ensures (exists v :: (p, v) in first + second) ==> p in c
    {
      if p in c && (p, c[p]) in second {
      } else {
        assert Get(c, p) == Get(b, p);
      }
    }
    forall pv | pv in first + second
      ensures pv.0 in c
    {
      assert (pv.0, pv.1) in first + second;
    }
  }

  class Collector {
    const row: ArrayChange -> string
    var path: string
    var leaves: Leaves

    constructor (row: ArrayChange -> string)
      ensures this.row == row && path == "" && leaves == map[]
    {
      this.row, path, leaves := row, "", map[];
    }

    method Collect(node: Byml)
      modifies this
      ensures path == old(path) && PutIn(old(leaves), leaves, PathValues(row, node, path))
      decreases node, 0
    {
      match node {
        case Map(kind, entries) =>
          var todo := entries.Keys;
          while todo != {}
            invariant todo <= entries.Keys && path == old(path)
            invariant PutIn(old(leaves), leaves, EntryValues(row, node, path, entries.Keys - todo))
            decreases |todo|
          {
            var key :| key in todo;
            ghost var before := leaves;
            Child(KeyText(key, kind), entries[key]);
            PutInBoth(old(leaves), before, leaves, EntryValues(row, node, path, entries.Keys - todo),
                      ChildValues(row, entries[key], Join(path, KeyText(key, kind))));
            OneMoreEntry(row, node, path, entries.Keys - todo, key);
            assert entries.Keys - (todo - {key}) == entries.Keys - todo + {key};
            todo := todo - {key};
          }
          AllEntries(row, node, path);
          assert entries.Keys - todo == entries.Keys;
        case ArrayLog(changes) =>
          var i := 0;
          while i < |changes|
            invariant 0 <= i <= |changes| && path == old(path)
            invariant PutIn(old(leaves), leaves, ChangesValues(row, changes, path, i))
          {
            ghost var before := leaves;
            match changes[i].change {
              case Add =>
              case Remove => leaves := leaves[Join(path, row(changes[i])) := Gone];
              case Edit => Child(row(changes[i]), changes[i].node);
            }
            PutInBoth(old(leaves), before, leaves, ChangesValues(row, changes, path, i), ChangeValues(row, changes[i], path));
            OneMoreChange(row, changes, path, i);
            i := i + 1;
          }
          AllChanges(row, changes, path);
        case _ =>
          leaves := leaves[path := Set(node)];
      }
    }

    /** The path is lengthened for the child and cut back after it. */
    method Child(segment: string, value: Byml)
      modifies this
      ensures path == old(path) && PutIn(old(leaves), leaves, ChildValues(row, value, Join(path, segment)))
      decreases value, 1
    {
      var length := |path|;
      if path != "" {
        path := path + "/";
      }
      path := path + segment;
      if value.IsRemove() {
        leaves := leaves[path := Gone];
      } else {
        Collect(value);
      }
      path := path[..length];
    }
  }

  // ---------- the order of paths ----------

  predicate Less(a: string, b: string) {
    b != "" && (a == "" || a[0] < b[0] || (a[0] == b[0] && Less(a[1..], b[1..])))
  }

  lemma {:induction false} LessTrans(a: string, b: string, c: string)
    requires Less(a, b) && Less(b, c)
    ensures Less(a, c)
  {
    if a != "" && a[0] == b[0] == c[0] {
      LessTrans(a[1..], b[1..], c[1..]);
    }
  }

  lemma {:induction false} LessTotal(a: string, b: string)
    ensures Less(a, b) || Less(b, a) || a == b
    ensures !(Less(a, b) && (Less(b, a) || a == b))
  {
    if a != "" && b != "" {
      LessTotal(a[1..], b[1..]);
      assert a == [a[0]] + a[1..] && b == [b[0]] + b[1..];
    }
  }

  lemma {:induction false} PrefixLess(a: string, b: string)
    requires a < b
    ensures Less(a, b)
  {
    if a != "" {
      assert a[1..] < b[1..];
      PrefixLess(a[1..], b[1..]);
    }
  }

  /** Paths that start with `a` follow it without a gap. */
  lemma {:induction false} PrefixBetween(a: string, b: string, c: string)
    requires a <= c && Less(a, b) && Less(b, c)
    ensures a <= b
  {
    if a != "" {
      assert a[1..] <= c[1..];
      if a[0] == b[0] {
        PrefixBetween(a[1..], b[1..], c[1..]);
      }
    }
  }

  ghost predicate Increasing(paths: seq<string>) {
    forall i, j :: 0 <= i < j < |paths| ==> Less(paths[i], paths[j])
  }

  // ---------- collisions ----------

  /** What each mod sets at a path, lowest priority first. */
  type Setters = seq<(nat, Value)>

  /** The last of those with the highest number. */
  function Winner(set': Setters): (winner: (nat, Value))
    requires set' != []
    ensures winner in set' && forall s :: s in set' ==> s.0 <= winner.0
  {
    if |set'| == 1 then set'[0]
    else
      var before := Winner(set'[..|set'| - 1]);
      var last := set'[|set'| - 1];
      assert forall s :: s in set' ==> s in set'[..|set'| - 1] || s == last;
      if before.0 <= last.0 then last else before
  }

  predicate Inside(inner: string, path: string) {
    path < inner && inner[|path|] == '/'
  }

  ghost function Mods(set': Setters): set<nat> {
    set i | 0 <= i < |set'| :: set'[i].0
  }

  /** The mods that lose a value at the path, with the one that sets it. */
  ghost function Overruled(set': Setters): set<nat>
    requires set' != []
  {
    var losers := set i | 0 <= i < |set'| && set'[i].1 != Winner(set').1 :: set'[i].0;
    if losers == {} then {} else losers + {Winner(set').0}
  }

  /** The mods that set something inside, when another mod sets the path itself. */
  ghost function Intruders(set': Setters, inner: Setters): set<nat> {
    set i, j | 0 <= i < |inner| && 0 <= j < |set'| && set'[j].0 != inner[i].0 :: inner[i].0
  }

  /** All pairs of paths compared: who collides at `path`. */
  ghost function Colliding(values: map<string, Setters>, path: string): set<nat>
    requires path in values && values[path] != []
  {
    var intruders := set inner, m | inner in values && Inside(inner, path) && m in Intruders(values[path], values[inner]) :: m;
    Overruled(values[path]) + if intruders == {} then {} else intruders + Mods(values[path])
  }

  // ---------- the scan ----------

  datatype Report = Report(involved: set<nat>, count: nat, samples: seq<string>)

  const SAMPLES := 3

  /** All mods' values together: every path with who sets it to what, in the order of the mods. */
  method GatherValues(sets: seq<(nat, Leaves)>) returns (values: map<string, Setters>)
    ensures values == AllValues(sets)
  {
    values := map[];
    var i := 0;
    while i < |sets|
      invariant 0 <= i <= |sets| && values == AllValues(sets[..i])
    {
      assert sets[..i + 1][..i] == sets[..i];
      values := GatherOne(values, sets[i].0, sets[i].1);
      i := i + 1;
    }
    assert sets[..i] == sets;
  }

  method GatherOne(before: map<string, Setters>, index: nat, leaves: Leaves) returns (values: map<string, Setters>)
    ensures values == WithLeaves(before, index, leaves)
  {
    values := before;
    var todo := leaves.Keys;
    ghost var done: set<string> := {};
    NoPathYet(before, index, leaves);
    while todo != {}
      invariant Divided(leaves.Keys, todo, done) && values == WithSome(before, index, leaves, done)
      decreases |todo|
    {
      var path :| path in todo;
      MoveOne(leaves.Keys, todo, done, path);
      OneMorePath(before, index, leaves, done, path);
      var setters := if path in values then values[path] else [];
      values := values[path := setters + [(index, leaves[path])]];
      done := done + {path};
      todo := todo - {path};
    }
    AllMoved(leaves.Keys, todo, done);
  }

  ghost predicate Divided(all: set<string>, todo: set<string>, done: set<string>) {
    todo <= all && done <= all && forall p :: p in all ==> (p in todo) != (p in done)
  }

  lemma MoveOne(all: set<string>, todo: set<string>, done: set<string>, path: string)
    requires Divided(all, todo, done) && path in todo
    ensures path in all && path !in done && done <= all && Divided(all, todo - {path}, done + {path})
  {
  }

  lemma AllMoved(all: set<string>, todo: set<string>, done: set<string>)
    requires Divided(all, todo, done) && todo == {}
    ensures done == all
  {
  }

  function WithSome(before: map<string, Setters>, index: nat, leaves: Leaves, some: set<string>): map<string, Setters>
    requires some <= leaves.Keys
  {
    map p | p in before.Keys + some :: Old(before, p) + if p in some then [(index, leaves[p])] else []
  }

  lemma NoPathYet(before: map<string, Setters>, index: nat, leaves: Leaves)
    ensures WithSome(before, index, leaves, {}) == before
  {
    forall p | p in before
      ensures Old(before, p) + [] == before[p]
    {
    }
  }

  lemma OneMorePath(before: map<string, Setters>, index: nat, leaves: Leaves, some: set<string>, path: string)
    requires some <= leaves.Keys && path in leaves && path !in some
    ensures var values := WithSome(before, index, leaves, some);
            WithSome(before, index, leaves, some + {path}) == values[path := Old(values, path) + [(index, leaves[path])]]
  {
    var values := WithSome(before, index, leaves, some);
    assert Old(values, path) == Old(before, path) by {
      if path in before { assert Old(before, path) + [] == Old(before, path); }
    }
  }

  function WithLeaves(before: map<string, Setters>, index: nat, leaves: Leaves): map<string, Setters> {
    WithSome(before, index, leaves, leaves.Keys)
  }

  function Old(values: map<string, Setters>, p: string): Setters { if p in values then values[p] else [] }

  function AllValues(sets: seq<(nat, Leaves)>): map<string, Setters> {
    if sets == [] then map[]
    else
      WithLeaves(AllValues(sets[..|sets| - 1]), sets[|sets| - 1].0, sets[|sets| - 1].1)
  }

  lemma {:induction false} NoEmptySetters(sets: seq<(nat, Leaves)>)
    ensures forall p :: p in AllValues(sets) ==> AllValues(sets)[p] != []
  {
    if sets != [] {
      NoEmptySetters(sets[..|sets| - 1]);
    }
  }

  /** The paths in order. */
  method SortPaths(paths: set<string>) returns (sorted: seq<string>)
    ensures Increasing(sorted) && forall p :: p in sorted <==> p in paths
  {
    sorted := [];
    var todo := paths;
    while todo != {}
      invariant todo <= paths && Increasing(sorted) && forall p :: p in sorted <==> p in paths && p !in todo
      decreases |todo|
    {
      var path :| path in todo;
      var i := 0;
      while i < |sorted| && Less(sorted[i], path)
        invariant 0 <= i <= |sorted| && forall j :: 0 <= j < i ==> Less(sorted[j], path)
      {
        i := i + 1;
      }
      InsertIncreasing(sorted, i, path);
      sorted := sorted[..i] + [path] + sorted[i..];
      todo := todo - {path};
    }
  }

  lemma InsertIncreasing(sorted: seq<string>, i: nat, path: string)
    requires i <= |sorted| && Increasing(sorted) && path !in sorted
    requires (forall j :: 0 <= j < i ==> Less(sorted[j], path)) && (i < |sorted| ==> !Less(sorted[i], path))
    ensures Increasing(sorted[..i] + [path] + sorted[i..])
    ensures forall p :: p in sorted[..i] + [path] + sorted[i..] <==> p in sorted || p == path
  {
    forall j | i <= j < |sorted|
      ensures Less(path, sorted[j])
    {
      LessTotal(sorted[i], path);
      if i < j { LessTrans(path, sorted[i], sorted[j]); }
    }
    assert sorted == sorted[..i] + sorted[i..];
  }

  /** The mods found colliding with `path` among the first paths. */
  ghost function Found(values: map<string, Setters>, path: string, paths: seq<string>, n: nat): set<nat>
    requires n <= |paths| && path in values && forall p :: p in paths ==> p in values
  {
    set k, m | 0 <= k < n && Inside(paths[k], path) && m in Intruders(values[path], values[paths[k]]) :: m
  }

  ghost function WithOwners(found: set<nat>, set': Setters): set<nat> {
    if found == {} then {} else found + Mods(set')
  }

  /** The mods of `inner` that another mod of `set'` sets the path around. */
  method CollectIntruders(set': Setters, inner: Setters) returns (colliding: set<nat>)
    ensures colliding == WithOwners(Intruders(set', inner), set')
  {
    colliding := {};
    ghost var found: set<nat> := {};
    var i := 0;
    while i < |inner|
      invariant 0 <= i <= |inner| && colliding == WithOwners(found, set')
      invariant found == Intruders(set', inner[..i])
    {
      var other, owners := OtherOwner(set', inner[i].0);
      IntrudersMore(set', inner, i);
      if other {
        colliding := colliding + {inner[i].0} + owners;
        found := found + {inner[i].0};
      }
      i := i + 1;
    }
    assert inner[..i] == inner;
  }

  method OtherOwner(set': Setters, index: nat) returns (other: bool, owners: set<nat>)
    ensures other <==> exists j :: 0 <= j < |set'| && set'[j].0 != index
    ensures owners == Mods(set')
  {
    other, owners := false, {};
    var j := 0;
    while j < |set'|
      invariant 0 <= j <= |set'| && (other <==> exists k :: 0 <= k < j && set'[k].0 != index)
      invariant owners == set k | 0 <= k < j :: set'[k].0
    {
      other := other || set'[j].0 != index;
      owners := owners + {set'[j].0};
      j := j + 1;
    }
  }

  lemma IntrudersMore(set': Setters, inner: Setters, i: nat)
    requires i < |inner|
    ensures Intruders(set', inner[..i + 1])
            == Intruders(set', inner[..i]) + if exists j :: 0 <= j < |set'| && set'[j].0 != inner[i].0 then {inner[i].0} else {}
  {
    var more := inner[..i + 1];
    forall m
      ensures m in Intruders(set', more) <==>
                m in Intruders(set', inner[..i]) || (m == inner[i].0 && exists j :: 0 <= j < |set'| && set'[j].0 != inner[i].0)
    {
      if m in Intruders(set', inner[..i]) {
        var k, j :| 0 <= k < |inner[..i]| && 0 <= j < |set'| && set'[j].0 != inner[..i][k].0 && m == inner[..i][k].0;
        assert more[k] == inner[..i][k];
      }
      if m in Intruders(set', more) {
        var k, j :| 0 <= k < |more| && 0 <= j < |set'| && set'[j].0 != more[k].0 && m == more[k].0;
        assert k < i ==> inner[..i][k] == more[k];
      }
      if m == inner[i].0 && exists j :: 0 <= j < |set'| && set'[j].0 != inner[i].0 {
        var j :| 0 <= j < |set'| && set'[j].0 != inner[i].0;
        assert more[i] == inner[i] && set'[j].0 != more[i].0;
      }
    }
  }

  /** Who sets the path to something else than the winner does. */
  method CollectOverruled(set': Setters) returns (colliding: set<nat>)
    requires set' != []
    ensures colliding == Overruled(set')
  {
    var (winner, winning) := Winner(set');
    colliding := {};
    ghost var losers: set<nat> := {};
    var i := 0;
    while i < |set'|
      invariant 0 <= i <= |set'| && losers == set k | 0 <= k < i && set'[k].1 != winning :: set'[k].0
      invariant colliding == if losers == {} then {} else losers + {winner}
    {
      if set'[i].1 != winning {
        colliding := colliding + {set'[i].0, winner};
        losers := losers + {set'[i].0};
      }
      i := i + 1;
    }
  }

  /** Everything that collides with the path at `i`.  Paths inside it sort right after it, so the
      first one that does not start with it ends the search. */
  method CollectAt(values: map<string, Setters>, paths: seq<string>, i: nat) returns (colliding: set<nat>)
    requires i < |paths| && Increasing(paths) && (forall p :: p in paths <==> p in values) && forall p :: p in values ==> values[p] != []
    ensures colliding == Colliding(values, paths[i])
  {
    hide Overruled, Intruders, Increasing, Inside;
    var path := paths[i];
    assert path in paths;
    var set' := values[path];
    colliding := CollectOverruled(set');
    ghost var found: set<nat> := {};
    NoneInsideBefore(values, paths, i);
    var j := i + 1;
    while j < |paths| && path <= paths[j]
      invariant i < j <= |paths|
      invariant found == Found(values, path, paths, j)
      invariant colliding == Overruled(set') + WithOwners(found, set')
    {
      assert paths[j] in paths;
      FoundMore(values, path, paths, j);
      if Inside(paths[j], path) {
        var more := CollectIntruders(set', values[paths[j]]);
        OwnersOfBoth(found, Intruders(set', values[paths[j]]), set');
        colliding := colliding + more;
        found := found + Intruders(set', values[paths[j]]);
      }
      j := j + 1;
    }
    NoneInsideAfter(values, paths, i, j);
  }

  lemma FoundMore(values: map<string, Setters>, path: string, paths: seq<string>, n: nat)
    requires n < |paths| && path in values && forall p :: p in paths ==> p in values
    ensures paths[n] in values
    ensures Found(values, path, paths, n + 1)
            == Found(values, path, paths, n) + if Inside(paths[n], path) then Intruders(values[path], values[paths[n]]) else {}
  {
    forall m
      ensures m in Found(values, path, paths, n + 1) <==>
                m in Found(values, path, paths, n) || (Inside(paths[n], path) && m in Intruders(values[path], values[paths[n]]))
    {
      if Inside(paths[n], path) && m in Intruders(values[path], values[paths[n]]) {
        assert 0 <= n < n + 1;
      }
    }
  }

  lemma OwnersOfBoth(a: set<nat>, b: set<nat>, set': Setters)
    ensures WithOwners(a + b, set') == WithOwners(a, set') + WithOwners(b, set')
  {
  }

  lemma NoneInsideBefore(values: map<string, Setters>, paths: seq<string>, i: nat)
    requires i < |paths| && Increasing(paths) && forall p :: p in paths <==> p in values
    ensures paths[i] in paths && Found(values, paths[i], paths, i + 1) == {}
  {
    assert paths[i] in paths;
    forall k | 0 <= k <= i
      ensures !Inside(paths[k], paths[i])
    {
      if Inside(paths[k], paths[i]) { PrefixLess(paths[i], paths[k]); }
      LessTotal(paths[i], paths[k]);
    }
  }

  lemma NoneInsideAfter(values: map<string, Setters>, paths: seq<string>, i: nat, j: nat)
    requires i < j <= |paths| && Increasing(paths) && forall p :: p in paths <==> p in values
    requires j < |paths| ==> !(paths[i] <= paths[j])
    ensures paths[i] in values
    ensures Found(values, paths[i], paths, j)
            == set inner, m | inner in values && Inside(inner, paths[i]) && m in Intruders(values[paths[i]], values[inner]) :: m
  {
    assert paths[i] in paths;
    forall k | j <= k < |paths|
      ensures !Inside(paths[k], paths[i])
    {
      if k > j && paths[i] <= paths[k] {
        PrefixBetweenAt(paths, i, j, k);
      }
    }
    forall m
      ensures m in Found(values, paths[i], paths, j) <==>
                exists inner :: inner in values && Inside(inner, paths[i]) && m in Intruders(values[paths[i]], values[inner])
    {
      if inner :| inner in values && Inside(inner, paths[i]) && m in Intruders(values[paths[i]], values[inner]) {
        var k :| 0 <= k < |paths| && paths[k] == inner;
        assert k < j;
      }
      if m in Found(values, paths[i], paths, j) {
        var k :| 0 <= k < j && Inside(paths[k], paths[i]) && m in Intruders(values[paths[i]], values[paths[k]]);
        assert paths[k] in paths;
      }
    }
  }

  lemma PrefixBetweenAt(paths: seq<string>, i: nat, j: nat, k: nat)
    requires i < j < k < |paths| && Increasing(paths) && paths[i] <= paths[k]
    ensures paths[i] <= paths[j]
  {
    PrefixBetween(paths[i], paths[j], paths[k]);
  }

  // ---------- the report ----------

  /** The paths, in order, at which two or more mods collide. */
  ghost function Contested(values: map<string, Setters>, paths: seq<string>): seq<string>
    requires forall p :: p in paths ==> p in values && values[p] != []
  {
    if paths == [] then []
    else
      Contested(values, paths[..|paths| - 1])
      + if |Colliding(values, paths[|paths| - 1])| >= 2 then [paths[|paths| - 1]] else []
  }

  ghost function Involved(values: map<string, Setters>, contested: seq<string>): set<nat>
    requires forall p :: p in contested ==> p in values && values[p] != []
  {
    set p, m | p in contested && m in Colliding(values, p) :: m
  }

  lemma {:induction false} ContestedPaths(values: map<string, Setters>, paths: seq<string>)
    requires forall p :: p in paths ==> p in values && values[p] != []
    ensures forall p :: p in Contested(values, paths) <==> p in paths && |Colliding(values, p)| >= 2
  {
    if paths != [] {
      ContestedPaths(values, paths[..|paths| - 1]);
      assert paths == paths[..|paths| - 1] + [paths[|paths| - 1]];
    }
  }

  function Few(paths: seq<string>): seq<string> { if |paths| <= SAMPLES then paths else paths[..SAMPLES] }

  ghost predicate Ordered(paths: seq<string>, values: map<string, Setters>) {
    Increasing(paths) && (forall p :: p in paths <==> p in values) && forall p :: p in values ==> values[p] != []
  }

  lemma OrderedPrefix(values: map<string, Setters>, paths: seq<string>, i: nat)
    requires Ordered(paths, values) && i <= |paths|
    ensures forall p :: p in paths[..i] ==> p in values && values[p] != []
  {
    forall p | p in paths[..i] ensures p in values { assert p in paths; }
  }

  /** What the comparison of all pairs of paths reports. */
  ghost predicate Reports(values: map<string, Setters>, r: Option<Report>) {
    exists paths :: Ordered(paths, values) && r == ReportOf(values, paths)
  }

  ghost function ReportOf(values: map<string, Setters>, paths: seq<string>): Option<Report>
    requires Ordered(paths, values)
  {
    ContestedPaths(values, paths);
    var contested := Contested(values, paths);
    if contested == [] then None else Some(Report(Involved(values, contested), |contested|, Few(contested)))
  }

  method Collisions(sets: seq<(nat, Leaves)>) returns (r: Option<Report>)
    ensures Reports(AllValues(sets), r)
  {
    var values := GatherValues(sets);
    NoEmptySetters(sets);
    var paths := SortPaths(values.Keys);
    assert Ordered(paths, values);
    var involved: set<nat>, count, samples := {}, 0, [];
    var i := 0;
    OrderedPrefix(values, paths, 0);
    while i < |paths|
      invariant 0 <= i <= |paths| && forall p :: p in paths[..i] ==> p in values && values[p] != []
      invariant SoFar(values, paths[..i], involved, count, samples)
    {
      var colliding := CollectAt(values, paths, i);
      OrderedPrefix(values, paths, i + 1);
      assert paths[i] in paths;
      NextPath(values, paths, i, involved, count, samples);
      if |colliding| >= 2 {
        count := count + 1;
        if |samples| < SAMPLES {
          samples := samples + [paths[i]];
        }
        involved := involved + colliding;
      }
      i := i + 1;
    }
    assert paths[..i] == paths;
    r := if count > 0 then Some(Report(involved, count, samples)) else None;
    assert r == ReportOf(values, paths);
  }

  ghost predicate SoFar(values: map<string, Setters>, paths: seq<string>, involved: set<nat>, count: nat, samples: seq<string>)
    requires forall p :: p in paths ==> p in values && values[p] != []
  {
    ContestedPaths(values, paths);
    var contested := Contested(values, paths);
    involved == Involved(values, contested) && count == |contested| && samples == Few(contested)
  }

  lemma NextPath(values: map<string, Setters>, paths: seq<string>, i: nat, involved: set<nat>, count: nat, samples: seq<string>)
    requires i < |paths| && forall p :: p in paths[..i + 1] ==> p in values && values[p] != []
    requires (forall p :: p in paths[..i] ==> p in values && values[p] != []) && SoFar(values, paths[..i], involved, count, samples)
    requires paths[i] in values && values[paths[i]] != []
    ensures var colliding := Colliding(values, paths[i]);
            if |colliding| >= 2 then
              SoFar(values, paths[..i + 1], involved + colliding, count + 1, if |samples| < SAMPLES then samples + [paths[i]] else samples)
            else SoFar(values, paths[..i + 1], involved, count, samples)
  {
    hide Contested, SoFar, Few;
    NextContested(values, paths, i);
    if |Colliding(values, paths[i])| >= 2 {
      ContestedMore(values, paths[..i], paths[..i + 1], paths[i], involved, count, samples);
    } else {
      ContestedSame(values, paths[..i], paths[..i + 1], involved, count, samples);
    }
  }

  lemma NextContested(values: map<string, Setters>, paths: seq<string>, i: nat)
    requires i < |paths| && forall p :: p in paths[..i + 1] ==> p in values && values[p] != []
    requires (forall p :: p in paths[..i] ==> p in values && values[p] != []) && paths[i] in values && values[paths[i]] != []
    ensures Contested(values, paths[..i + 1]) == Contested(values, paths[..i]) + if |Colliding(values, paths[i])| >= 2 then [paths[i]] else []
  {
    hide Colliding;
    assert paths[..i + 1][i] == paths[i] && paths[..i + 1][..i] == paths[..i];
  }

  lemma ContestedSame(values: map<string, Setters>, some: seq<string>, more: seq<string>, involved: set<nat>, count: nat, samples: seq<string>)
    requires (forall p :: p in some ==> p in values && values[p] != []) && (forall p :: p in more ==> p in values && values[p] != [])
    requires SoFar(values, some, involved, count, samples) && Contested(values, more) == Contested(values, some)
    ensures SoFar(values, more, involved, count, samples)
  {
    hide Colliding, Contested, Few;
    ContestedPaths(values, some);
  }

  lemma ContestedMore(values: map<string, Setters>, some: seq<string>, more: seq<string>, path: string, involved: set<nat>, count: nat,
                      samples: seq<string>)
    requires (forall p :: p in some ==> p in values && values[p] != []) && (forall p :: p in more ==> p in values && values[p] != [])
    requires path in values && values[path] != []
    requires SoFar(values, some, involved, count, samples) && Contested(values, more) == Contested(values, some) + [path]
    ensures SoFar(values, more, involved + Colliding(values, path), count + 1, if |samples| < SAMPLES then samples + [path] else samples)
  {
    hide Colliding, Contested, Few, Involved;
    ContestedPaths(values, some);
    ContestedPaths(values, more);
    FewMore(Contested(values, some), path);
    InvolvedMore(values, Contested(values, some), path);
  }

  lemma FewMore(contested: seq<string>, path: string)
    ensures Few(contested + [path]) == if |Few(contested)| < SAMPLES then Few(contested) + [path] else Few(contested)
  {
    if |contested| >= SAMPLES {
      assert (contested + [path])[..SAMPLES] == contested[..SAMPLES];
    }
  }

  lemma InvolvedMore(values: map<string, Setters>, contested: seq<string>, path: string)
    requires forall p :: p in contested + [path] ==> p in values && values[p] != []
    ensures (forall p :: p in contested ==> p in values && values[p] != []) && path in values && values[path] != []
    ensures Involved(values, contested + [path]) == Involved(values, contested) + Colliding(values, path)
  {
    forall p | p in contested ensures p in values && values[p] != [] { assert p in contested + [path]; }
    assert path in contested + [path];
    forall m
      ensures m in Involved(values, contested + [path]) <==> m in Involved(values, contested) || m in Colliding(values, path)
    {
      if m in Involved(values, contested) {
        var p :| p in contested && m in Colliding(values, p);
        assert p in contested + [path];
      }
    }
  }
}
