/** Rows added by several changelogs under one key end up as one row, because the positions
    remembered for keys stay right: rows are only ever inserted after them. */
module KeyedInserts {
  import opened Documents
  import opened Changelogs
  import opened Pending
  import opened Splice
  import KeyedRows
  import opened KeyFields
  import RoundTrip

  /** Where a row of the array comes from: it was there, or it was inserted for a key. */
  datatype Origin = Base | Inserted(key: RowKey)

  function BaseRows(tagged: seq<(Origin, Byml)>): seq<Byml> { Select(tagged, Base) }

  ghost predicate TagsMatch(rows: seq<Byml>, tagged: seq<(Origin, Byml)>) {
    |tagged| == |rows| && forall i :: 0 <= i < |rows| ==> tagged[i].1 == rows[i]
  }

  ghost predicate RowHasKey(name: Option<KeyName>, row: Byml, key: RowKey) {
    row.Map? && name.Some? && (ScalarKey(name.value, key) ==> KeyOf(name.value, row) == key)
  }

  /** The position remembered for a key is the one of its row, before anything inserted from now on. */
  ghost predicate KeyedAt(name: Option<KeyName>, s: Settling, tagged: seq<(Origin, Byml)>, index: int, key: RowKey)
    requires key in s.keyed && |tagged| == |s.rows|
  {
    !key.IsEmpty() && s.keyed[key] < InsertAt(s, index) && tagged[s.keyed[key]].0 == Inserted(key)
    && RowHasKey(name, s.rows[s.keyed[key]], key)
  }

  /** Of the rows inserted for a key all but the remembered one are marked removed. */
  ghost predicate OthersMarked(s: Settling, tagged: seq<(Origin, Byml)>, i: nat)
    requires i < |tagged| == |s.rows|
  {
    tagged[i].0.Inserted? && !tagged[i].0.key.IsEmpty() ==>
      tagged[i].0.key in s.keyed && (s.keyed[tagged[i].0.key] == i || s.rows[i].IsRemove())
  }

  ghost predicate Placed(name: Option<KeyName>, s: Settling, tagged: seq<(Origin, Byml)>, base: seq<Byml>, index: int) {
    && TagsMatch(s.rows, tagged) && BaseRows(tagged) == base
    && (forall key :: key in s.keyed ==> KeyedAt(name, s, tagged, index, key))
    && forall i :: 0 <= i < |tagged| ==> OthersMarked(s, tagged, i)
  }

  function TagInsert(tagged: seq<(Origin, Byml)>, at: nat, row: Byml, origin: Origin): seq<(Origin, Byml)>
    requires at <= |tagged|
  {
    tagged[..at] + [(origin, row)] + tagged[at..]
  }

  lemma {:induction false} SelectInsert<K, V>(pairs: seq<(K, V)>, at: nat, pair: (K, V), key: K)
    requires at <= |pairs| && pair.0 != key
    ensures Select(pairs[..at] + [pair] + pairs[at..], key) == Select(pairs, key)
    decreases at
  {
    var all := pairs[..at] + [pair] + pairs[at..];
    if at == 0 {
      assert all[1..] == pairs;
    } else {
      SelectInsert(pairs[1..], at - 1, pair, key);
      assert all[1..] == pairs[1..][..at - 1] + [pair] + pairs[1..][at - 1..];
      assert all[0] == pairs[0];
    }
  }

  lemma SelectReplace<K, V>(pairs: seq<(K, V)>, at: nat, pair: (K, V), key: K)
    requires at < |pairs| && pair.0 == pairs[at].0 != key
    ensures Select(pairs[at := pair], key) == Select(pairs, key)
  {
    var others := pairs[..at] + pairs[at + 1..];
    SelectInsert(others, at, pair, key);
    SelectInsert(others, at, pairs[at], key);
    assert others[..at] == pairs[..at] && others[at..] == pairs[at + 1..];
    assert pairs[at := pair] == pairs[..at] + [pair] + pairs[at + 1..];
    assert pairs == pairs[..at] + [pairs[at]] + pairs[at + 1..];
  }

  lemma InsertKeepsBase(tagged: seq<(Origin, Byml)>, at: nat, row: Byml, key: RowKey)
    requires at <= |tagged|
    ensures BaseRows(TagInsert(tagged, at, row, Inserted(key))) == BaseRows(tagged)
  {
    SelectInsert(tagged, at, (Inserted(key), row), Base);
  }

  lemma MarkKeepsBase(tagged: seq<(Origin, Byml)>, at: nat)
    requires at < |tagged| && tagged[at].0.Inserted?
    ensures BaseRows(tagged[at := (tagged[at].0, Marker(Remove))]) == BaseRows(tagged)
  {
    SelectReplace(tagged, at, (tagged[at].0, Marker(Remove)), Base);
  }

  lemma LaterIndex(name: Option<KeyName>, s: Settling, tagged: seq<(Origin, Byml)>, base: seq<Byml>, index: int, later: int)
    requires Placed(name, s, tagged, base, index) && index <= later
    ensures Placed(name, s, tagged, base, later)
  {
    forall key | key in s.keyed
      ensures KeyedAt(name, s, tagged, later, key)
    {
      assert KeyedAt(name, s, tagged, index, key);
    }
  }

  /** Inserting a row moves no remembered position. */
  lemma InsertPlaced(name: Option<KeyName>, s: Settling, tagged: seq<(Origin, Byml)>, base: seq<Byml>, index: int, row: Byml)
    requires Placed(name, s, tagged, base, index)
    ensures Placed(name, Insert(s, index, row), TagInsert(tagged, InsertAt(s, index), row, Inserted(NO_KEY)), base, index)
  {
    var at := InsertAt(s, index);
    var now, tags := Insert(s, index, row), TagInsert(tagged, at, row, Inserted(NO_KEY));
    InsertKeepsBase(tagged, at, row, NO_KEY);
    InsertMatches(s.rows, tagged, at, row, Inserted(NO_KEY));
    forall key | key in now.keyed
      ensures KeyedAt(name, now, tags, index, key)
    {
      assert KeyedAt(name, s, tagged, index, key);
    }
    forall i | 0 <= i < |tags|
      ensures OthersMarked(now, tags, i)
    {
      if i != at {
        var j := if i < at then i else i - 1;
        assert OthersMarked(s, tagged, j) && tags[i] == tagged[j];
        OnlyBefore(name, s, tagged, index, j);
      }
    }
  }

  lemma InsertMatches(rows: seq<Byml>, tagged: seq<(Origin, Byml)>, at: nat, row: Byml, origin: Origin)
    requires TagsMatch(rows, tagged) && at <= |rows|
    ensures TagsMatch(rows[..at] + [row] + rows[at..], TagInsert(tagged, at, row, origin))
  {
  }

  /** A remembered position is not at or after the next insertion. */
  lemma OnlyBefore(name: Option<KeyName>, s: Settling, tagged: seq<(Origin, Byml)>, index: int, j: nat)
    requires j < |tagged| == |s.rows| && forall key :: key in s.keyed ==> KeyedAt(name, s, tagged, index, key)
    ensures tagged[j].0.Inserted? && tagged[j].0.key in s.keyed && s.keyed[tagged[j].0.key] == j ==> j < InsertAt(s, index)
  {
    if tagged[j].0.Inserted? && tagged[j].0.key in s.keyed {
      assert KeyedAt(name, s, tagged, index, tagged[j].0.key);
    }
  }

  /** Inserting the row of a key whose earlier row, if any, is marked. */
  lemma KeyedInsertPlaced(name: Option<KeyName>, s: Settling, tagged: seq<(Origin, Byml)>, base: seq<Byml>, index: int, row: Byml, key: RowKey)
    requires !key.IsEmpty() && RowHasKey(name, row, key) && TagsMatch(s.rows, tagged) && BaseRows(tagged) == base
    requires forall k :: k in s.keyed && k != key ==> KeyedAt(name, s, tagged, index, k)
    requires forall i :: 0 <= i < |tagged| ==> if tagged[i].0 == Inserted(key) then s.rows[i].IsRemove() else OthersMarked(s, tagged, i)
    ensures var inserted := Insert(s, index, row);
            Placed(name, inserted.(keyed := inserted.keyed[key := InsertAt(s, index)]),
                   TagInsert(tagged, InsertAt(s, index), row, Inserted(key)), base, index)
  {
    var at := InsertAt(s, index);
    var inserted := Insert(s, index, row);
    var now, tags := inserted.(keyed := inserted.keyed[key := at]), TagInsert(tagged, at, row, Inserted(key));
    InsertKeepsBase(tagged, at, row, key);
    InsertMatches(s.rows, tagged, at, row, Inserted(key));
    forall k | k in now.keyed
      ensures KeyedAt(name, now, tags, index, k)
    {
      if k != key { assert KeyedAt(name, s, tagged, index, k); }
    }
    forall i | 0 <= i < |tags|
      ensures OthersMarked(now, tags, i)
    {
      if i != at {
        StillMarked(name, s, tagged, index, row, key, if i < at then i else i - 1);
      }
    }
  }

  lemma StillMarked(name: Option<KeyName>, s: Settling, tagged: seq<(Origin, Byml)>, index: int, row: Byml, key: RowKey, j: nat)
    requires !key.IsEmpty() && TagsMatch(s.rows, tagged) && j < |tagged|
    requires forall k :: k in s.keyed && k != key ==> KeyedAt(name, s, tagged, index, k)
    requires if tagged[j].0 == Inserted(key) then s.rows[j].IsRemove() else OthersMarked(s, tagged, j)
    ensures var inserted, at := Insert(s, index, row), InsertAt(s, index);
            OthersMarked(inserted.(keyed := inserted.keyed[key := at]), TagInsert(tagged, at, row, Inserted(key)), if j < at then j else j + 1)
  {
    var at := InsertAt(s, index);
    var i := if j < at then j else j + 1;
    assert TagInsert(tagged, at, row, Inserted(key))[i] == tagged[j];
    assert Insert(s, index, row).rows[i] == s.rows[j];
    if tagged[j].0.Inserted? && tagged[j].0 != Inserted(key) && tagged[j].0.key in s.keyed {
      assert KeyedAt(name, s, tagged, index, tagged[j].0.key);
    }
  }

  // ---------- merged rows stay maps ----------

  lemma {:induction false} MergeAllKeepsMap(c: Context, depth: int, base: Tree, logs: seq<Byml>)
    requires base.PMap?
    ensures MergeAll(c, depth, base, logs).Some? ==> MergeAll(c, depth, base, logs).value.PMap?
  {
    if logs != [] {
      MergeAllKeepsMap(c, depth, base, logs[..|logs| - 1]);
      var before := MergeAll(c, depth, base, logs[..|logs| - 1]);
      if before.Some? {
        MergeKeepsMap(c, depth, before.value, logs[|logs| - 1]);
      }
    }
  }

  lemma MergeKeepsMap(c: Context, depth: int, base: Tree, log: Byml)
    requires base.PMap?
    ensures Merge(c, depth, base, log).Some? ==> Merge(c, depth, base, log).value.PMap?
  {
  }

  lemma MergedRowIsMap(c: Context, depth: int, bound: nat, base: Byml, rows: seq<Byml>)
    requires base.Map?
    ensures MergeRows(c, depth, bound, base, rows).Some? ==> MergeRows(c, depth, bound, base, rows).value.Map?
  {
    var logs := seq(|rows|, i requires 0 <= i < |rows| => Diff(c.rules, c.type_, depth, rows[i], base).0);
    MergeAllKeepsMap(Context(c.rules, c.type_, None), 0, Fresh(base), logs);
  }

  // ---------- groups ----------

  lemma {:induction false} InsertAllPlaced(name: Option<KeyName>, s: Settling, tagged: seq<(Origin, Byml)>, base: seq<Byml>, index: int, nodes: seq<Byml>)
    returns (tags: seq<(Origin, Byml)>)
    requires Placed(name, s, tagged, base, index)
    ensures Placed(name, InsertAll(s, index, nodes), tags, base, index) && InsertAll(s, index, nodes).keyed == s.keyed
  {
    if nodes == [] {
      return tagged;
    }
    var last := |nodes| - 1;
    tags := InsertAllPlaced(name, s, tagged, base, index, nodes[..last]);
    InsertPlaced(name, InsertAll(s, index, nodes[..last]), tags, base, index, nodes[last]);
    tags := TagInsert(tags, InsertAt(InsertAll(s, index, nodes[..last]), index), nodes[last], Inserted(NO_KEY));
  }

  ghost predicate NodesOfKey(name: Option<KeyName>, nodes: seq<Byml>, key: RowKey) {
    nodes != [] && forall i :: 0 <= i < |nodes| ==> key == if name.Some? then KeyOf(name.value, nodes[i]) else NO_KEY
  }

  /** The row some nodes of one key become, alone or together with an earlier row of that key. */
  lemma MergedRowHasKey(c: Context, name: Option<KeyName>, depth: int, bound: nat, base: Byml, rows: seq<Byml>, key: RowKey)
    requires !key.IsEmpty() && RowHasKey(name, base, key) && forall i :: 0 <= i < |rows| ==> RowHasKey(name, rows[i], key)
    requires MergeRows(c, depth, bound, base, rows).Some?
    ensures RowHasKey(name, MergeRows(c, depth, bound, base, rows).value, key)
  {
    MergedRowIsMap(c, depth, bound, base, rows);
    if ScalarKey(name.value, key) {
      MergedRowsKeepKey(c, depth, bound, base, rows, name.value, key);
    }
  }

  lemma KeyedGroupPlaced(c: Context, name: Option<KeyName>, depth: int, bound: nat, s: Settling, tagged: seq<(Origin, Byml)>,
                         base: seq<Byml>, index: int, key: RowKey, nodes: seq<Byml>)
    returns (tags: seq<(Origin, Byml)>)
    requires Placed(name, s, tagged, base, index) && NodesOfKey(name, nodes, key)
    requires KeyedGroup(c, depth, bound, s, index, key, nodes).Some?
    ensures var r := KeyedGroup(c, depth, bound, s, index, key, nodes).value;
            Placed(name, r, tags, base, index) && r.keyed.Keys == s.keyed.Keys + if key.IsEmpty() then {} else {key}
  {
    hide Placed, MergeRows, InsertAll, KeyedAt, OthersMarked, TagsMatch, BaseRows, RowHasKey;
    if key.IsEmpty() {
      tags := InsertAllPlaced(name, s, tagged, base, index, nodes);
      return;
    }
    NodesHaveKey(name, nodes, key);
    if key in s.keyed {
      var at := s.keyed[key];
      RememberedHasKey(name, s, tagged, base, index, key);
      MergedRowHasKey(c, name, depth, bound, s.rows[at], nodes, key);
      tags := OneKeyedPlaced(name, s, tagged, base, index, key, MergeRows(c, depth, bound, s.rows[at], nodes).value);
    } else if |nodes| > 1 {
      MergedRowHasKey(c, name, depth, bound, nodes[0], nodes[1..], key);
      tags := OneKeyedPlaced(name, s, tagged, base, index, key, MergeRows(c, depth, bound, nodes[0], nodes[1..]).value);
    } else {
      tags := OneKeyedPlaced(name, s, tagged, base, index, key, nodes[0]);
    }
  }

  lemma NodesHaveKey(name: Option<KeyName>, nodes: seq<Byml>, key: RowKey)
    requires NodesOfKey(name, nodes, key) && !key.IsEmpty()
    ensures forall i :: 0 <= i < |nodes| ==> RowHasKey(name, nodes[i], key)
  {
  }

  lemma RememberedHasKey(name: Option<KeyName>, s: Settling, tagged: seq<(Origin, Byml)>, base: seq<Byml>, index: int, key: RowKey)
    requires Placed(name, s, tagged, base, index) && key in s.keyed
    ensures s.keyed[key] < |s.rows| && RowHasKey(name, s.rows[s.keyed[key]], key)
  {
    assert KeyedAt(name, s, tagged, index, key);
  }

  /** A row put in for a key: the one remembered for it, if any, is marked. */
  function PutIn(s: Settling, index: int, key: RowKey, row: Byml): Settling {
    var marked := if key in s.keyed && s.keyed[key] < |s.rows| then s.(rows := s.rows[s.keyed[key] := Marker(Remove)]) else s;
    var inserted := Insert(marked, index, row);
    inserted.(keyed := inserted.keyed[key := InsertAt(marked, index)])
  }

  lemma OneKeyedPlaced(name: Option<KeyName>, s: Settling, tagged: seq<(Origin, Byml)>, base: seq<Byml>, index: int, key: RowKey, row: Byml)
    returns (tags: seq<(Origin, Byml)>)
    requires Placed(name, s, tagged, base, index) && !key.IsEmpty() && RowHasKey(name, row, key)
    ensures Placed(name, PutIn(s, index, key, row), tags, base, index) && PutIn(s, index, key, row).keyed.Keys == s.keyed.Keys + {key}
  {
    hide KeyedAt, OthersMarked, RowHasKey, Select;
    var marked := s;
    tags := tagged;
    if key in s.keyed {
      RememberedHasKey(name, s, tagged, base, index, key);
      RememberedIsInserted(name, s, tagged, base, index, key);
      var at := s.keyed[key];
      marked := s.(rows := s.rows[at := Marker(Remove)]);
      tags := tagged[at := (tagged[at].0, Marker(Remove))];
      MarkKeepsBase(tagged, at);
    }
    MarkedReady(name, s, tagged, base, index, key, marked, tags);
    KeyedInsertPlaced(name, marked, tags, base, index, row, key);
    tags := TagInsert(tags, InsertAt(marked, index), row, Inserted(key));
  }

  lemma RememberedIsInserted(name: Option<KeyName>, s: Settling, tagged: seq<(Origin, Byml)>, base: seq<Byml>, index: int, key: RowKey)
    requires Placed(name, s, tagged, base, index) && key in s.keyed
    ensures s.keyed[key] < |s.rows| && tagged[s.keyed[key]].0 == Inserted(key)
  {
    assert KeyedAt(name, s, tagged, index, key);
  }

  lemma MarkedReady(name: Option<KeyName>, s: Settling, tagged: seq<(Origin, Byml)>, base: seq<Byml>, index: int, key: RowKey, marked: Settling,
                    tags: seq<(Origin, Byml)>)
    requires Placed(name, s, tagged, base, index) && !key.IsEmpty()
    requires key !in s.keyed ==> marked == s && tags == tagged
    requires key in s.keyed ==> s.keyed[key] < |s.rows| && marked == s.(rows := s.rows[s.keyed[key] := Marker(Remove)])
                                && tags == tagged[s.keyed[key] := (tagged[s.keyed[key]].0, Marker(Remove))]
    ensures TagsMatch(marked.rows, tags)
    ensures forall k :: k in marked.keyed && k != key ==> KeyedAt(name, marked, tags, index, k)
    ensures forall i :: 0 <= i < |tags| ==>
              if tags[i].0 == Inserted(key) then marked.rows[i].IsRemove() else OthersMarked(marked, tags, i)
  {
    if key in s.keyed { assert KeyedAt(name, s, tagged, index, key); }
    forall k | k in marked.keyed && k != key
      ensures KeyedAt(name, marked, tags, index, k)
    {
      assert KeyedAt(name, s, tagged, index, k);
    }
    forall i | 0 <= i < |tags|
      ensures if tags[i].0 == Inserted(key) then marked.rows[i].IsRemove() else OthersMarked(marked, tags, i)
    {
      assert OthersMarked(s, tagged, i);
    }
  }

  ghost predicate GroupsOfKeys(name: Option<KeyName>, groups: seq<(RowKey, seq<Byml>)>) {
    forall g :: 0 <= g < |groups| ==> NodesOfKey(name, groups[g].1, groups[g].0)
  }

  /** The keys, other than the empty one, of some groups. */
  function GroupKeys(groups: seq<(RowKey, seq<Byml>)>): set<RowKey> {
    set g | 0 <= g < |groups| && !groups[g].0.IsEmpty() :: groups[g].0
  }

  lemma {:induction false} KeyedGroupsPlaced(c: Context, name: Option<KeyName>, depth: int, bound: nat, s: Settling, tagged: seq<(Origin, Byml)>, base: seq<Byml>,
                                             index: int, groups: seq<(RowKey, seq<Byml>)>)
    returns (tags: seq<(Origin, Byml)>)
    requires Placed(name, s, tagged, base, index) && GroupsOfKeys(name, groups) && KeyedGroups(c, depth, bound, s, index, groups).Some?
    ensures var r := KeyedGroups(c, depth, bound, s, index, groups).value;
            Placed(name, r, tags, base, index) && r.keyed.Keys == s.keyed.Keys + GroupKeys(groups)
    decreases |groups|
  {
    hide Placed, KeyedGroup, NodeKey, KeyOf;
    if groups == [] {
      return tagged;
    }
    var last := |groups| - 1;
    var before := KeyedGroups(c, depth, bound, s, index, groups[..last]).value;
    tags := KeyedGroupsPlaced(c, name, depth, bound, s, tagged, base, index, groups[..last]);
    tags := KeyedGroupPlaced(c, name, depth, bound, before, tags, base, index, groups[last].0, groups[last].1);
    GroupKeysGrow(groups);
  }

  lemma GroupKeysGrow(groups: seq<(RowKey, seq<Byml>)>)
    requires groups != []
    ensures var last := |groups| - 1;
            GroupKeys(groups) == GroupKeys(groups[..last]) + if groups[last].0.IsEmpty() then {} else {groups[last].0}
  {
    var last := |groups| - 1;
    forall key
      ensures key in GroupKeys(groups) <==> key in GroupKeys(groups[..last]) || (!key.IsEmpty() && key == groups[last].0)
    {
      if key in GroupKeys(groups[..last]) {
        var g :| 0 <= g < last && groups[..last][g].0 == key;
        assert groups[g].0 == key;
      }
      if key in GroupKeys(groups) {
        var g :| 0 <= g < |groups| && groups[g].0 == key;
        assert g < last ==> groups[..last][g].0 == key;
      }
    }
  }

  // ---------- the whole array ----------

  /** Some node of a list of additions has the key. */
  ghost predicate Adds(name: Option<KeyName>, pairs: seq<(int, Byml)>, key: RowKey) {
    !key.IsEmpty() && exists i :: 0 <= i < |pairs| && NodeKey(name, pairs[i].1) == key
  }

  function NodeKey(name: Option<KeyName>, node: Byml): RowKey {
    if name.Some? then KeyOf(name.value, node) else NO_KEY
  }

  lemma AddsSameBag(name: Option<KeyName>, a: seq<(int, Byml)>, b: seq<(int, Byml)>, key: RowKey)
    requires multiset(a) == multiset(b)
    ensures Adds(name, a, key) == Adds(name, b, key)
  {
    if Adds(name, a, key) {
      var i :| 0 <= i < |a| && NodeKey(name, a[i].1) == key;
      assert a[i] in multiset(b);
      var j :| 0 <= j < |b| && b[j] == a[i];
    }
    if Adds(name, b, key) {
      var i :| 0 <= i < |b| && NodeKey(name, b[i].1) == key;
      assert b[i] in multiset(a);
      var j :| 0 <= j < |a| && a[j] == b[i];
    }
  }

  lemma AddsAppend(name: Option<KeyName>, a: seq<(int, Byml)>, b: seq<(int, Byml)>, key: RowKey)
    ensures Adds(name, a + b, key) <==> Adds(name, a, key) || Adds(name, b, key)
  {
    if Adds(name, a, key) {
      var i :| 0 <= i < |a| && NodeKey(name, a[i].1) == key;
      assert (a + b)[i] == a[i];
    }
    if Adds(name, b, key) {
      var i :| 0 <= i < |b| && NodeKey(name, b[i].1) == key;
      assert (a + b)[|a| + i] == b[i];
    }
    if Adds(name, a + b, key) {
      var i :| 0 <= i < |a + b| && NodeKey(name, (a + b)[i].1) == key;
      if i >= |a| { assert b[i - |a|] == (a + b)[i]; }
    }
  }

  lemma {:induction false} HasKeyIff<K, V>(pairs: seq<(K, V)>, key: K)
    ensures HasKey(GroupsBy(pairs), key) <==> exists i :: 0 <= i < |pairs| && pairs[i].0 == key
  {
    if pairs != [] {
      var last := |pairs| - 1;
      HasKeyIff(pairs[..last], key);
      GroupsByKeeps(pairs[..last], key);
      AddToGroupKeeps(GroupsBy(pairs[..last]), pairs[last].0, pairs[last].1, key);
      if i :| 0 <= i < |pairs[..last]| && pairs[..last][i].0 == key {
        assert pairs[i].0 == key;
      }
      if i :| 0 <= i < |pairs| && pairs[i].0 == key {
        assert i < last ==> pairs[..last][i].0 == key;
      }
    }
  }

  lemma GroupsHaveKeys(name: Option<KeyName>, index: int, nodes: seq<Byml>, key: RowKey)
    ensures GroupsOfKeys(name, GroupsBy(Keys(name, nodes)))
    ensures key in GroupKeys(GroupsBy(Keys(name, nodes))) <==> Adds(name, Spread(index, nodes), key)
  {
    var pairs := Keys(name, nodes);
    var groups := GroupsBy(pairs);
    KeyedRows.GroupsAreByKey(name, nodes);
    forall g | 0 <= g < |groups|
      ensures NodesOfKey(name, groups[g].1, groups[g].0)
    {
      KeyedRows.AllHaveKey(name, groups[g].1, groups[g].0);
    }
    HasKeyIff(pairs, key);
    if key in GroupKeys(groups) {
      var g :| 0 <= g < |groups| && !groups[g].0.IsEmpty() && groups[g].0 == key;
      assert HasKey(groups, key);
      var i :| 0 <= i < |pairs| && pairs[i].0 == key;
      assert NodeKey(name, Spread(index, nodes)[i].1) == key;
    }
    if Adds(name, Spread(index, nodes), key) {
      var i :| 0 <= i < |nodes| && NodeKey(name, Spread(index, nodes)[i].1) == key;
      assert pairs[i].0 == key;
      var g :| 0 <= g < |groups| && groups[g].0 == key;
      assert key in GroupKeys(groups);
    }
  }

  ghost predicate KeysAre(name: Option<KeyName>, s: Settling, pairs: seq<(int, Byml)>) {
    forall key :: key in s.keyed <==> Adds(name, pairs, key)
  }

  lemma StartPlaced(name: Option<KeyName>, rows: seq<Byml>, index: int) returns (tagged: seq<(Origin, Byml)>)
    ensures Placed(name, Settling(rows, 0, map[]), tagged, rows, index)
    ensures KeysAre(name, Settling(rows, 0, map[]), [])
  {
    tagged := Spread(Base, rows);
    SelectSpread(Base, rows, Base);
  }

  lemma {:induction false} SettleGroupsPlaced(c: Context, name: string, depth: int, bound: nat, rows: seq<Byml>,
                                              groups: seq<(int, seq<Byml>)>)
    returns (tagged: seq<(Origin, Byml)>)
    requires Ascending(groups) && SettleGroups(c, Some(name), depth, bound, Settling(rows, 0, map[]), groups).Some?
    ensures var r := SettleGroups(c, Some(name), depth, bound, Settling(rows, 0, map[]), groups).value;
            var keyName := c.rules.mergerKey(name, c.ApplyType(), depth);
            Placed(keyName, r, tagged, rows, if groups == [] then 0 else groups[|groups| - 1].0)
            && KeysAre(keyName, r, PairsOf(groups))
    decreases |groups|
  {
    hide Placed, KeysAre, KeyedGroups, GroupsOfKeys, Adds;
    var keyName := c.rules.mergerKey(name, c.ApplyType(), depth);
    var start := Settling(rows, 0, map[]);
    if groups == [] {
      tagged := StartPlaced(keyName, rows, 0);
      return;
    }
    var last := |groups| - 1;
    var (index, nodes) := groups[last];
    var before := SettleGroups(c, Some(name), depth, bound, start, groups[..last]).value;
    if last == 0 {
      tagged := StartPlaced(keyName, rows, index);
      assert groups[..last] == [];
    } else {
      tagged := SettleGroupsPlaced(c, name, depth, bound, rows, groups[..last]);
      LaterIndex(keyName, before, tagged, rows, groups[last - 1].0, index);
    }
    GroupsHaveKeys(keyName, index, nodes, NO_KEY);
    var byKey := GroupsBy(Keys(keyName, nodes));
    tagged := KeyedGroupsPlaced(c, keyName, depth, bound, before, tagged, rows, index, byKey);
    PairsAppend(groups[..last], groups[last]);
    assert groups == groups[..last] + [groups[last]];
    MoreKeys(keyName, before, KeyedGroups(c, depth, bound, before, index, byKey).value, PairsOf(groups[..last]), index, nodes);
  }

  lemma MoreKeys(name: Option<KeyName>, before: Settling, after: Settling, pairs: seq<(int, Byml)>, index: int, nodes: seq<Byml>)
    requires KeysAre(name, before, pairs)
    requires after.keyed.Keys == before.keyed.Keys + GroupKeys(GroupsBy(Keys(name, nodes)))
    ensures KeysAre(name, after, pairs + Spread(index, nodes))
  {
    forall key
      ensures key in after.keyed <==> Adds(name, pairs + Spread(index, nodes), key)
    {
      GroupsHaveKeys(name, index, nodes, key);
      AddsAppend(name, pairs, Spread(index, nodes), key);
      assert key in before.keyed <==> Adds(name, pairs, key);
    }
  }

  /** A row with the key, inserted for it, and the only such row that is not marked. */
  ghost predicate OneRow(name: Option<KeyName>, s: Settling, tagged: seq<(Origin, Byml)>, key: RowKey)
    requires |tagged| == |s.rows|
  {
    && key in s.keyed && s.keyed[key] < |s.rows| && tagged[s.keyed[key]].0 == Inserted(key)
    && RowHasKey(name, s.rows[s.keyed[key]], key)
    && forall i :: 0 <= i < |tagged| && tagged[i].0 == Inserted(key) && i != s.keyed[key] ==> s.rows[i].IsRemove()
  }

  /** Settling an array recorded under a name: the rows that were there keep their order; for every
      key some addition has, one row is left of those inserted, and it has the key. */
  lemma OneRowPerKey(c: Context, rows: seq<Byml>, entry: ArrayEntry) returns (s: Settling, tagged: seq<(Origin, Byml)>)
    requires entry.name.Some? && SettleArray(c, rows, entry).Some?
    ensures SettleArray(c, rows, entry) == Some(Retained(s.rows))
    ensures TagsMatch(s.rows, tagged) && BaseRows(tagged) == Marked(rows, entry.removals)
    ensures var name := c.rules.mergerKey(entry.name.value, c.ApplyType(), entry.depth);
            (forall key :: Adds(name, Flatten(entry.additions), key) ==> OneRow(name, s, tagged, key))
            && forall i :: 0 <= i < |tagged| && tagged[i].0.Inserted? && !tagged[i].0.key.IsEmpty() ==>
                 Adds(name, Flatten(entry.additions), tagged[i].0.key)
  {
    var name := c.rules.mergerKey(entry.name.value, c.ApplyType(), entry.depth);
    var all := Flatten(entry.additions);
    var groups := SortGroups(GroupsBy(all));
    GroupsByKeeps(all, 0);
    SortGroupsKeeps(GroupsBy(all), 0);
    var marked := Marked(rows, entry.removals);
    tagged := SettleGroupsPlaced(c, entry.name.value, entry.depth, EntryHeight(entry), marked, groups);
    s := SettleGroups(c, entry.name, entry.depth, EntryHeight(entry), Settling(marked, 0, map[]), groups).value;
    KeyedRows.SortGroupsBag(GroupsBy(all));
    KeyedRows.GroupsByBag(all);
    var index := if groups == [] then 0 else groups[|groups| - 1].0;
    forall key | Adds(name, all, key)
      ensures OneRow(name, s, tagged, key)
    {
      AddsSameBag(name, PairsOf(groups), all, key);
      OneRowPlaced(name, s, tagged, marked, index, key);
    }
    forall i | 0 <= i < |tagged| && tagged[i].0.Inserted? && !tagged[i].0.key.IsEmpty()
      ensures Adds(name, all, tagged[i].0.key)
    {
      assert OthersMarked(s, tagged, i);
      AddsSameBag(name, PairsOf(groups), all, tagged[i].0.key);
    }
  }

  lemma OneRowPlaced(name: Option<KeyName>, s: Settling, tagged: seq<(Origin, Byml)>, base: seq<Byml>, index: int, key: RowKey)
    requires Placed(name, s, tagged, base, index) && key in s.keyed
    ensures OneRow(name, s, tagged, key)
  {
    assert KeyedAt(name, s, tagged, index, key);
    forall i | 0 <= i < |tagged| && tagged[i].0 == Inserted(key) && i != s.keyed[key]
      ensures s.rows[i].IsRemove()
    {
      assert OthersMarked(s, tagged, i);
    }
  }
}
