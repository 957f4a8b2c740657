/** Turning a modded document into its changelog in place: the map depth is counted up and down, maps
    are emptied and refilled, lists of changes grow.  Proved to compute `Changelogs.Diff`. */
module ChangelogBuilder {
  import opened Documents
  import opened Changelogs

  class TrackingInfo {
    const rules: Rules
    const type_: string
    var depth: int

    constructor (rules: Rules, type_: string, depth: int)
      ensures this.rules == rules && this.type_ == type_ && this.depth == depth
    {
      this.rules, this.type_, this.depth := rules, type_, depth;
    }

    method LogChanges(src: Byml, vanilla: Byml) returns (node: Byml, same: bool)
      modifies this`depth
      ensures depth == old(depth)
      ensures (node, same) == Diff(rules, type_, old(depth), src, vanilla)
      decreases src, 2
    {
      match (src, vanilla) {
        case (Map(kind, _), Map(kind', entries)) =>
          if kind == kind' {
            var log, none := LogMapChanges(src, entries);
            return Map(kind, log), none;
          }
          return src, false;
        case (Array(items), Array(items')) =>
          node, same := LogArrayChanges(UnnamedBuilder(type_, depth), items, items');
        case (Leaf(value), Leaf(value')) => return src, value == value';
        case (_, _) => return src, false;
      }
    }

    /** Every key of either map is taken out, compared, and put back if there is something to record. */
    method LogMapChanges(src: Byml, vanilla: map<Key, Byml>) returns (log: map<Key, Byml>, same: bool)
      requires src.Map?
      modifies this`depth
      ensures depth == old(depth)
      ensures log == DiffMap(rules, type_, old(depth), src, vanilla) && same == (log == map[])
      decreases src, 1
    {
      depth := depth + 1;
      log := src.entries;
      var todo := src.entries.Keys + vanilla.Keys;
      RefilledStart(rules, type_, depth, src, vanilla);
      while todo != {}
        invariant depth == old(depth) + 1
        invariant Refilled(rules, type_, depth, log, src, vanilla, todo)
        decreases |todo|
      {
        var key :| key in todo;
        RefilledAt(rules, type_, depth, log, src, vanilla, todo, key);
        var next := LogKey(key, log, src, vanilla);
        RefilledStep(rules, type_, depth, log, next, src, vanilla, todo, key);
        log := next;
        todo := todo - {key};
      }
      RefilledAll(rules, type_, depth, log, src, vanilla, todo);
      depth := depth - 1;
      same := log == map[];
    }

    method LogKey(key: Key, log: map<Key, Byml>, ghost src: Byml, vanilla: map<Key, Byml>) returns (next: map<Key, Byml>)
      requires src.Map? && Get(log, key) == Get(src.entries, key) && (key in src.entries || key in vanilla)
      modifies this`depth
      ensures depth == old(depth)
      ensures next - {key} == log - {key}
      ensures Get(next, key) == KeyLog(rules, type_, old(depth), key, src, vanilla)
      decreases src, 0
    {
      if key !in log {
        return log[key := Marker(Remove)];
      }
      if key !in vanilla {
        return log;
      }
      var value := log[key];
      assert value == src.entries[key];
      next := log - {key};
      var entry, same := LogEntry(key, value, vanilla[key]);
      if !same {
        next := next[key := entry];
      }
    }

    method LogEntry(key: Key, value: Byml, vanilla: Byml) returns (entry: Byml, same: bool)
      modifies this`depth
      ensures depth == old(depth)
      ensures (entry, same) == DiffEntry(rules, type_, old(depth), key, value, vanilla)
      decreases value, 3
    {
      if key.Name? && value.Array? && vanilla.Array? {
        entry, same := LogArrayChanges(rules.builder(key.text, type_, depth), value.items, vanilla.items);
      } else {
        entry, same := LogChanges(value, vanilla);
      }
    }

    method LogArrayChanges(builder: Builder, src: seq<Byml>, vanilla: seq<Byml>) returns (node: Byml, same: bool)
      modifies this`depth
      ensures depth == old(depth)
      ensures (node, same) == DiffArray(rules, type_, old(depth), builder, src, vanilla)
      decreases src, 2
    {
      var changes;
      match builder {
        case Default => changes := LogByValue(src, vanilla);
        case Keyed(name) => changes := LogByKey(name, src, vanilla);
        case DirectIndex => changes := LogByPosition(src, vanilla);
      }
      return ArrayLog(changes), changes == [];
    }

    method LogByPosition(src: seq<Byml>, vanilla: seq<Byml>) returns (changelog: seq<ArrayChange>)
      modifies this`depth
      ensures depth == old(depth)
      ensures changelog == DirectChanges(rules, type_, old(depth), src, vanilla, 0)
      decreases src, 0
    {
      hide Diff, DirectChanges, PositionsLeft;
      changelog := [];
      var smaller := if |src| < |vanilla| then |src| else |vanilla|;
      var larger := if |src| < |vanilla| then |vanilla| else |src|;
      var i := 0;
      FirstPosition(rules, type_, depth, src, vanilla);
      while i < smaller
        invariant 0 <= i <= smaller && depth == old(depth)
        invariant PositionsLeft(rules, type_, depth, src, vanilla, i, changelog)
      {
        var entry, same := LogChanges(src[i], vanilla[i]);
        EditStep(rules, type_, depth, src, vanilla, i, changelog);
        if !same {
          changelog := changelog + [Change(i, Edit, entry)];
        }
        i := i + 1;
      }
      while i < larger
        invariant smaller <= i <= larger && depth == old(depth)
        invariant PositionsLeft(rules, type_, depth, src, vanilla, i, changelog)
      {
        var change := if |vanilla| < |src| then Change(i, Add, src[i]) else Change(i, Remove, NULL);
        ExtraStep(rules, type_, depth, src, vanilla, i, changelog);
        changelog := changelog + [change];
        i := i + 1;
      }
      LastPosition(rules, type_, depth, src, vanilla, i, changelog);
    }

    method LogByKey(name: KeyName, src: seq<Byml>, vanilla: seq<Byml>) returns (changelog: seq<ArrayChange>)
      modifies this`depth
      ensures depth == old(depth)
      ensures changelog == KeyedChanges(rules, type_, old(depth), name, src, vanilla)
      decreases src, 1
    {
      changelog := [];
      var added := 0;
      var index := CreateIndexCache(vanilla, name);
      var found: seq<bool> := seq(|vanilla|, _ => false);
      var i := 0;
      FoundNone(name, src, vanilla, found);
      while i < |src|
        invariant 0 <= added <= i <= |src| && depth == old(depth)
        invariant RowsLeft(rules, type_, depth, name, src, vanilla, i, added, changelog)
        invariant FoundSoFar(name, src, vanilla, i, found)
      {
        var here, at := LogRow(name, index, src, vanilla, i, added);
        RowStep(rules, type_, depth, name, src, vanilla, i, added, changelog, here);
        FoundOneMoreRow(rules, type_, depth, name, src, vanilla, i, added, found, at);
        changelog := changelog + here;
        if at.Some? {
          found := found[at.value := true];
        } else {
          added := added + 1;
        }
        i := i + 1;
      }
      RowsDone(rules, type_, depth, name, src, vanilla, added, changelog, found);
      ghost var rows := changelog;
      i := 0;
      while i < |vanilla|
        invariant 0 <= i <= |vanilla| && depth == old(depth)
        invariant changelog + RowRemovals(name, src, vanilla, i) == rows + RowRemovals(name, src, vanilla, 0)
      {
        RemovalStep(name, src, vanilla, i, changelog, found[i]);
        if !found[i] {
          changelog := changelog + [Change(i, Remove, NULL)];
        }
        i := i + 1;
      }
      assert changelog == changelog + RowRemovals(name, src, vanilla, i);
    }

    /** What is recorded for one row, and which vanilla row it stands for. */
    method LogRow(name: KeyName, index: map<RowKey, nat>, src: seq<Byml>, vanilla: seq<Byml>, i: nat, added: nat)
      returns (here: seq<ArrayChange>, at: Option<nat>)
      requires added <= i < |src| && index == IndexOf(vanilla, name)
      modifies this`depth
      ensures depth == old(depth)
      ensures (here, at) == RowLog(rules, type_, old(depth), name, src, vanilla, i, added)
      decreases src, 0
    {
      var key := KeyOf(name, src[i]);
      if key.IsEmpty() {
        return [Change(i - added, Add, src[i])], None;
      }
      if key !in index {
        var relative := i - added;
        return [Change(if |vanilla| > relative then relative else i, Add, src[i])], None;
      }
      IndexInRange(vanilla, name);
      var j := index[key];
      var node, same := LogChanges(src[i], vanilla[j]);
      return if same then [] else [ArrayChange(j, Edit, node, key)], Some(j);
    }

    method LogByValue(src: seq<Byml>, vanilla: seq<Byml>) returns (changelog: seq<ArrayChange>)
      modifies this`depth
      ensures depth == old(depth)
      ensures changelog == DefaultChanges(rules, type_, old(depth), src, vanilla)
      decreases src, 0
    {
      changelog := [];
      var taken, matched, queue := MatchByValue(src, vanilla);
      ghost var start: seq<nat> := queue;
      ValuesStart(rules, type_, depth, src, vanilla, queue);
      var i := 0;
      while i < |vanilla|
        invariant 0 <= i <= |vanilla| && depth == old(depth)
        invariant ValuesLeft(rules, type_, depth, src, vanilla, start, changelog, queue, i)
      {
        ValueStep(rules, type_, depth, src, vanilla, start, changelog, queue, i);
        if !taken[i] {
          if i < |src| && !matched[i] {
            var element, _ := LogChanges(src[i], vanilla[i]);
            changelog := changelog + [Change(i, Edit, element)];
            queue := Rest(queue);
          } else {
            changelog := changelog + [Change(i, Remove, NULL)];
          }
        }
        i := i + 1;
      }

      // All of them get the index of the first.
      ghost var changes := changelog;
      ValuesDone(rules, type_, depth, src, vanilla, start, changelog, queue);
      i := 0;
      while i < |queue|
        invariant 0 <= i <= |queue|
        invariant changelog == changes + seq(i, k requires 0 <= k < i => Change(queue[0], Add, src[queue[k]]))
      {
        changelog := changelog + [Change(queue[0], Add, src[queue[i]])];
        i := i + 1;
      }
    }
  }

  /** Pairs each entry with the first equal vanilla entry nothing is paired with yet. */
  method MatchByValue(src: seq<Byml>, vanilla: seq<Byml>) returns (taken: seq<bool>, matched: seq<bool>, queue: seq<nat>)
    ensures |taken| == |vanilla| && |matched| == |src|
    ensures forall j :: 0 <= j < |vanilla| ==> taken[j] == (j in Matched(src, vanilla, |src|).0)
    ensures forall k :: 0 <= k < |src| ==> matched[k] == (k in Matched(src, vanilla, |src|).1)
    ensures queue == Unmatched(Matched(src, vanilla, |src|).1, 0, |src|)
  {
    hide Matched, MatchedSoFar;
    queue := [];
    taken := seq(|vanilla|, _ => false);
    matched := seq(|src|, _ => false);
    var i := 0;
    NoneMatched(src, vanilla, taken, matched);
    while i < |src|
      invariant 0 <= i <= |src| && |taken| == |vanilla| && |matched| == |src|
      invariant MatchedSoFar(src, vanilla, i, taken, matched, queue)
    {
      var j := 0;
      while j < |vanilla| && (taken[j] || vanilla[j] != src[i])
        invariant 0 <= j <= |vanilla| && forall k :: 0 <= k < j ==> taken[k] || vanilla[k] != src[i]
      {
        j := j + 1;
      }
      OneMatched(src, vanilla, i, taken, matched, queue, j);
      if j < |vanilla| {
        matched := matched[i := true];
        taken := taken[j := true];
      } else {
        queue := queue + [i];
      }
      i := i + 1;
    }
    AllMatched(src, vanilla, taken, matched, queue);
  }

  lemma AllMatched(src: seq<Byml>, vanilla: seq<Byml>, taken: seq<bool>, matched: seq<bool>, queue: seq<nat>)
    requires |taken| == |vanilla| && |matched| == |src| && MatchedSoFar(src, vanilla, |src|, taken, matched, queue)
    ensures forall j :: 0 <= j < |vanilla| ==> taken[j] == (j in Matched(src, vanilla, |src|).0)
    ensures forall k :: 0 <= k < |src| ==> matched[k] == (k in Matched(src, vanilla, |src|).1)
    ensures queue == Unmatched(Matched(src, vanilla, |src|).1, 0, |src|)
  {
    hide Matched;
  }

  ghost predicate MatchedSoFar(src: seq<Byml>, vanilla: seq<Byml>, i: nat, taken: seq<bool>, matched: seq<bool>, queue: seq<nat>)
    requires i <= |src| && |taken| == |vanilla| && |matched| == |src|
  {
    && (forall j :: 0 <= j < |vanilla| ==> taken[j] == (j in Matched(src, vanilla, i).0))
    && (forall k :: 0 <= k < |src| ==> matched[k] == (k in Matched(src, vanilla, i).1))
    && (forall k :: k in Matched(src, vanilla, i).1 ==> k < i)
    && queue == Unmatched(Matched(src, vanilla, i).1, 0, i)
  }

  lemma NoneMatched(src: seq<Byml>, vanilla: seq<Byml>, taken: seq<bool>, matched: seq<bool>)
    requires |taken| == |vanilla| && |matched| == |src|
    requires (forall j :: 0 <= j < |vanilla| ==> !taken[j]) && forall k :: 0 <= k < |src| ==> !matched[k]
    ensures MatchedSoFar(src, vanilla, 0, taken, matched, [])
  {
  }

  lemma OneMatched(src: seq<Byml>, vanilla: seq<Byml>, i: nat, taken: seq<bool>, matched: seq<bool>, queue: seq<nat>, j: nat)
    requires i < |src| && |taken| == |vanilla| && |matched| == |src| && MatchedSoFar(src, vanilla, i, taken, matched, queue)
    requires j <= |vanilla| && (forall k :: 0 <= k < j ==> taken[k] || vanilla[k] != src[i])
    requires j < |vanilla| ==> !taken[j] && vanilla[j] == src[i]
    ensures if j < |vanilla| then MatchedSoFar(src, vanilla, i + 1, taken[j := true], matched[i := true], queue)
            else MatchedSoFar(src, vanilla, i + 1, taken, matched, queue + [i])
  {
    hide Unmatched;
    FreeIs(vanilla, Matched(src, vanilla, i).0, src[i], 0, j);
    UnmatchedGrows(Matched(src, vanilla, i).1, i, j < |vanilla|);
  }

  lemma FreeIs(vanilla: seq<Byml>, taken: set<nat>, element: Byml, from: nat, j: nat)
    requires from <= j <= |vanilla| && (forall k :: from <= k < j ==> k in taken || vanilla[k] != element)
    requires j < |vanilla| ==> j !in taken && vanilla[j] == element
    ensures FirstFree(vanilla, taken, element, from) == j
  {
  }

  /** Of rows sharing a key, the last one's position stays. */
  method CreateIndexCache(rows: seq<Byml>, name: KeyName) returns (cache: map<RowKey, nat>)
    ensures cache == IndexOf(rows, name)
  {
    cache := map[];
    if rows == [] || (|rows| == 1 && !(rows[0].Map? && rows[0].kind == Named)) {
      assert |rows| == 1 ==> rows[..0] == [];
      return;
    }
    var i := 0;
    while i < |rows|
      invariant 0 <= i <= |rows|
      invariant cache == IndexOf(rows[..i], name)
    {
      var key := KeyOf(name, rows[i]);
      assert rows[..i + 1][..i] == rows[..i];
      if !key.IsEmpty() {
        cache := cache[key := i];
      }
      i := i + 1;
    }
    assert rows[..i] == rows;
  }

  /** What is recorded for one key of two maps. */
  function KeyLog(rules: Rules, type_: string, depth: int, key: Key, src: Byml, vanilla: map<Key, Byml>): Option<Byml>
    requires src.Map?
  {
    if key !in src.entries then if key in vanilla then Some(Marker(Remove)) else None
    else if key !in vanilla then Some(src.entries[key])
    else
      var (entry, same) := DiffEntry(rules, type_, depth, key, src.entries[key], vanilla[key]);
      if same then None else Some(entry)
  }

  /** The map being refilled: what is still to be looked at is the document's, the rest the changelog's. */
  ghost predicate Refilled(rules: Rules, type_: string, depth: int, log: map<Key, Byml>, src: Byml, vanilla: map<Key, Byml>, todo: set<Key>)
    requires src.Map?
  {
    && (forall k :: k in todo ==> k in src.entries || k in vanilla)
    && forall k :: Get(log, k) == if k in todo then Get(src.entries, k) else KeyLog(rules, type_, depth, k, src, vanilla)
  }

  lemma RefilledStart(rules: Rules, type_: string, depth: int, src: Byml, vanilla: map<Key, Byml>)
    requires src.Map?
    ensures Refilled(rules, type_, depth, src.entries, src, vanilla, src.entries.Keys + vanilla.Keys)
  {
  }

  lemma RefilledAt(rules: Rules, type_: string, depth: int, log: map<Key, Byml>, src: Byml, vanilla: map<Key, Byml>, todo: set<Key>, key: Key)
    requires src.Map? && Refilled(rules, type_, depth, log, src, vanilla, todo) && key in todo
    ensures Get(log, key) == Get(src.entries, key) && (key in src.entries || key in vanilla)
  {
  }

  lemma RefilledStep(rules: Rules, type_: string, depth: int, log: map<Key, Byml>, next: map<Key, Byml>, src: Byml,
                     vanilla: map<Key, Byml>, todo: set<Key>, key: Key)
    requires src.Map? && Refilled(rules, type_, depth, log, src, vanilla, todo)
    requires Get(next, key) == KeyLog(rules, type_, depth, key, src, vanilla) && next - {key} == log - {key}
    ensures Refilled(rules, type_, depth, next, src, vanilla, todo - {key})
  {
    forall k
      ensures Get(next, k) == if k in todo - {key} then Get(src.entries, k) else KeyLog(rules, type_, depth, k, src, vanilla)
    {
      if k != key {
        assert Get(next - {key}, k) == Get(next, k) && Get(log - {key}, k) == Get(log, k);
      }
    }
  }

  lemma RefilledAll(rules: Rules, type_: string, depth: int, log: map<Key, Byml>, src: Byml, vanilla: map<Key, Byml>, todo: set<Key>)
    requires src.Map? && Refilled(rules, type_, depth, log, src, vanilla, todo) && todo == {}
    ensures log == DiffMap(rules, type_, depth - 1, src, vanilla)
  {
    var full := DiffMap(rules, type_, depth - 1, src, vanilla);
    forall k
      ensures k in log <==> k in full
      ensures k in full ==> full[k] == Get(log, k).value
    {
      assert Get(log, k) == KeyLog(rules, type_, depth, k, src, vanilla);
    }
  }

  // ---------- rows by key ----------

  function RowLog(rules: Rules, type_: string, depth: int, name: KeyName, src: seq<Byml>, vanilla: seq<Byml>, i: nat, added: nat):
    (seq<ArrayChange>, Option<nat>)
    requires added <= i < |src|
  {
    var key := KeyOf(name, src[i]);
    if key.IsEmpty() then ([Change(i - added, Add, src[i])], None)
    else if key !in IndexOf(vanilla, name) then
      ([Change(if |vanilla| > i - added then i - added else i, Add, src[i])], None)
    else
      IndexInRange(vanilla, name);
      var j := IndexOf(vanilla, name)[key];
      var (node, same) := Diff(rules, type_, depth, src[i], vanilla[j]);
      (if same then [] else [ArrayChange(j, Edit, node, key)], Some(j))
  }

  ghost predicate RowsLeft(rules: Rules, type_: string, depth: int, name: KeyName, src: seq<Byml>, vanilla: seq<Byml>,
                           i: nat, added: nat, changelog: seq<ArrayChange>)
    requires added <= i <= |src|
  {
    changelog + RowChanges(rules, type_, depth, name, src, vanilla, i, added) == RowChanges(rules, type_, depth, name, src, vanilla, 0, 0)
  }

  /** The changes up to position `i` are in the changelog. */
  ghost predicate PositionsLeft(rules: Rules, type_: string, depth: int, src: seq<Byml>, vanilla: seq<Byml>, i: nat,
                                changelog: seq<ArrayChange>)
  {
    changelog + DirectChanges(rules, type_, depth, src, vanilla, i) == DirectChanges(rules, type_, depth, src, vanilla, 0)
  }

  lemma FirstPosition(rules: Rules, type_: string, depth: int, src: seq<Byml>, vanilla: seq<Byml>)
    ensures PositionsLeft(rules, type_, depth, src, vanilla, 0, [])
  {
    hide DirectChanges;
  }

  lemma LastPosition(rules: Rules, type_: string, depth: int, src: seq<Byml>, vanilla: seq<Byml>, i: nat, changelog: seq<ArrayChange>)
    requires PositionsLeft(rules, type_, depth, src, vanilla, i, changelog) && i >= |src| && i >= |vanilla|
    ensures changelog == DirectChanges(rules, type_, depth, src, vanilla, 0)
  {
    hide Diff;
    assert DirectChanges(rules, type_, depth, src, vanilla, i) == [];
  }

  lemma EditStep(rules: Rules, type_: string, depth: int, src: seq<Byml>, vanilla: seq<Byml>, i: nat, changelog: seq<ArrayChange>)
    requires PositionsLeft(rules, type_, depth, src, vanilla, i, changelog) && i < |src| && i < |vanilla|
    ensures var (entry, same) := Diff(rules, type_, depth, src[i], vanilla[i]);
            PositionsLeft(rules, type_, depth, src, vanilla, i + 1, if same then changelog else changelog + [Change(i, Edit, entry)])
  {
    hide Diff;
    var (entry, same) := Diff(rules, type_, depth, src[i], vanilla[i]);
    var rest := DirectChanges(rules, type_, depth, src, vanilla, i + 1);
    if same {
      assert [] + rest == rest;
    } else {
      Regroup(changelog, [Change(i, Edit, entry)], rest);
    }
  }

  lemma ExtraStep(rules: Rules, type_: string, depth: int, src: seq<Byml>, vanilla: seq<Byml>, i: nat, changelog: seq<ArrayChange>)
    requires PositionsLeft(rules, type_, depth, src, vanilla, i, changelog) && (i < |src| <==> i >= |vanilla|)
    ensures var change := if |vanilla| < |src| then Change(i, Add, src[i]) else Change(i, Remove, NULL);
            PositionsLeft(rules, type_, depth, src, vanilla, i + 1, changelog + [change])
  {
    hide Diff;
    var change := if |vanilla| < |src| then Change(i, Add, src[i]) else Change(i, Remove, NULL);
    Regroup(changelog, [change], DirectChanges(rules, type_, depth, src, vanilla, i + 1));
  }

  lemma Regroup<T>(a: seq<T>, b: seq<T>, c: seq<T>)
    ensures a + b + c == a + (b + c)
  {
  }

  lemma RowStep(rules: Rules, type_: string, depth: int, name: KeyName, src: seq<Byml>, vanilla: seq<Byml>, i: nat, added: nat,
                changelog: seq<ArrayChange>, here: seq<ArrayChange>)
    requires added <= i < |src| && RowsLeft(rules, type_, depth, name, src, vanilla, i, added, changelog)
    requires here == RowLog(rules, type_, depth, name, src, vanilla, i, added).0
    ensures var more := if RowLog(rules, type_, depth, name, src, vanilla, i, added).1.Some? then added else added + 1;
            RowsLeft(rules, type_, depth, name, src, vanilla, i + 1, more, changelog + here)
  {
    var more := if RowLog(rules, type_, depth, name, src, vanilla, i, added).1.Some? then added else added + 1;
    var rest := RowChanges(rules, type_, depth, name, src, vanilla, i + 1, more);
    assert RowChanges(rules, type_, depth, name, src, vanilla, i, added) == here + rest;
    assert (changelog + here) + rest == changelog + (here + rest);
  }

  ghost predicate FoundSoFar(name: KeyName, src: seq<Byml>, vanilla: seq<Byml>, i: nat, found: seq<bool>)
    requires i <= |src|
  {
    |found| == |vanilla| && forall j :: 0 <= j < |vanilla| ==> found[j] == Found(name, src[..i], vanilla, j)
  }

  lemma FoundNone(name: KeyName, src: seq<Byml>, vanilla: seq<Byml>, found: seq<bool>)
    requires |found| == |vanilla| && forall j :: 0 <= j < |vanilla| ==> !found[j]
    ensures FoundSoFar(name, src, vanilla, 0, found)
  {
  }

  lemma FoundOneMoreRow(rules: Rules, type_: string, depth: int, name: KeyName, src: seq<Byml>, vanilla: seq<Byml>, i: nat,
                        added: nat, found: seq<bool>, at: Option<nat>)
    requires i < |src| && FoundSoFar(name, src, vanilla, i, found)
    requires added <= i && at == RowLog(rules, type_, depth, name, src, vanilla, i, added).1
    ensures at.Some? ==> at.value < |vanilla|
    ensures FoundSoFar(name, src, vanilla, i + 1, if at.Some? then found[at.value := true] else found)
  {
    IndexInRange(vanilla, name);
    forall j
      ensures Found(name, src[..i + 1], vanilla, j) <==> Found(name, src[..i], vanilla, j) || StandsFor(name, src[i], vanilla, j)
    {
      if Found(name, src[..i], vanilla, j) {
        var k :| 0 <= k < |src[..i]| && StandsFor(name, src[..i][k], vanilla, j);
        assert StandsFor(name, src[..i + 1][k], vanilla, j);
      }
      if StandsFor(name, src[i], vanilla, j) {
        assert StandsFor(name, src[..i + 1][i], vanilla, j);
      }
      if Found(name, src[..i + 1], vanilla, j) {
        var k :| 0 <= k < |src[..i + 1]| && StandsFor(name, src[..i + 1][k], vanilla, j);
        if k < i { assert StandsFor(name, src[..i][k], vanilla, j); }
      }
    }
  }

  lemma RowsDone(rules: Rules, type_: string, depth: int, name: KeyName, src: seq<Byml>, vanilla: seq<Byml>, added: nat,
                 changelog: seq<ArrayChange>, found: seq<bool>)
    requires added <= |src| && RowsLeft(rules, type_, depth, name, src, vanilla, |src|, added, changelog)
    requires FoundSoFar(name, src, vanilla, |src|, found)
    ensures changelog == RowChanges(rules, type_, depth, name, src, vanilla, 0, 0)
    ensures |found| == |vanilla| && forall j :: 0 <= j < |vanilla| ==> found[j] == Found(name, src, vanilla, j)
  {
    assert src[..|src|] == src;
    assert changelog == changelog + RowChanges(rules, type_, depth, name, src, vanilla, |src|, added);
  }

  lemma RemovalStep(name: KeyName, src: seq<Byml>, vanilla: seq<Byml>, j: nat, changelog: seq<ArrayChange>, found: bool)
    requires j < |vanilla| && found == Found(name, src, vanilla, j)
    ensures (changelog + if found then [] else [Change(j, Remove, NULL)]) + RowRemovals(name, src, vanilla, j + 1)
            == changelog + RowRemovals(name, src, vanilla, j)
    ensures changelog + [] == changelog
  {
  }

  // ---------- entries by value ----------

  function Rest(queue: seq<nat>): seq<nat> { if queue == [] then [] else queue[1..] }

  ghost predicate ValuesLeft(rules: Rules, type_: string, depth: int, src: seq<Byml>, vanilla: seq<Byml>, start: seq<nat>,
                             changelog: seq<ArrayChange>, queue: seq<nat>, i: nat)
    requires i <= |vanilla|
  {
    var (taken, matched) := Matched(src, vanilla, |src|);
    var (changes, left) := ValueChanges(rules, type_, depth, src, vanilla, taken, matched, queue, i);
    ValueChanges(rules, type_, depth, src, vanilla, taken, matched, start, 0) == (changelog + changes, left)
  }

  lemma ValuesStart(rules: Rules, type_: string, depth: int, src: seq<Byml>, vanilla: seq<Byml>, start: seq<nat>)
    ensures ValuesLeft(rules, type_, depth, src, vanilla, start, [], start, 0)
  {
    var (taken, matched) := Matched(src, vanilla, |src|);
    var changes := ValueChanges(rules, type_, depth, src, vanilla, taken, matched, start, 0).0;
    assert [] + changes == changes;
  }

  lemma ValueStep(rules: Rules, type_: string, depth: int, src: seq<Byml>, vanilla: seq<Byml>, start: seq<nat>,
                  changelog: seq<ArrayChange>, queue: seq<nat>, i: nat)
    requires i < |vanilla| && ValuesLeft(rules, type_, depth, src, vanilla, start, changelog, queue, i)
    ensures var (taken, matched) := Matched(src, vanilla, |src|);
            if i in taken then ValuesLeft(rules, type_, depth, src, vanilla, start, changelog, queue, i + 1)
            else if i < |src| && i !in matched then
              ValuesLeft(rules, type_, depth, src, vanilla, start,
                         changelog + [Change(i, Edit, Diff(rules, type_, depth, src[i], vanilla[i]).0)], Rest(queue), i + 1)
            else ValuesLeft(rules, type_, depth, src, vanilla, start, changelog + [Change(i, Remove, NULL)], queue, i + 1)
  {
    var (taken, matched) := Matched(src, vanilla, |src|);
    if i !in taken {
      var here := if i < |src| && i !in matched then [Change(i, Edit, Diff(rules, type_, depth, src[i], vanilla[i]).0)]
                  else [Change(i, Remove, NULL)];
      var next := if i < |src| && i !in matched then Rest(queue) else queue;
      var rest := ValueChanges(rules, type_, depth, src, vanilla, taken, matched, next, i + 1).0;
      assert (changelog + here) + rest == changelog + (here + rest);
    }
  }

  lemma ValuesDone(rules: Rules, type_: string, depth: int, src: seq<Byml>, vanilla: seq<Byml>, start: seq<nat>,
                   changelog: seq<ArrayChange>, queue: seq<nat>)
    requires ValuesLeft(rules, type_, depth, src, vanilla, start, changelog, queue, |vanilla|)
    requires start == Unmatched(Matched(src, vanilla, |src|).1, 0, |src|)
    ensures forall k :: 0 <= k < |queue| ==> queue[k] < |src|
    ensures DefaultChanges(rules, type_, depth, src, vanilla)
            == changelog + seq(|queue|, k requires 0 <= k < |queue| => Change(queue[0], Add, src[queue[k]]))
  {
    forall k | 0 <= k < |queue|
      ensures queue[k] < |src|
    {
      assert queue[k] in queue && queue[k] in start;
    }
    assert changelog + [] == changelog;
  }

  lemma {:induction false} UnmatchedOfMore(matched: set<nat>, extra: set<nat>, i: nat, n: nat)
    requires i <= n && forall k :: k in extra ==> k >= n
    ensures Unmatched(matched + extra, i, n) == Unmatched(matched, i, n)
    decreases n - i
  {
    if i < n {
      UnmatchedOfMore(matched, extra, i + 1, n);
    }
  }

  lemma {:induction false} UnmatchedLast(matched: set<nat>, i: nat, n: nat)
    requires i <= n
    ensures Unmatched(matched, i, n + 1) == Unmatched(matched, i, n) + if n in matched then [] else [n]
    decreases n - i
  {
    if i < n {
      UnmatchedLast(matched, i + 1, n);
    } else {
      assert Unmatched(matched, n + 1, n + 1) == [];
    }
  }

  lemma UnmatchedGrows(matched: set<nat>, n: nat, more: bool)
    requires forall k :: k in matched ==> k < n
    ensures var now := if more then matched + {n} else matched;
            Unmatched(now, 0, n + 1) == Unmatched(matched, 0, n) + if more then [] else [n]
  {
    UnmatchedOfMore(matched, {n}, 0, n);
    UnmatchedLast(if more then matched + {n} else matched, 0, n);
  }
}
