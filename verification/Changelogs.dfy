/** What a document changed with respect to another, as a changelog document. */
module Changelogs {
  import opened Documents

  datatype Builder = Default | Keyed(name: KeyName) | DirectIndex

  /** The tables naming how arrays are compared when a changelog is made, and what identifies their
      rows when one is merged: name of the array, type of the document, depth in maps. */
  datatype Rules = Rules(
    builder: (string, string, int) -> Builder,
    mergerKey: (string, string, int) -> Option<KeyName>)

  const AREA_NUMBER := KeyName(["AreaNumber"], None)

  function UnnamedBuilder(type_: string, depth: int): Builder {
    if type_ == "ecocat" && depth == 0 then Keyed(AREA_NUMBER) else Default
  }

  /** Row key to position; of rows sharing a key the last one counts. */
  function IndexOf(rows: seq<Byml>, name: KeyName): map<RowKey, nat>
  {
    if rows == [] then map[]
    else
      var last := |rows| - 1;
      var before := IndexOf(rows[..last], name);
      var key := KeyOf(name, rows[last]);
      if key.IsEmpty() then before else before[key := last]
  }

  function Change(index: int, change: ChangeType, node: Byml): ArrayChange {
    ArrayChange(index, change, node, NO_KEY)
  }

  const NULL := Leaf(Null)

  /** The changelog of `src` against `vanilla`, and whether there is nothing to record. */
  function Diff(rules: Rules, type_: string, depth: int, src: Byml, vanilla: Byml): (Byml, bool)
    decreases src, 2
  {
    match (src, vanilla)
    case (Map(kind, _), Map(kind', entries)) =>
      if kind == kind' then
        var log := DiffMap(rules, type_, depth, src, entries);
        (Map(kind, log), log == map[])
      else (src, false)
    case (Array(items), Array(items')) =>
      DiffArray(rules, type_, depth, UnnamedBuilder(type_, depth), items, items')
    case (Leaf(value), Leaf(value')) => (src, value == value')
    case (_, _) => (src, false)
  }

  function DiffEntry(rules: Rules, type_: string, depth: int, key: Key, src: Byml, vanilla: Byml): (Byml, bool)
    decreases src, 3
  {
    if key.Name? && src.Array? && vanilla.Array? then
      DiffArray(rules, type_, depth, rules.builder(key.text, type_, depth), src.items, vanilla.items)
    else
      Diff(rules, type_, depth, src, vanilla)
  }

  function DiffMap(rules: Rules, type_: string, depth: int, src: Byml, vanilla: map<Key, Byml>): (log: map<Key, Byml>)
    requires src.Map?
    decreases src, 0
  {
    map k | k in src.entries.Keys + vanilla.Keys
            && (k in src.entries && k in vanilla ==> !DiffEntry(rules, type_, depth + 1, k, src.entries[k], vanilla[k]).1)
      :: if k !in src.entries then Marker(Remove)
         else if k !in vanilla then src.entries[k]
         else DiffEntry(rules, type_, depth + 1, k, src.entries[k], vanilla[k]).0
  }

  function DiffArray(rules: Rules, type_: string, depth: int, builder: Builder, src: seq<Byml>, vanilla: seq<Byml>): (Byml, bool)
    decreases src, 1
  {
    var changes := match builder
      case Default => DefaultChanges(rules, type_, depth, src, vanilla)
      case Keyed(name) => KeyedChanges(rules, type_, depth, name, src, vanilla)
      case DirectIndex => DirectChanges(rules, type_, depth, src, vanilla, 0);
    (ArrayLog(changes), changes == [])
  }

  // ---------- position by position ----------

  function DirectChanges(rules: Rules, type_: string, depth: int, src: seq<Byml>, vanilla: seq<Byml>, i: nat): seq<ArrayChange>
    decreases src, 0, |src| + |vanilla| - i
  {
    if i >= |src| && i >= |vanilla| then []
    else
      var here :=
        if i >= |src| then [Change(i, Remove, NULL)]
        else if i >= |vanilla| then [Change(i, Add, src[i])]
        else
          var (node, same) := Diff(rules, type_, depth, src[i], vanilla[i]);
          if same then [] else [Change(i, Edit, node)];
      here + DirectChanges(rules, type_, depth, src, vanilla, i + 1)
  }

  // ---------- by key ----------

  /** The changes of rows `i` on, when `added` earlier rows were additions. */
  function RowChanges(rules: Rules, type_: string, depth: int, name: KeyName, src: seq<Byml>, vanilla: seq<Byml>,
                      i: nat, added: nat): seq<ArrayChange>
    requires added <= i <= |src|
    decreases src, 0, |src| - i
  {
    if i == |src| then []
    else
      var key := KeyOf(name, src[i]);
      var index := IndexOf(vanilla, name);
      if key.IsEmpty() then
        [Change(i - added, Add, src[i])] + RowChanges(rules, type_, depth, name, src, vanilla, i + 1, added + 1)
      else if key !in index then
        var at := if |vanilla| > i - added then i - added else i;
        [Change(at, Add, src[i])] + RowChanges(rules, type_, depth, name, src, vanilla, i + 1, added + 1)
      else
        IndexInRange(vanilla, name);
        var (node, same) := Diff(rules, type_, depth, src[i], vanilla[index[key]]);
        (if same then [] else [ArrayChange(index[key], Edit, node, key)])
        + RowChanges(rules, type_, depth, name, src, vanilla, i + 1, added)
  }

  lemma IndexInRange(rows: seq<Byml>, name: KeyName)
    ensures forall key :: key in IndexOf(rows, name) ==>
              IndexOf(rows, name)[key] < |rows| && !key.IsEmpty() && KeyOf(name, rows[IndexOf(rows, name)[key]]) == key
  {
    if rows != [] {
      IndexInRange(rows[..|rows| - 1], name);
    }
  }

  /** What one row of the modded array contributes, as the changelog has it. */
  ghost predicate IsRowChange(rules: Rules, type_: string, depth: int, name: KeyName, row: Byml, vanilla: seq<Byml>, here: seq<ArrayChange>) {
    var index := IndexOf(vanilla, name);
    var key := KeyOf(name, row);
    if key !in index then |here| == 1 && here[0].change == Add && here[0].node == row
    else
      index[key] < |vanilla| &&
      (var (node, same) := Diff(rules, type_, depth, row, vanilla[index[key]]);
       here == if same then [] else [ArrayChange(index[key], Edit, node, key)])
  }

  /** The changes of one row, taken off the front of the list. */
  lemma RowChange(rules: Rules, type_: string, depth: int, name: KeyName, src: seq<Byml>, vanilla: seq<Byml>, i: nat, added: nat)
    returns (here: seq<ArrayChange>, more: nat)
    requires added <= i < |src|
    ensures more <= i + 1
    ensures RowChanges(rules, type_, depth, name, src, vanilla, i, added)
            == here + RowChanges(rules, type_, depth, name, src, vanilla, i + 1, more)
    ensures IsRowChange(rules, type_, depth, name, src[i], vanilla, here)
  {
    IndexInRange(vanilla, name);
    var key := KeyOf(name, src[i]);
    var index := IndexOf(vanilla, name);
    if key.IsEmpty() {
      here, more := [Change(i - added, Add, src[i])], added + 1;
    } else if key !in index {
      here, more := [Change(if |vanilla| > i - added then i - added else i, Add, src[i])], added + 1;
    } else {
      var (node, same) := Diff(rules, type_, depth, src[i], vanilla[index[key]]);
      here, more := if same then [] else [ArrayChange(index[key], Edit, node, key)], added;
    }
  }

  /** Some row of `src` stands for vanilla's row `j`. */
  predicate Found(name: KeyName, src: seq<Byml>, vanilla: seq<Byml>, j: nat) {
    exists i :: 0 <= i < |src| && StandsFor(name, src[i], vanilla, j)
  }

  predicate StandsFor(name: KeyName, row: Byml, vanilla: seq<Byml>, j: nat) {
    var index := IndexOf(vanilla, name);
    KeyOf(name, row) in index && index[KeyOf(name, row)] == j
  }

  function RowRemovals(name: KeyName, src: seq<Byml>, vanilla: seq<Byml>, j: nat): seq<ArrayChange>
    requires j <= |vanilla|
    decreases |vanilla| - j
  {
    if j == |vanilla| then []
    else (if Found(name, src, vanilla, j) then [] else [Change(j, Remove, NULL)]) + RowRemovals(name, src, vanilla, j + 1)
  }

  function KeyedChanges(rules: Rules, type_: string, depth: int, name: KeyName, src: seq<Byml>, vanilla: seq<Byml>): seq<ArrayChange>
    decreases src, 0, |src| + 1
  {
    RowChanges(rules, type_, depth, name, src, vanilla, 0, 0) + RowRemovals(name, src, vanilla, 0)
  }

  // ---------- by value ----------

  /** The first vanilla entry at or after `j` equal to `element` and not taken yet, or the length. */
  function FirstFree(vanilla: seq<Byml>, taken: set<nat>, element: Byml, j: nat): (r: nat)
    requires j <= |vanilla|
    ensures j <= r <= |vanilla| && (r < |vanilla| ==> r !in taken && vanilla[r] == element)
    ensures forall k :: j <= k < r ==> k in taken || vanilla[k] != element
    decreases |vanilla| - j
  {
    if j == |vanilla| || (j !in taken && vanilla[j] == element) then j
    else FirstFree(vanilla, taken, element, j + 1)
  }

  /** Which vanilla entries and which of the first `i` source entries are matched with each other. */
  function Matched(src: seq<Byml>, vanilla: seq<Byml>, i: nat): (set<nat>, set<nat>)
    requires i <= |src|
  {
    if i == 0 then ({}, {})
    else
      var (taken, matched) := Matched(src, vanilla, i - 1);
      var j := FirstFree(vanilla, taken, src[i - 1], 0);
      if j < |vanilla| then (taken + {j}, matched + {i - 1}) else (taken, matched)
  }

  function Unmatched(matched: set<nat>, i: nat, n: nat): (queue: seq<nat>)
    requires i <= n
    ensures forall q :: q in queue ==> i <= q < n
    decreases n - i
  {
    if i == n then [] else (if i in matched then [] else [i]) + Unmatched(matched, i + 1, n)
  }

  /** Changes to vanilla entries `i` on; `queue` holds the source entries still to be added, and an
      edit takes its first one off, whichever that is. */
  function ValueChanges(rules: Rules, type_: string, depth: int, src: seq<Byml>, vanilla: seq<Byml>,
                        taken: set<nat>, matched: set<nat>, queue: seq<nat>, i: nat): (r: (seq<ArrayChange>, seq<nat>))
    requires i <= |vanilla|
    ensures forall q :: q in r.1 ==> q in queue
    decreases src, 0, |vanilla| - i
  {
    if i == |vanilla| then ([], queue)
    else if i in taken then ValueChanges(rules, type_, depth, src, vanilla, taken, matched, queue, i + 1)
    else if i < |src| && i !in matched then
      var edit := Change(i, Edit, Diff(rules, type_, depth, src[i], vanilla[i]).0);
      var rest := if queue == [] then [] else queue[1..];
      var (changes, left) := ValueChanges(rules, type_, depth, src, vanilla, taken, matched, rest, i + 1);
      ([edit] + changes, left)
    else
      var (changes, left) := ValueChanges(rules, type_, depth, src, vanilla, taken, matched, queue, i + 1);
      ([Change(i, Remove, NULL)] + changes, left)
  }

  lemma LeftInRange(left: seq<nat>, queue: seq<nat>, n: nat)
    requires forall q :: q in left ==> q in queue
    requires forall q :: q in queue ==> q < n
    ensures forall k :: 0 <= k < |left| ==> left[k] < n
  {
    forall k | 0 <= k < |left|
      ensures left[k] < n
    {
      assert left[k] in left;
    }
  }

  function DefaultChanges(rules: Rules, type_: string, depth: int, src: seq<Byml>, vanilla: seq<Byml>): seq<ArrayChange>
    decreases src, 0, |src| + |vanilla| + 1
  {
    var (taken, matched) := Matched(src, vanilla, |src|);
    var queue := Unmatched(matched, 0, |src|);
    var (changes, left) := ValueChanges(rules, type_, depth, src, vanilla, taken, matched, queue, 0);
    LeftInRange(left, queue, |src|);
    changes + seq(|left|, k requires 0 <= k < |left| => Change(left[0], Add, src[left[k]]))
  }
}
