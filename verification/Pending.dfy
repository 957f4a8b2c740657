/** Merging with every removal and addition kept at the node it concerns, to be settled once at the
    end.  `Tracking` (in Tracking.dfy) keeps them by path from the root instead. */
module Pending {
  import opened Documents
  import opened Changelogs

  /** What is recorded for one array.  Each changelog that adds to it contributes one list. */
  datatype ArrayEntry = ArrayEntry(name: Option<string>, depth: int, additions: seq<seq<(int, Byml)>>, removals: set<int>)

  /** A document with what is still to be done to its maps and arrays. */
  datatype Tree =
    | Plain(node: Byml)
    | PMap(kind: Kind, entries: map<Key, Tree>, removed: set<Key>)
    | PArray(items: seq<Tree>, entry: Option<ArrayEntry>)
  {
    predicate IsContainer() { PMap? || PArray? || (Plain? && node.IsContainer()) }
  }

  /** The document as it stands, ignoring what is pending. */
  function Strip(tree: Tree): Byml {
    match tree
    case Plain(node) => node
    case PMap(kind, entries, _) => Map(kind, map k | k in entries :: Strip(entries[k]))
    case PArray(items, _) => Array(seq(|items|, i requires 0 <= i < |items| => Strip(items[i])))
  }

  /** A document nothing is pending in. */
  function Fresh(node: Byml): Tree {
    match node
    case Map(kind, entries) => PMap(kind, map k | k in entries :: Fresh(entries[k]), {})
    case Array(items) => PArray(seq(|items|, i requires 0 <= i < |items| => Fresh(items[i])), None)
    case _ => Plain(node)
  }

  // ---------- merging one changelog ----------

  /** What merging needs to know besides the tables: the overriding document type, if any. */
  datatype Context = Context(rules: Rules, type_: string, override: Option<string>)
  {
    function MergeType(): string { if override.Some? then override.value else "" }
    function ApplyType(): string { if override.Some? then override.value else type_ }
  }

  function Merge(c: Context, depth: int, base: Tree, log: Byml): Option<Tree>
    decreases log, 2
  {
    match (base, log)
    case (PMap(kind, _, _), Map(kind', _)) => if kind == kind' then MergeMap(c, depth + 1, base, log) else None
    case (PArray(items, entry), ArrayLog(changes)) => MergeArray(c, depth, None, items, entry, changes)
    case (PArray(items, entry), Array(more)) =>
      Some(PArray(items + seq(|more|, i requires 0 <= i < |more| => Fresh(more[i])), entry))
    case (_, _) => None
  }

  function MergeEntry(c: Context, depth: int, key: Key, base: Tree, log: Byml): Option<Tree>
    decreases log, 3
  {
    if key.Name? && log.ArrayLog? && base.PArray? then
      MergeArray(c, depth, Some(key.text), base.items, base.entry, log.changes)
    else if log.IsContainer() && base.IsContainer() then Merge(c, depth, base, log)
    else Some(Fresh(log))
  }

  predicate Sets(log: map<Key, Byml>, k: Key) {
    k in log && !log[k].IsRemove()
  }

  function MergeMap(c: Context, depth: int, base: Tree, log: Byml): Option<Tree>
    requires base.PMap? && log.Map?
    decreases log, 1
  {
    if forall k :: k in log.entries && k in base.entries && Sets(log.entries, k) ==>
         MergeEntry(c, depth, k, base.entries[k], log.entries[k]).Some?
    then
      Some(PMap(base.kind,
        map k | k in base.entries.Keys + log.entries.Keys && (k in base.entries || Sets(log.entries, k))
          :: if !Sets(log.entries, k) then base.entries[k]
             else if k !in base.entries then Fresh(log.entries[k])
             else MergeEntry(c, depth, k, base.entries[k], log.entries[k]).value,
        (base.removed + set k | k in log.entries && !Sets(log.entries, k)) - set k | k in log.entries && Sets(log.entries, k)))
    else None
  }

  /** One array being merged: the lists of additions and the key index are made when first needed. */
  datatype ArrayState = ArrayState(items: seq<Tree>, entry: Option<ArrayEntry>, index: Option<map<RowKey, nat>>, list: Option<nat>)

  function MergeArray(c: Context, depth: int, name: Option<string>, items: seq<Tree>, entry: Option<ArrayEntry>,
                      changes: seq<ArrayChange>): Option<Tree>
    decreases changes, 1
  {
    var keyName := if name.Some? then c.rules.mergerKey(name.value, c.MergeType(), depth) else None;
    match MergeChanges(c, depth, name, keyName, ArrayState(items, entry, None, None), changes)
    case None => None
    case Some(state) => Some(PArray(state.items, state.entry))
  }

  function MergeChanges(c: Context, depth: int, name: Option<string>, keyName: Option<KeyName>, state: ArrayState,
                        changes: seq<ArrayChange>): Option<ArrayState>
    decreases changes, 0, |changes|
  {
    if changes == [] then Some(state)
    else
      match MergeChanges(c, depth, name, keyName, state, changes[..|changes| - 1])
      case None => None
      case Some(before) => MergeChange(c, depth, name, keyName, before, changes[|changes| - 1])
  }

  function WithAddition(state: ArrayState, depth: int, name: Option<string>, index: int, node: Byml): ArrayState {
    var entry := if state.entry.Some? then state.entry.value else ArrayEntry(name, depth, [], {});
    var list := if state.list.Some? then state.list.value else |entry.additions|;
    var additions := if state.list.Some? then entry.additions else entry.additions + [[]];
    if list < |additions| then
      state.(entry := Some(entry.(additions := additions[list := additions[list] + [(index, node)]])), list := Some(list))
    else state
  }

  function WithRemoval(state: ArrayState, index: int): ArrayState {
    var entry := if state.entry.Some? then state.entry.value else ArrayEntry(None, 0, [], {});
    state.(entry := Some(entry.(removals := entry.removals + {index})))
  }

  function WithoutRemoval(state: ArrayState, index: int): ArrayState {
    if state.entry.None? then state
    else state.(entry := Some(state.entry.value.(removals := state.entry.value.removals - {index})))
  }

  function StripAll(items: seq<Tree>): seq<Byml> {
    seq(|items|, i requires 0 <= i < |items| => Strip(items[i]))
  }

  /** The row an edit is for, and the key index if it had to be made. */
  function BestMatch(rows: seq<Byml>, index: int, key: RowKey, keyName: Option<KeyName>, cache: Option<map<RowKey, nat>>):
    (Option<nat>, Option<map<RowKey, nat>>)
  {
    var inRange := 0 <= index < |rows|;
    if keyName.None? || key.IsEmpty() || (inRange && KeyOf(keyName.value, rows[index]) == key) then
      (if inRange then Some(index) else None, cache)
    else
      var lookup := if cache.Some? then cache.value else IndexOf(rows, keyName.value);
      (Get(lookup, key), Some(lookup))
  }

  function MergeChange(c: Context, depth: int, name: Option<string>, keyName: Option<KeyName>, state: ArrayState,
                       change: ArrayChange): Option<ArrayState>
    decreases change, 4
  {
    match change.change
    case Add => Some(WithAddition(state, depth, name, change.index, change.node))
    case Remove => Some(WithRemoval(state, change.index))
    case Edit =>
      var s := WithoutRemoval(state, change.index);
      match BestMatch(StripAll(s.items), change.index, change.key, keyName, s.index)
      case (None, _) => None
      case (Some(at), cache) =>
        if at >= |s.items| then None
        else
          var row := if change.node.IsContainer() then Merge(c, depth, s.items[at], change.node) else Some(Fresh(change.node));
          if row.None? then None else Some(s.(items := s.items[at := row.value], index := cache))
  }

  // ---------- settling ----------

  function NonNegative(index: int): nat { if index < 0 then 0 else index }

  /** An array being settled: how many rows were inserted, and where the keyed ones are. */
  datatype Settling = Settling(rows: seq<Byml>, offset: nat, keyed: map<RowKey, nat>)

  /** Where an addition goes: its index plus the number of rows inserted so far, or the end. */
  function InsertAt(s: Settling, index: int): nat {
    if |s.rows| > NonNegative(index) + s.offset then NonNegative(index) + s.offset else |s.rows|
  }

  function Insert(s: Settling, index: int, node: Byml): Settling {
    var at := InsertAt(s, index);
    s.(rows := s.rows[..at] + [node] + s.rows[at..], offset := s.offset + 1)
  }

  function InsertAll(s: Settling, index: int, nodes: seq<Byml>): Settling {
    if nodes == [] then s else Insert(InsertAll(s, index, nodes[..|nodes| - 1]), index, nodes[|nodes| - 1])
  }

  /** Adds `value` to the list of its key, or starts one at the end. */
  function AddToGroup<K(==), V>(groups: seq<(K, seq<V>)>, key: K, value: V): seq<(K, seq<V>)> {
    if groups == [] then [(key, [value])]
    else if groups[0].0 == key then [(key, groups[0].1 + [value])] + groups[1..]
    else [groups[0]] + AddToGroup(groups[1..], key, value)
  }

  function GroupsBy<K(==), V>(pairs: seq<(K, V)>): seq<(K, seq<V>)> {
    if pairs == [] then []
    else AddToGroup(GroupsBy(pairs[..|pairs| - 1]), pairs[|pairs| - 1].0, pairs[|pairs| - 1].1)
  }

  function Flatten<T>(lists: seq<seq<T>>): seq<T> {
    if lists == [] then [] else Flatten(lists[..|lists| - 1]) + lists[|lists| - 1]
  }

  /** Puts a group before the first one with a larger index. */
  function InsertGroup(groups: seq<(int, seq<Byml>)>, group: (int, seq<Byml>)): seq<(int, seq<Byml>)> {
    if groups == [] || group.0 < groups[0].0 then [group] + groups
    else [groups[0]] + InsertGroup(groups[1..], group)
  }

  function SortGroups(groups: seq<(int, seq<Byml>)>): seq<(int, seq<Byml>)> {
    if groups == [] then [] else InsertGroup(SortGroups(groups[..|groups| - 1]), groups[|groups| - 1])
  }

  function Marked(rows: seq<Byml>, removals: set<int>): seq<Byml> {
    seq(|rows|, i requires 0 <= i < |rows| => if i in removals then Marker(Remove) else rows[i])
  }

  /** The rows that are not removal marks, in order. */
  function Retained(rows: seq<Byml>): seq<Byml> {
    if rows == [] then []
    else Retained(rows[..|rows| - 1]) + if rows[|rows| - 1].IsRemove() then [] else [rows[|rows| - 1]]
  }

  ghost function Largest(s: set<nat>): (largest: nat)
    ensures forall x :: x in s ==> x <= largest
    ensures s != {} ==> largest in s
    ensures s == {} ==> largest == 0
  {
    if s == {} then 0
    else
      var x :| x in s;
      var rest := Largest(s - {x});
      assert forall y :: y in s ==> y == x || y in s - {x};
      if x < rest then rest else x
  }

  /** How deep the containers of a node nest. */
  ghost function Height(node: Byml): nat {
    match node
    case Leaf(_) => 0
    case Marker(_) => 0
    case Array(items) => 1 + Largest(set i | 0 <= i < |items| :: Height(items[i]))
    case Map(_, entries) => 1 + Largest(set k | k in entries :: Height(entries[k]))
    case ArrayLog(changes) => 1 + Largest(set i | 0 <= i < |changes| :: Height(changes[i].node))
  }

  ghost function EntryHeight(entry: ArrayEntry): nat {
    Largest(set l, i | 0 <= l < |entry.additions| && 0 <= i < |entry.additions[l]| :: Height(entry.additions[l][i].1))
  }

  /** The height of the tallest addition still to be made. */
  ghost function Tallest(tree: Tree): nat {
    match tree
    case Plain(_) => 0
    case PMap(_, entries, _) => Largest(set k | k in entries :: Tallest(entries[k]))
    case PArray(items, entry) =>
      var inside := Largest(set i | 0 <= i < |items| :: Tallest(items[i]));
      if entry.Some? && inside < EntryHeight(entry.value) then EntryHeight(entry.value) else inside
  }

  ghost function MergeAll(c: Context, depth: int, base: Tree, logs: seq<Byml>): Option<Tree> {
    if logs == [] then Some(base)
    else
      match MergeAll(c, depth, base, logs[..|logs| - 1])
      case None => None
      case Some(tree) => Merge(c, depth, tree, logs[|logs| - 1])
  }

  /** One row out of several that share a key: what each changes in the first is merged into it. */
  ghost function MergeRows(c: Context, depth: int, bound: nat, base: Byml, rows: seq<Byml>): Option<Byml>
    decreases bound, 0, 0
  {
    var logs := seq(|rows|, i requires 0 <= i < |rows| => Diff(c.rules, c.type_, depth, rows[i], base).0);
    match MergeAll(Context(c.rules, c.type_, None), 0, Fresh(base), logs)
    case None => None
    case Some(tree) =>
      // The rows are no taller than `bound`, so what they add inside each other is shorter.
      if Tallest(tree) < bound then Settle(Context(c.rules, c.type_, None), tree) else None
  }

  ghost function KeyedGroup(c: Context, depth: int, bound: nat, s: Settling, index: int, key: RowKey, nodes: seq<Byml>): Option<Settling>
    requires nodes != []
    decreases bound, 0, 1
  {
    if key.IsEmpty() then Some(InsertAll(s, index, nodes))
    else
      var (marked, row) :=
        if key in s.keyed && s.keyed[key] < |s.rows| then
          (s.(rows := s.rows[s.keyed[key] := Marker(Remove)]), MergeRows(c, depth, bound, s.rows[s.keyed[key]], nodes))
        else if |nodes| == 1 then (s, Some(nodes[0]))
        else (s, MergeRows(c, depth, bound, nodes[0], nodes[1..]));
      if row.None? then None
      else
        var inserted := Insert(marked, index, row.value);
        Some(inserted.(keyed := inserted.keyed[key := InsertAt(marked, index)]))
  }

  ghost function KeyedGroups(c: Context, depth: int, bound: nat, s: Settling, index: int, groups: seq<(RowKey, seq<Byml>)>): Option<Settling>
    decreases bound, 0, 2, |groups|
  {
    if groups == [] then Some(s)
    else
      match KeyedGroups(c, depth, bound, s, index, groups[..|groups| - 1])
      case None => None
      case Some(before) =>
        var (key, nodes) := groups[|groups| - 1];
        if nodes == [] then Some(before) else KeyedGroup(c, depth, bound, before, index, key, nodes)
  }

  function Keys(name: Option<KeyName>, nodes: seq<Byml>): seq<(RowKey, Byml)> {
    seq(|nodes|, i requires 0 <= i < |nodes| => (if name.Some? then KeyOf(name.value, nodes[i]) else NO_KEY, nodes[i]))
  }

  ghost function SettleGroups(c: Context, name: Option<string>, depth: int, bound: nat, s: Settling,
                              groups: seq<(int, seq<Byml>)>): Option<Settling>
    decreases bound, 0, 3, |groups|
  {
    if groups == [] then Some(s)
    else
      match SettleGroups(c, name, depth, bound, s, groups[..|groups| - 1])
      case None => None
      case Some(before) =>
        var (index, nodes) := groups[|groups| - 1];
        if name.Some? then
          KeyedGroups(c, depth, bound, before, index, GroupsBy(Keys(c.rules.mergerKey(name.value, c.ApplyType(), depth), nodes)))
        else Some(InsertAll(before, index, nodes))
  }

  /** Removals marked, additions inserted by increasing index, marks dropped. */
  ghost function SettleArray(c: Context, rows: seq<Byml>, entry: ArrayEntry): Option<seq<Byml>>
    decreases EntryHeight(entry), 0, 4
  {
    match SettleGroups(c, entry.name, entry.depth, EntryHeight(entry), Settling(Marked(rows, entry.removals), 0, map[]),
                       SortGroups(GroupsBy(Flatten(entry.additions))))
    case None => None
    case Some(s) => Some(Retained(s.rows))
  }

  /** One pass over the document, the deepest nodes first: maps lose their removed keys, arrays get
      their removals and additions. */
  ghost function Settle(c: Context, tree: Tree): Option<Byml>
    decreases Tallest(tree), 1, tree
  {
    match tree
    case Plain(node) => Some(node)
    case PMap(kind, entries, removed) =>
      TallestChild(tree);
      if forall k :: k in entries && k !in removed ==> Settle(c, entries[k]).Some?
      then Some(Map(kind, map k | k in entries && k !in removed :: Settle(c, entries[k]).value))
      else None
    case PArray(items, entry) =>
      TallestChild(tree);
      if forall i :: 0 <= i < |items| ==> Settle(c, items[i]).Some? then
        var rows := seq(|items|, i requires 0 <= i < |items| => Settle(c, items[i]).value);
        if entry.None? then Some(Array(rows))
        else match SettleArray(c, rows, entry.value)
          case None => None
          case Some(settled) => Some(Array(settled))
      else None
  }

  lemma TallestChild(tree: Tree)
    ensures tree.PMap? ==> forall k :: k in tree.entries ==> Tallest(tree.entries[k]) <= Tallest(tree)
    ensures tree.PArray? ==> forall i :: 0 <= i < |tree.items| ==> Tallest(tree.items[i]) <= Tallest(tree)
    ensures tree.PArray? && tree.entry.Some? ==> EntryHeight(tree.entry.value) <= Tallest(tree)
  {
    match tree
    case Plain(_) =>
    case PMap(_, entries, _) =>
      var heights := set k | k in entries :: Tallest(entries[k]);
      assert forall k :: k in entries ==> Tallest(entries[k]) in heights;
    case PArray(items, _) =>
      var heights := set i | 0 <= i < |items| :: Tallest(items[i]);
      assert forall i :: 0 <= i < |items| ==> Tallest(items[i]) in heights;
  }
}
