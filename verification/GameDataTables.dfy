/** All tables of the GameDataList: each is merged by its own changelogs. */
module GameDataTables {
  import opened Documents
  import opened GameData
  import opened GameDataMerge
  import opened GameDataResult

  type Rows = seq<Byml>

  /** What one changelog says of the tables it touches. */
  type Changelog = map<string, map<nat, Byml>>

  /** The one table whose rows have 64 bit hashes. */
  predicate Wide(name: string) { name == "Bool64bitKey" }

  ghost predicate Touched(changelogs: seq<Changelog>, name: string) {
    exists n :: 0 <= n < |changelogs| && name in changelogs[n]
  }

  function EntriesFor(changelog: Changelog, name: string): map<nat, Byml> {
    if name in changelog then changelog[name] else map[]
  }

  /** What the changelogs say of one table, in order. */
  function ForTable(changelogs: seq<Changelog>, name: string): seq<map<nat, Byml>> {
    seq(|changelogs|, n requires 0 <= n < |changelogs| => EntriesFor(changelogs[n], name))
  }

  /** A table can take the changelogs that touch it. */
  ghost predicate Mergeable(rows: Rows, changelogs: seq<Changelog>, name: string) {
    Touched(changelogs, name) ==>
      ToldApart(Wide(name), rows)
      && forall n :: 0 <= n < |changelogs| && name in changelogs[n] ==> Proper(Wide(name), Hashes(Wide(name), rows), changelogs[n][name])
  }

  ghost predicate TableMerged(cx: Contexts, rows: Rows, changelogs: seq<Changelog>, name: string, result: Rows) {
    if Touched(changelogs, name) then
      Sorted(Wide(name), result) && forall h :: RowByHistory(cx, Wide(name), rows, ForTable(changelogs, name), result, h)
    else result == rows
  }

  /** Some row of a table that is touched cannot be merged or settled. */
  ghost predicate TableFails(cx: Contexts, rows: Rows, changelogs: seq<Changelog>, name: string) {
    Touched(changelogs, name) && exists h :: CannotSettle(cx, Wide(name), rows, ForTable(changelogs, name), h)
  }

  ghost predicate Missing(tables: map<string, Rows>, changelogs: seq<Changelog>) {
    exists name :: Touched(changelogs, name) && name !in tables
  }

  /** The names the changelogs touch. */
  method TouchedNames(changelogs: seq<Changelog>) returns (names: set<string>)
    ensures forall name :: name in names <==> Touched(changelogs, name)
  {
    names := {};
    var n := 0;
    while n < |changelogs|
      invariant 0 <= n <= |changelogs|
      invariant forall name :: name in names <==> exists k :: 0 <= k < n && name in changelogs[k]
    {
      names := names + changelogs[n].Keys;
      n := n + 1;
    }
  }

  lemma NothingProper(wide: bool, vanilla: set<nat>)
    ensures Proper(wide, vanilla, map[])
  {
  }

  /** Every table the changelogs touch is merged row by row, the others stay as they are; it fails exactly when a table is
      missing or some row of one cannot be merged. */
  method MergeTables(cx: string -> Contexts, tables: map<string, Rows>, changelogs: seq<Changelog>) returns (r: Option<map<string, Rows>>)
    requires forall name :: name in tables ==> Mergeable(tables[name], changelogs, name)
    ensures match r
            case Some(result) =>
              result.Keys == tables.Keys && !Missing(tables, changelogs)
              && forall name :: name in tables ==> TableMerged(cx(name), tables[name], changelogs, name, result[name])
            case None =>
              Missing(tables, changelogs) || exists name :: name in tables && TableFails(cx(name), tables[name], changelogs, name)
  {
    hide ToldApart, Proper, Sorted, RowByHistory, CannotSettle, Touched;
    var todo := TouchedNames(changelogs);
    ghost var touched := todo;
    var result := tables;
    while todo != {}
      invariant todo <= touched && result.Keys == tables.Keys
      invariant forall name :: name in touched - todo ==> name in tables && TableMerged(cx(name), tables[name], changelogs, name, result[name])
      invariant forall name :: name in tables && (name in todo || name !in touched) ==> result[name] == tables[name]
      decreases |todo|
    {
      var name :| name in todo;
      if name !in result { return None; }
      var merged := MergeOne(name, cx(name), result[name], changelogs);
      if merged.None? {
        assert TableFails(cx(name), tables[name], changelogs, name);
        return None;
      }
      result := result[name := merged.value];
      todo := todo - {name};
    }
    r := Some(result);
  }

  method MergeOne(name: string, cx: Contexts, rows: Rows, changelogs: seq<Changelog>) returns (r: Option<Rows>)
    requires Touched(changelogs, name) && Mergeable(rows, changelogs, name)
    ensures match r
            case Some(result) => TableMerged(cx, rows, changelogs, name, result)
            case None => TableFails(cx, rows, changelogs, name)
  {
    hide ToldApart, Proper, Sorted, RowByHistory, CannotSettle;
    var logs := ForTable(changelogs, name);
    forall n | 0 <= n < |logs|
      ensures Proper(Wide(name), Hashes(Wide(name), rows), logs[n])
    {
      NothingProper(Wide(name), Hashes(Wide(name), rows));
    }
    r := MergeTable(Wide(name), cx, rows, logs);
  }
}
