/** How the tables of array names are looked up when a changelog is made and when one is merged. */
module NameTables {
  import opened Documents
  import opened Changelogs
  import opened Pending
  import KeyedRows
  import PositionArrays
  import RoundTrip

  /** Names whose rows have a key whatever the document's type, names for which the type decides, names compared by position
      or by value for some types, and names that are never compared by position for want of a key. */
  datatype Tables = Tables(
    plain: (string, int) -> Option<KeyName>,
    typed: (string, string) -> Option<KeyName>,
    isTyped: string -> bool,
    positional: (string, string) -> bool,
    byValue: (string, string) -> bool,
    known: string -> bool)
  {
    /** What both lookups share. */
    function Common(name: string, type_: string, depth: int): Option<KeyName> {
      if isTyped(name) then typed(name, type_) else plain(name, depth)
    }

    function MergerKey(name: string, type_: string, depth: int): Option<KeyName> {
      if name == "Property" then Some(KeyName(["NameHash"], None))
      else if name == "DefaultValue" then if type_ == "Struct" then Some(KeyName(["Hash"], None)) else None
      else Common(name, type_, depth)
    }

    /** Arrays of properties, compared by the hash of their name, are not part of this model: they count as compared by value. */
    function ArrayBuilder(name: string, type_: string, depth: int): Builder {
      if name == "Property" then Default
      else if positional(name, type_) then DirectIndex
      else if byValue(name, type_) then Default
      else
        match Common(name, type_, depth)
        case Some(key) => Keyed(key)
        case None => if !known(name) && type_ == "game__component__ConditionParam" then DirectIndex else Default
    }

    function Lookups(): Rules { Rules(ArrayBuilder, MergerKey) }

    /** The lookup for most tables of the save data: arrays right in a row go by position, those deeper down as everywhere. */
    function PositionLookups(): Rules {
      Rules((name, type_, depth) => if depth == 1 then DirectIndex else ArrayBuilder(name, type_, depth), MergerKey)
    }

    /** The lookup for the save data's table of structs: the default values right in a row go by hash, the row's other arrays by value. */
    function StructLookups(): Rules {
      Rules((name, type_, depth) =>
              if depth != 1 then ArrayBuilder(name, type_, depth)
              else if name == "DefaultValue" then Keyed(KeyName(["Hash"], None))
              else Default, MergerKey)
    }

    /** No document has the empty type, and names of default values have no key of their own. */
    ghost predicate Apart() {
      && (forall name :: typed(name, "") == None)
      && (forall type_, depth :: Common("DefaultValue", type_, depth) == None)
    }

    /** Names of arrays compared by position have no key. */
    ghost predicate PositionsApart() {
      && (forall name, type_, depth :: positional(name, type_) ==> Common(name, type_, depth) == None)
      && (forall name, type_ :: positional(name, type_) ==> name != "DefaultValue")
    }
  }

  lemma EmptyTypeAgrees(t: Tables, name: string, type_: string, depth: int)
    requires t.Apart()
    ensures t.Common(name, "", depth).Some? ==> t.Common(name, "", depth) == t.Common(name, type_, depth)
  {
    assert t.typed(name, "") == None;
  }

  /** Rows compared by key are merged by the same key or by none, whatever the name and the document's type. */
  lemma LookupsAgree(t: Tables, type_: string, name: string, depth: int)
    requires t.Apart()
    ensures RoundTrip.ConsistentAt(Context(t.Lookups(), type_, None), name, depth)
  {
    EmptyTypeAgrees(t, name, type_, depth);
    assert name == "DefaultValue" ==> t.Common("DefaultValue", type_, depth) == None;
  }

  /** So they are in the rows of the save data's tables, compared by position or as structs. */
  lemma SaveLookupsAgree(t: Tables, type_: string, name: string, depth: int)
    requires t.Apart()
    ensures RoundTrip.ConsistentAt(Context(t.PositionLookups(), type_, None), name, depth)
    ensures RoundTrip.ConsistentAt(Context(t.StructLookups(), type_, None), name, depth)
  {
    LookupsAgree(t, type_, name, depth);
  }

  /** In documents whose names that go by position have no key, an array compared by position may have any rows past vanilla's. */
  lemma AnyRowsByPosition(t: Tables, type_: string, name: string, depth: int, src: seq<Byml>, vanilla: seq<Byml>)
    requires t.Apart() && t.PositionsApart() && t.ArrayBuilder(name, type_, depth) == DirectIndex
    ensures RoundTrip.TailApart(Context(t.Lookups(), type_, None), name, depth, src, vanilla)
  {
    hide RoundTrip.TailApart;
    PositionArrays.NoKeyApart(Context(t.Lookups(), type_, None), name, depth, src, vanilla);
  }

  /** In the save data's rows compared by position, those past vanilla's may not share a key that merging has for their array. */
  lemma SaveRowsByPosition(t: Tables, type_: string, name: string, src: seq<Byml>, vanilla: seq<Byml>)
    requires PositionArrays.PositionRows(Context(t.PositionLookups(), type_, None), 1, src, vanilla)
    ensures t.PositionLookups().builder(name, type_, 1) == DirectIndex
    ensures PositionArrays.PositionBack(Context(t.PositionLookups(), type_, None), 1, name, src, vanilla)
            <==> (|vanilla| < |src| ==> KeyedRows.UniqueKeys(t.MergerKey(name, type_, 1), src[|vanilla|..]))
  {
    PositionArrays.PositionArrayBackIff(Context(t.PositionLookups(), type_, None), 1, name, src, vanilla);
  }
}
