/** BYML documents as values.  Floating point numbers are their bit patterns and compare exactly;
    the three kinds of map (by name, by 32 or 64 bit hash) share one constructor. */
module Documents {

  datatype Option<+T> = None | Some(value: T)

  datatype Kind = Named | Hashed32 | Hashed64

  datatype Key = Name(text: string) | Hash(value: nat)

  datatype ChangeType = Add | Edit | Remove

  datatype Scalar =
    | Null
    | Text(text: string)
    | Binary(bytes: seq<nat>)
    | BinaryAligned(bytes: seq<nat>, alignment: nat)
    | Bool(flag: bool)
    | Int(int32: int)
    | Float(bits: nat)
    | UInt32(uint32: nat)
    | Int64(int64: int)
    | UInt64(uint64: nat)
    | Double(bits: nat)

  datatype Byml =
    | Leaf(value: Scalar)
    | Marker(change: ChangeType)
    | Array(items: seq<Byml>)
    | Map(kind: Kind, entries: map<Key, Byml>)
    | ArrayLog(changes: seq<ArrayChange>)
  {
    predicate IsContainer() { Array? || Map? || ArrayLog? }
    predicate IsRemove() { this == Marker(Remove) }
  }

  datatype ArrayChange = ArrayChange(index: int, change: ChangeType, node: Byml, key: RowKey)

  /** The value of the field or fields identifying a row. */
  datatype RowKey = RowKey(primary: Option<Byml>, secondary: Option<Byml>)
  {
    predicate IsEmpty() { primary.None? }
  }

  /** Which field or fields identify a row; a field in nested maps is a path of names. */
  datatype KeyName = KeyName(primary: seq<string>, secondary: Option<seq<string>>)

  const NO_KEY := RowKey(None, None)

  function Get<K, V>(m: map<K, V>, k: K): Option<V> {
    if k in m then Some(m[k]) else None
  }

  function Field(fields: map<Key, Byml>, path: seq<string>): Option<Byml>
    decreases |path|
  {
    if path == [] || Name(path[0]) !in fields then None
    else if |path| == 1 then Some(fields[Name(path[0])])
    else match fields[Name(path[0])]
      case Map(Named, nested) => Field(nested, path[1..])
      case _ => None
  }

  function KeyOf(name: KeyName, row: Byml): RowKey {
    match row
    case Map(Named, fields) =>
      RowKey(Field(fields, name.primary), if name.secondary.Some? then Field(fields, name.secondary.value) else None)
    case _ => NO_KEY
  }

  /** A document as the game stores it: no changelog nodes anywhere. */
  ghost predicate Clean(node: Byml) {
    match node
    case Leaf(_) => true
    case Marker(_) => false
    case ArrayLog(_) => false
    case Array(items) => forall i :: 0 <= i < |items| ==> Clean(items[i])
    case Map(_, entries) => forall k :: k in entries ==> Clean(entries[k])
  }

  lemma SomeIndex(indices: set<int>)
    requires indices != {}
    ensures exists i :: i in indices
  {
    if forall i :: i !in indices {
      assert false;
    }
  }
}
