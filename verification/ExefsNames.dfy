/** The title's folder by file name: the eight names modules can be given, the list of the modules put there, and
    whatever else is in it. */
module ExefsNames {
  import opened Documents

  /** What identifies a file's content, here and in the store: its hash and size. */
  datatype Id = Id(hash: nat, size: nat)

  /** What the list says of one name: the content put there, what the mod calls it, and the mod. */
  datatype Owned = Owned(id: Id, name: string, source: string)

  const SLOTS := 8

  const SLOT_NAMES := ["subsdk1", "subsdk2", "subsdk3", "subsdk4", "subsdk5", "subsdk6", "subsdk7", "subsdk8"]

  const LIST_NAME := "totk-mod-merger.txt"

  /** One of the eight names, by its place among them. */
  type Slot = n: nat | n < SLOTS witness 0

  type Files = map<Slot, Id>

  type Listing = map<Slot, Owned>

  /** A file: what identifies its content, and the lines it has when read as a list. */
  datatype File = File(id: Id, lines: Listing)

  type Entries = map<string, File>

  function NameOf(s: Slot): string { SLOT_NAMES[s] }

  lemma NameEnds(s: Slot)
    ensures |NameOf(s)| == 7 && NameOf(s)[6] as int == '1' as int + s
  {
    assert s == 0 || s == 1 || s == 2 || s == 3 || s == 4 || s == 5 || s == 6 || s == 7;
  }

  lemma NamesDiffer(s: Slot, t: Slot)
    ensures NameOf(s) == NameOf(t) ==> s == t
    ensures NameOf(s) != LIST_NAME
  {
    NameEnds(s);
    NameEnds(t);
  }

  /** What is under the eight names. */
  function Modules(entries: Entries): Files {
    map s: Slot | 0 <= s < SLOTS && NameOf(s) in entries :: entries[NameOf(s)].id
  }

  /** What the list says, if there is one. */
  function ListIn(entries: Entries): Option<Listing> {
    if LIST_NAME in entries then Some(entries[LIST_NAME].lines) else None
  }

  function IdOf(file: Option<File>): Option<Id> { if file.Some? then Some(file.value.id) else None }

  lemma ModuleAt(entries: Entries, s: Slot)
    ensures Get(Modules(entries), s) == IdOf(Get(entries, NameOf(s)))
  {
  }

  /** Nothing but files under the eight names changes. */
  ghost predicate OnlyModules(before: Entries, after: Entries) {
    forall name :: (forall s: Slot :: name != NameOf(s)) ==> Get(after, name) == Get(before, name)
  }

  /** Nothing but the list and files under the eight names changes. */
  ghost predicate OthersKept(before: Entries, after: Entries) {
    forall name :: name != LIST_NAME && (forall s: Slot :: name != NameOf(s)) ==> Get(after, name) == Get(before, name)
  }

  lemma ListStays(before: Entries, after: Entries)
    requires OnlyModules(before, after)
    ensures ListIn(after) == ListIn(before) && OthersKept(before, after)
  {
    forall s: Slot ensures LIST_NAME != NameOf(s) { NamesDiffer(s, s); }
    assert Get(after, LIST_NAME) == Get(before, LIST_NAME);
  }

  /** A change of one file under one of the names. */
  lemma OneModule(before: Entries, after: Entries, slot: Slot)
    requires after - {NameOf(slot)} == before - {NameOf(slot)}
    ensures Modules(after) - {slot} == Modules(before) - {slot} && OnlyModules(before, after)
  {
    forall name | name != NameOf(slot)
      ensures Get(after, name) == Get(before, name)
    {
      assert Get(after - {NameOf(slot)}, name) == Get(before - {NameOf(slot)}, name);
    }
    forall s: Slot | s != slot
      ensures Get(Modules(after), s) == Get(Modules(before), s)
    {
      NamesDiffer(s, slot);
      ModuleAt(after, s);
      ModuleAt(before, s);
    }
    var a, b := Modules(after) - {slot}, Modules(before) - {slot};
    forall s ensures s in a <==> s in b ensures s in a ==> a[s] == b[s] {
      if s != slot { assert Get(Modules(after), s) == Get(Modules(before), s); }
    }
  }

  /** A file under one of the names is written. */
  lemma ModuleWritten(entries: Entries, slot: Slot, file: File)
    ensures Modules(entries[NameOf(slot) := file]) == Modules(entries)[slot := file.id]
    ensures OnlyModules(entries, entries[NameOf(slot) := file])
  {
    var now := entries[NameOf(slot) := file];
    assert now - {NameOf(slot)} == entries - {NameOf(slot)};
    OneModule(entries, now, slot);
    SameElsewhere(Modules(now), Modules(entries), slot);
    ModuleAt(now, slot);
  }

  /** A file under one of the names is removed. */
  lemma ModuleRemoved(entries: Entries, slot: Slot)
    ensures Modules(entries - {NameOf(slot)}) == Modules(entries) - {slot}
    ensures OnlyModules(entries, entries - {NameOf(slot)})
  {
    var now := entries - {NameOf(slot)};
    OneModule(entries, now, slot);
    ModuleAt(now, slot);
    assert Modules(now) - {slot} == Modules(now);
  }

  lemma SameElsewhere(a: Files, b: Files, slot: Slot)
    requires a - {slot} == b - {slot}
    ensures slot in a ==> a == b[slot := a[slot]]
  {
    forall s | s != slot
      ensures Get(a, s) == Get(b, s)
    {
      assert Get(a - {slot}, s) == Get(b - {slot}, s);
    }
    if slot in a {
      forall s ensures s in a <==> s in b[slot := a[slot]] ensures s in a ==> a[s] == b[slot := a[slot]][s] {
        if s != slot { assert Get(a, s) == Get(b, s); }
      }
    }
  }

  /** The list is written or removed. */
  lemma OnlyTheList(before: Entries, after: Entries)
    requires after - {LIST_NAME} == before - {LIST_NAME}
    ensures Modules(after) == Modules(before) && OthersKept(before, after)
  {
    forall name | name != LIST_NAME
      ensures Get(after, name) == Get(before, name)
    {
      assert Get(after - {LIST_NAME}, name) == Get(before - {LIST_NAME}, name);
    }
    forall s: Slot
      ensures Get(Modules(after), s) == Get(Modules(before), s)
    {
      NamesDiffer(s, s);
      ModuleAt(after, s);
      ModuleAt(before, s);
    }
    var a, b := Modules(after), Modules(before);
    forall s ensures s in a <==> s in b ensures s in a ==> a[s] == b[s] { assert Get(a, s) == Get(b, s); }
  }
}
