/** Keeping the executable modules of mods in the title's folder: eight names, a list of the files put
    there, and file calls any of which may fail. */
module ExefsFolder {
  import opened Documents
  import opened ExefsNames

  /** An executable module of a mod, wanted in the folder. */
  datatype CodeFile = CodeFile(id: Id, name: string, source: string)

  /** Writing a module: it may not get as far as the file, or leave something else in it. */
  datatype WriteResult = Written | Untouched | Broken(left: Option<File>)

  /** How the file calls go, and what identifies a list that is written.  Each is made at most once for a name. */
  datatype Calls = Calls(
    readFolder: bool,
    readList: bool,
    read: Slot -> bool,
    remove: Slot -> bool,
    write: Slot -> WriteResult,
    cleanUp: Slot -> bool,
    writeList: Option<Option<File>>,
    removeList: bool,
    listId: Listing -> Id)

  ghost predicate WritesSucceed(calls: Calls) {
    forall s :: calls.write(s).Written?
  }

  ghost predicate AllSucceed(calls: Calls) {
    && calls.readFolder && calls.readList && calls.writeList.None? && calls.removeList
    && WritesSucceed(calls) && forall s :: calls.read(s) && calls.remove(s)
  }

  datatype Installation = Installation(installed: nat, changed: bool, leftOut: nat)

  // ---------- what is there ----------

  predicate HasId(files: seq<CodeFile>, id: Id) {
    exists i :: 0 <= i < |files| && files[i].id == id
  }

  lemma HasIdLonger(files: seq<CodeFile>, more: seq<CodeFile>, id: Id)
    ensures HasId(files + more, id) <==> HasId(files, id) || HasId(more, id)
  {
    var all := files + more;
    if HasId(files, id) {
      var i :| 0 <= i < |files| && files[i].id == id;
      assert all[i].id == id;
    }
    if HasId(more, id) {
      var i :| 0 <= i < |more| && more[i].id == id;
      assert all[|files| + i].id == id;
    }
    if HasId(all, id) {
      var i :| 0 <= i < |all| && all[i].id == id;
      assert if i < |files| then files[i].id == id else more[i - |files|].id == id;
    }
  }

  function FirstWith(files: seq<CodeFile>, id: Id): (file: CodeFile)
    requires HasId(files, id)
    ensures file in files && file.id == id
  {
    if files[0].id == id then files[0]
    else
      HasIdLonger([files[0]], files[1..], id);
      assert files == [files[0]] + files[1..];
      FirstWith(files[1..], id)
  }

  /** A file is read only if its size is that of its listed module or of a wanted one. */
  function Actual(id: Id, listed: Option<Id>, wanted: seq<CodeFile>, readable: bool): Option<Id> {
    if ((listed.Some? && listed.value.size == id.size) || exists i :: 0 <= i < |wanted| && wanted[i].id.size == id.size) && readable
    then Some(id) else None
  }

  /** Who a file found under a name belongs to: the list, a wanted module, or someone else. */
  function Claim(id: Id, listed: Option<Owned>, wanted: seq<CodeFile>, readable: bool): Option<Owned> {
    match Actual(id, if listed.Some? then Some(listed.value.id) else None, wanted, readable)
    case None => None
    case Some(actual) =>
      if listed.Some? && listed.value.id == actual then listed
      else if HasId(wanted, actual) then
        var file := FirstWith(wanted, actual);
        Some(Owned(actual, file.name, file.source))
      else None
  }

  function ClaimAt(present: Files, listing: Listing, wanted: seq<CodeFile>, calls: Calls, s: Slot): Option<Owned> {
    if s in present then Claim(present[s], Get(listing, s), wanted, calls.read(s)) else None
  }

  method Scan(present: Files, listing: Listing, wanted: seq<CodeFile>, calls: Calls) returns (owned: Listing, free: set<Slot>)
    ensures forall s: Slot :: Get(owned, s) == ClaimAt(present, listing, wanted, calls, s)
    ensures forall s: Slot :: s in free <==> s !in present
  {
    owned, free := listing, {};
    var slot := 0;
    while slot < SLOTS
      invariant 0 <= slot <= SLOTS
      invariant forall s: Slot :: s in free <==> s < slot && s !in present
      invariant forall s: Slot :: Get(owned, s) == if s < slot then ClaimAt(present, listing, wanted, calls, s) else Get(listing, s)
    {
      var s: Slot := slot;
      assert Get(owned, s) == Get(listing, s);
      if s !in present {
        owned := owned - {s};
        free := free + {s};
      } else {
        var claim := Claim(present[s], Get(owned, s), wanted, calls.read(s));
        owned := if claim.Some? then owned[s := claim.value] else owned - {s};
      }
      slot := slot + 1;
    }
  }

  // ---------- which modules there is room for ----------

  /** Each content once, as many as there is room for, in the order wanted. */
  function Fitting(wanted: seq<CodeFile>, room: nat): (kept: seq<CodeFile>)
    ensures |kept| <= room
  {
    if wanted == [] then []
    else
      var before, last := Fitting(wanted[..|wanted| - 1], room), wanted[|wanted| - 1];
      if HasId(before, last.id) || |before| == room then before else before + [last]
  }

  /** How many of those wanted there is no room for. */
  function NotFitting(wanted: seq<CodeFile>, room: nat): nat {
    if wanted == [] then 0
    else
      var before, last := Fitting(wanted[..|wanted| - 1], room), wanted[|wanted| - 1];
      NotFitting(wanted[..|wanted| - 1], room) + if !HasId(before, last.id) && |before| == room then 1 else 0
  }

  method Fit(wanted: seq<CodeFile>, room: nat) returns (kept: seq<CodeFile>, leftOut: nat)
    ensures kept == Fitting(wanted, room) && leftOut == NotFitting(wanted, room)
  {
    kept, leftOut := [], 0;
    var i := 0;
    while i < |wanted|
      invariant 0 <= i <= |wanted| && kept == Fitting(wanted[..i], room) && leftOut == NotFitting(wanted[..i], room)
    {
      assert wanted[..i + 1][..i] == wanted[..i];
      if HasId(kept, wanted[i].id) {
      } else if |kept| == room {
        leftOut := leftOut + 1;
      } else {
        kept := kept + [wanted[i]];
      }
      i := i + 1;
    }
    assert wanted[..i] == wanted;
  }

  ghost predicate DistinctIds(files: seq<CodeFile>) {
    forall i, j :: 0 <= i < j < |files| ==> files[i].id != files[j].id
  }

  /** The distinct modules wanted, in order. */
  function Distinct(wanted: seq<CodeFile>): (all: seq<CodeFile>)
    ensures |all| <= |wanted|
  {
    if wanted == [] then []
    else
      var before, last := Distinct(wanted[..|wanted| - 1]), wanted[|wanted| - 1];
      if HasId(before, last.id) then before else before + [last]
  }

  lemma {:induction false} DistinctAre(wanted: seq<CodeFile>)
    ensures DistinctIds(Distinct(wanted)) && (forall id :: HasId(Distinct(wanted), id) <==> HasId(wanted, id))
    ensures forall file :: file in Distinct(wanted) ==> file in wanted
  {
    if wanted != [] {
      var n := |wanted| - 1;
      var before, last := Distinct(wanted[..n]), wanted[n];
      DistinctAre(wanted[..n]);
      assert wanted == wanted[..n] + [last];
      forall id
        ensures HasId(Distinct(wanted), id) <==> HasId(wanted, id)
      {
        HasIdLonger(wanted[..n], [last], id);
        HasIdLonger(before, [last], id);
        assert HasId([last], id) <==> [last][0].id == id;
      }
    }
  }

  lemma {:induction false} FittingPrefix(wanted: seq<CodeFile>, room: nat)
    ensures var all := Distinct(wanted); Fitting(wanted, room) == if |all| <= room then all else all[..room]
  {
    if wanted != [] {
      var n := |wanted| - 1;
      FittingPrefix(wanted[..n], room);
      var all, last := Distinct(wanted[..n]), wanted[n];
      if |all| >= room {
        assert all[..room] == Fitting(wanted[..n], room);
        assert (all + [last])[..room] == all[..room];
      }
    }
  }

  /** The first `room` of the distinct modules wanted. */
  lemma FittingIsFirst(wanted: seq<CodeFile>, room: nat)
    ensures var kept, all := Fitting(wanted, room), Distinct(wanted);
            && kept == (if |all| <= room then all else all[..room])
            && DistinctIds(kept) && (forall file :: file in kept ==> file in wanted)
  {
    FittingPrefix(wanted, room);
    DistinctAre(wanted);
  }

  // ---------- making room ----------

  /** A module no longer wanted, or the second copy of one. */
  predicate Stale(owned: Listing, kept: seq<CodeFile>, s: Slot)
    requires s in owned
  {
    !HasId(kept, owned[s].id) || exists t: Slot :: t < s && t in owned && owned[t].id == owned[s].id
  }

  method FindStale(owned: Listing, kept: seq<CodeFile>) returns (stale: set<Slot>)
    ensures forall s: Slot :: s in stale <==> s in owned && Stale(owned, kept, s)
  {
    stale := {};
    var seen: set<Id> := {};
    var slot := 0;
    while slot < SLOTS
      invariant 0 <= slot <= SLOTS
      invariant forall s: Slot :: s in stale <==> s < slot && s in owned && Stale(owned, kept, s)
      invariant forall id :: id in seen <==> HasId(kept, id) && exists t: Slot :: t < slot && t in owned && owned[t].id == id
    {
      var s: Slot := slot;
      if s in owned {
        if !HasId(kept, owned[s].id) || owned[s].id in seen {
          stale := stale + {s};
        } else {
          seen := seen + {owned[s].id};
        }
      }
      slot := slot + 1;
    }
  }

  // ---------- no module without a place ----------

  /** Each module under one name. */
  ghost predicate NoCopies(owned: Listing) {
    forall s, t :: s in owned && t in owned && owned[s].id == owned[t].id ==> s == t
  }

  ghost predicate OnlyKept(owned: Listing, kept: seq<CodeFile>) {
    forall s :: s in owned ==> HasId(kept, owned[s].id)
  }

  lemma OnlyOthers(owned: Listing, kept: seq<CodeFile>, s: Slot, j: nat)
    requires NoCopies(owned) && OnlyKept(owned, kept) && s in owned && j < |kept| && kept[j].id == owned[s].id
    ensures NoCopies(owned - {s}) && OnlyKept(owned - {s}, kept[..j] + kept[j + 1..])
  {
    var fewer := kept[..j] + kept[j + 1..];
    forall t | t in owned && t != s
      ensures HasId(fewer, owned[t].id)
    {
      var i :| 0 <= i < |kept| && kept[i].id == owned[t].id;
      assert i != j;
      assert fewer[if i < j then i else i - 1] == kept[i];
    }
  }

  lemma {:induction false} OwnedFit(owned: Listing, kept: seq<CodeFile>)
    requires NoCopies(owned) && OnlyKept(owned, kept)
    ensures |owned| <= |kept|
    decreases |owned|
  {
    if owned != map[] {
      var s :| s in owned;
      var j :| 0 <= j < |kept| && kept[j].id == owned[s].id;
      var rest := owned - {s};
      OnlyOthers(owned, kept, s, j);
      assert rest.Keys == owned.Keys - {s};
      OwnedFit(rest, kept[..j] + kept[j + 1..]);
    }
  }

  lemma OneMissing(owned: Listing, kept: seq<CodeFile>, i: nat)
    requires i < |kept| && NoCopies(owned) && OnlyKept(owned, kept) && forall s :: s in owned ==> owned[s].id != kept[i].id
    ensures |owned| < |kept|
  {
    var fewer := kept[..i] + kept[i + 1..];
    forall s | s in owned
      ensures HasId(fewer, owned[s].id)
    {
      var k :| 0 <= k < |kept| && kept[k].id == owned[s].id;
      assert fewer[if k < i then k else k - 1] == kept[k];
    }
    OwnedFit(owned, fewer);
  }

  predicate Owns(owned: Listing, id: Id) {
    exists s :: s in owned && owned[s].id == id
  }

  method SlotWith(owned: Listing, id: Id) returns (slot: Option<Slot>)
    ensures slot.Some? ==> slot.value in owned && owned[slot.value].id == id
    ensures slot.None? ==> !Owns(owned, id)
  {
    var n := 0;
    while n < SLOTS
      invariant 0 <= n <= SLOTS && forall s: Slot :: s < n && s in owned ==> owned[s].id != id
    {
      var s: Slot := n;
      if s in owned && owned[s].id == id {
        return Some(s);
      }
      n := n + 1;
    }
    return None;
  }

  method First(free: set<Slot>) returns (slot: Slot)
    requires free != {}
    ensures slot in free && forall s :: s in free ==> slot <= s
  {
    var n := 0;
    while n < SLOTS && n !in free
      invariant 0 <= n <= SLOTS && forall s: Slot :: s in free ==> n <= s
    {
      n := n + 1;
    }
    var some :| some in free;
    return n;
  }

  function Entry(file: CodeFile): Owned { Owned(file.id, file.name, file.source) }

  /** Part of the modules in place: those listed are in their files, each once, nothing but wanted ones. */
  ghost predicate InPlace(files: Files, owned: Listing, kept: seq<CodeFile>) {
    && NoCopies(owned) && OnlyKept(owned, kept)
    && forall s :: s in owned ==> s in files && files[s] == owned[s].id
  }

  ghost predicate Done(owned: Listing, kept: seq<CodeFile>, n: nat)
    requires n <= |kept|
  {
    forall i :: 0 <= i < n ==> Lists(owned, Entry(kept[i]))
  }

  ghost predicate Lists(owned: Listing, entry: Owned) {
    exists s :: s in owned && owned[s] == entry
  }

  /** A stale file that can be removed. */
  predicate Gone(stale: set<Slot>, calls: Calls, s: Slot) { s in stale && calls.remove(s) }

  predicate AnyGone(stale: set<Slot>, calls: Calls, n: nat)
    requires n <= SLOTS
  {
    n > 0 && (AnyGone(stale, calls, n - 1) || Gone(stale, calls, n - 1))
  }

  lemma {:induction false} AnyGoneIff(stale: set<Slot>, calls: Calls, n: nat)
    requires n <= SLOTS && forall s :: s in stale ==> calls.remove(s)
    ensures AnyGone(stale, calls, n) <==> exists s: Slot :: s < n && s in stale
  {
    if n > 0 {
      AnyGoneIff(stale, calls, n - 1);
      if s: Slot :| s < n && s in stale {
        assert s < n - 1 || Gone(stale, calls, n - 1);
      }
    }
  }

  /** The first `n` names have been gone through. */
  ghost predicate Dropped<V>(before: map<Slot, V>, after: map<Slot, V>, stale: set<Slot>, calls: Calls, n: nat) {
    forall s: Slot :: Get(after, s) == if s < n && Gone(stale, calls, s) then None else Get(before, s)
  }

  lemma DropOne<V>(before: map<Slot, V>, after: map<Slot, V>, stale: set<Slot>, calls: Calls, n: Slot)
    requires Dropped(before, after, stale, calls, n)
    ensures Dropped(before, if Gone(stale, calls, n) then after - {n} else after, stale, calls, n + 1)
    ensures n in before ==> |after - {n}| == |after| - 1
  {
    assert Get(after, n) == Get(before, n);
    Without(after, n);
  }

  ghost predicate Opened(free: set<Slot>, room: set<Slot>, stale: set<Slot>, calls: Calls, n: nat) {
    forall s: Slot :: s in room <==> s in free || (s < n && Gone(stale, calls, s))
  }

  lemma OpenOne(free: set<Slot>, room: set<Slot>, stale: set<Slot>, calls: Calls, n: Slot)
    requires Opened(free, room, stale, calls, n)
    ensures Opened(free, if Gone(stale, calls, n) then room + {n} else room, stale, calls, n + 1)
    ensures n !in free ==> |room + {n}| == |room| + 1
  {
  }

  ghost predicate Emptying(start: Files, files: Files, owned: Listing, left: Listing, free: set<Slot>, room: set<Slot>,
                           stale: set<Slot>, calls: Calls, changed: bool, n: nat)
    requires n <= SLOTS
  {
    && Dropped(start, files, stale, calls, n) && Dropped(owned, left, stale, calls, n) && Opened(free, room, stale, calls, n)
    && changed == AnyGone(stale, calls, n) && |room| + |left| == |free| + |owned|
  }

  lemma NothingEmptied(start: Files, owned: Listing, free: set<Slot>, stale: set<Slot>, calls: Calls)
    ensures Emptying(start, start, owned, owned, free, free, stale, calls, false, 0)
  {
  }

  lemma EmptyOne(start: Files, files: Files, owned: Listing, left: Listing, free: set<Slot>, room: set<Slot>,
                 stale: set<Slot>, calls: Calls, changed: bool, s: Slot)
    requires free !! owned.Keys && stale <= owned.Keys
    requires Emptying(start, files, owned, left, free, room, stale, calls, changed, s)
    ensures if Gone(stale, calls, s) then
              Emptying(start, files - {s}, owned, left - {s}, free, room + {s}, stale, calls, true, s + 1)
            else Emptying(start, files, owned, left, free, room, stale, calls, changed, s + 1)
  {
    DropOne(start, files, stale, calls, s);
    DropOne(owned, left, stale, calls, s);
    OpenOne(free, room, stale, calls, s);
  }

  lemma Without<V>(m: map<Slot, V>, s: Slot)
    ensures forall t: Slot :: Get(m - {s}, t) == if t == s then None else Get(m, t)
    ensures s in m ==> |m - {s}| == |m| - 1
  {
    if s in m {
      assert (m - {s}).Keys == m.Keys - {s};
      assert |m - {s}| == |(m - {s}).Keys| && |m| == |m.Keys|;
    }
  }

  /** What an attempt to write a module leaves under its name. */
  function Tried(calls: Calls, s: Slot, id: Id, before: Option<Id>): Option<Id> {
    match calls.write(s)
    case Written => Some(id)
    case Untouched => if calls.cleanUp(s) then None else before
    case Broken(left) => if calls.cleanUp(s) then None else IdOf(left)
  }

  /** What saving the list leaves: a list of what is there, or none if nothing is. */
  function Saved(list: Option<Listing>, owned: Listing, recorded: Listing, calls: Calls): Option<Listing> {
    if owned == map[] then if calls.removeList then None else list
    else if owned == recorded && list.Some? then list
    else if calls.writeList.None? then Some(owned)
    else if calls.writeList.value.Some? then Some(calls.writeList.value.value.lines)
    else None
  }

  class Folder {
    var entries: Entries

    constructor (entries: Entries)
      ensures this.entries == entries
    {
      this.entries := entries;
    }

    /** Files that cannot be removed stay listed: the next call tries again. */
    method RemoveStale(owned: Listing, stale: set<Slot>, free: set<Slot>, calls: Calls)
      returns (left: Listing, room: set<Slot>, changed: bool)
      requires free !! owned.Keys && stale <= owned.Keys
      modifies this
      ensures Emptying(Modules(old(entries)), Modules(entries), owned, left, free, room, stale, calls, changed, SLOTS)
      ensures OnlyModules(old(entries), entries)
    {
      hide Modules, NameOf, Emptying, OnlyModules;
      left, room, changed := owned, free, false;
      ghost var start := entries;
      NothingEmptied(Modules(start), owned, free, stale, calls);
      Unchanged(start);
      var n := 0;
      while n < SLOTS
        invariant 0 <= n <= SLOTS && OnlyModules(start, entries)
        invariant Emptying(Modules(start), Modules(entries), owned, left, free, room, stale, calls, changed, n)
      {
        var s: Slot := n;
        EmptyOne(Modules(start), Modules(entries), owned, left, free, room, stale, calls, changed, s);
        if Gone(stale, calls, s) {
          ModuleRemoved(entries, s);
          StillOnlyModules(start, entries, entries - {NameOf(s)});
          entries, left, room, changed := entries - {NameOf(s)}, left - {s}, room + {s}, true;
        }
        n := n + 1;
      }
    }

    /** Modules that are there keep their names; the others get the free ones in order. */
    method Place(kept: seq<CodeFile>, owned: Listing, free: set<Slot>, calls: Calls)
      returns (placed: Listing, changed: bool, leftOut: nat)
      modifies this
      ensures SameOutside(Modules(old(entries)), Modules(entries), free) && OnlyModules(old(entries), entries)
      ensures CanPlace(Modules(old(entries)), kept, owned, free, calls) ==>
                leftOut == 0 && PlacedSoFar(Modules(old(entries)), Modules(entries), kept, owned, free, placed, changed, |kept|)
      ensures NoneTaken(kept, owned, free) ==> InOrder(Modules(old(entries)), Modules(entries), kept, calls, placed, |kept|)
    {
      hide Modules, NameOf, OnlyModules, Placing;
      placed, changed, leftOut := owned, false, 0;
      ghost var start, was := entries, Modules(entries);
      var left, i := free, 0;
      Unchanged(start);
      NothingPlaced(was, kept, owned, free, calls);
      while i < |kept|
        invariant 0 <= i <= |kept| && OnlyModules(start, entries)
        invariant Placing(was, Modules(entries), kept, owned, free, calls, placed, left, changed, leftOut, i)
      {
        ghost var before := entries;
        placed, left, changed, leftOut := PlaceOne(kept, i, placed, left, changed, leftOut, calls, was, owned, free);
        StillOnlyModules(start, before, entries);
        i := i + 1;
      }
      AllTried(was, Modules(entries), kept, owned, free, calls, placed, left, changed, leftOut);
    }

    method PlaceOne(kept: seq<CodeFile>, i: nat, placed: Listing, left: set<Slot>, changed: bool, leftOut: nat, calls: Calls,
                    ghost was: Files, ghost owned: Listing, ghost free: set<Slot>)
      returns (placed': Listing, left': set<Slot>, changed': bool, leftOut': nat)
      requires i < |kept| && Placing(was, Modules(entries), kept, owned, free, calls, placed, left, changed, leftOut, i)
      modifies this
      ensures Placing(was, Modules(entries), kept, owned, free, calls, placed', left', changed', leftOut', i + 1)
      ensures OnlyModules(old(entries), entries)
    {
      hide Modules, NameOf, OnlyModules, Placing, Tried;
      Unchanged(entries);
      var file := kept[i];
      var at := SlotWith(placed, file.id);
      if at.Some? {
        // It may be called something else by now, or come from another mod.
        PlacingRenamed(was, Modules(entries), kept, owned, free, calls, placed, left, changed, leftOut, i, at.value);
        return placed[at.value := Entry(file)], left, changed, leftOut;
      }
      if left == {} {
        PlacingNoRoom(was, Modules(entries), kept, owned, free, calls, placed, left, changed, leftOut, i);
        return placed, left, changed, leftOut + 1;
      }
      var slot := First(left);
      ghost var before := Modules(entries);
      var written := WriteModule(slot, file.id, calls);
      PlacingTried(was, before, Modules(entries), kept, owned, free, calls, placed, left, changed, leftOut, i, slot);
      if written {
        return placed[slot := Entry(file)], left - {slot}, true, leftOut;
      }
      return placed, left - {slot}, changed, leftOut + 1;
    }

    /** Puts the wanted modules into the folder and takes out those that are no longer wanted. */
    method Install(wanted: seq<CodeFile>, calls: Calls) returns (result: Installation)
      modifies this
      ensures OthersKept(old(entries), entries)
      ensures calls.readFolder ==> ForeignKept(Modules(old(entries)), Known(ListIn(old(entries))), wanted, Modules(entries))
      ensures !calls.readFolder ==> Unread(Modules(old(entries)), wanted, calls, Modules(entries))
      ensures WritesSucceed(calls) ==>
                (ForeignKept(Modules(old(entries)), Known(ListIn(old(entries))), wanted, Modules(entries)) <==>
                 calls.readFolder || !InTheWay(Modules(old(entries)), Known(ListIn(old(entries))), wanted))
      ensures AllSucceed(calls.(readFolder := true)) && !calls.readFolder ==> UnreadList(wanted, ListIn(entries), result)
      ensures AllSucceed(calls) ==>
                Installed(Modules(old(entries)), ListIn(old(entries)), wanted, Modules(entries), ListIn(entries), result)
    {
      hide Modules, NameOf, OnlyModules, OthersKept, ForeignKept, Unread, InTheWay, Installed;
      ghost var start, was, list := entries, Modules(entries), ListIn(entries);
      Unchanged(start);
      var listing := if calls.readList then Known(ListIn(entries)) else map[];
      var hadList := ListIn(entries).Some?;
      if wanted == [] && listing == map[] {
        if hadList && calls.removeList {
          entries := entries - {LIST_NAME};
        }
        OnlyTheList(start, entries);
        NothingToDo(was, list, wanted, ListIn(entries), calls);
        return Installation(0, false, 0);
      }

      var kept, left, open, removed, leftOut, run := ScanAndClear(wanted, listing, calls);
      ghost var cleared := entries;
      run.Prepared();
      var placed, added, more := Place(kept, left, open, calls);
      ghost var after := entries;
      StillOnlyModules(start, cleared, after);
      ListStays(start, after);
      SaveList(placed, listing, hadList, calls);
      OnlyTheList(after, entries);
      StillOthersKept(start, after, entries);
      result := Installation(|placed|, removed || added, leftOut + more);
      run.Finished(Modules(entries), placed, added, more, list, ListIn(entries), leftOut, result);
    }

    /** Finds out what is there, picks the modules there is room for, and removes what has to go. */
    method ScanAndClear(wanted: seq<CodeFile>, listing: Listing, calls: Calls)
      returns (kept: seq<CodeFile>, left: Listing, open: set<Slot>, removed: bool, leftOut: nat, ghost run: Run)
      requires listing == Known(ListIn(entries)) || listing == map[]
      modifies this
      ensures run.Is(Modules(old(entries)), Known(ListIn(old(entries))), wanted, calls, listing, kept, Modules(entries), left, open)
      ensures run.Valid() && OnlyModules(old(entries), entries)
      ensures removed == run.removed && leftOut == NotFitting(wanted, run.room)
    {
      hide Modules, NameOf, OnlyModules, Stale, ClaimAt, Fitting, NotFitting, Emptying;
      ghost var start, known := Modules(entries), Known(ListIn(entries));
      var present := if calls.readFolder then Modules(entries) else map[];
      var owned, free := Scan(present, listing, wanted, calls);
      NotFree(owned, free, present, listing, wanted, calls);
      var room := |free| + |owned|;
      kept, leftOut := Fit(wanted, room);
      var stale := FindStale(owned, kept);
      left, open, removed := RemoveStale(owned, stale, free, calls);
      run := Run(start, known, wanted, calls, present, listing, owned, free, room, kept, stale, Modules(entries), left, open, removed);
    }

    /** The list says what is there; without anything there is none. */
    method SaveList(owned: Listing, recorded: Listing, hadList: bool, calls: Calls)
      requires hadList == ListIn(entries).Some?
      modifies this
      ensures ListIn(entries) == Saved(ListIn(old(entries)), owned, recorded, calls)
      ensures entries - {LIST_NAME} == old(entries) - {LIST_NAME}
    {
      if owned == map[] {
        if hadList && calls.removeList {
          entries := entries - {LIST_NAME};
        }
      } else if owned != recorded || !hadList {
        match calls.writeList {
          case None => entries := entries[LIST_NAME := File(calls.listId(owned), owned)];
          case Some(now) => entries := if now.Some? then entries[LIST_NAME := now.value] else entries - {LIST_NAME};
        }
      }
    }

    /** What a failed write left is removed, if it can be: the game must not load part of a module. */
    method WriteModule(slot: Slot, id: Id, calls: Calls) returns (written: bool)
      modifies this
      ensures written == calls.write(slot).Written?
      ensures written ==> Modules(entries) == Modules(old(entries))[slot := id]
      ensures Get(Modules(entries), slot) == Tried(calls, slot, id, Get(Modules(old(entries)), slot))
      ensures Modules(entries) - {slot} == Modules(old(entries)) - {slot} && OnlyModules(old(entries), entries)
    {
      hide Modules, NameOf, OnlyModules;
      ghost var start := entries;
      Unchanged(start);
      match calls.write(slot) {
        case Written =>
          // Nothing reads a module as a list.
          ModuleWritten(entries, slot, File(id, map[]));
          entries := entries[NameOf(slot) := File(id, map[])];
          SameButOne(Modules(start), slot, id);
          return true;
        case Untouched =>
        case Broken(now) =>
          if now.Some? { ModuleWritten(entries, slot, now.value); } else { ModuleRemoved(entries, slot); }
          entries := if now.Some? then entries[NameOf(slot) := now.value] else entries - {NameOf(slot)};
      }
      if calls.cleanUp(slot) {
        ModuleRemoved(entries, slot);
        StillOnlyModules(start, entries, entries - {NameOf(slot)});
        entries := entries - {NameOf(slot)};
      }
      return false;
    }
  }

  lemma SameButOne(files: Files, slot: Slot, id: Id)
    ensures files[slot := id] - {slot} == files - {slot}
  {
  }

  lemma Unchanged(entries: Entries)
    ensures OnlyModules(entries, entries) && OthersKept(entries, entries)
  {
  }

  lemma StillOnlyModules(start: Entries, before: Entries, after: Entries)
    requires OnlyModules(start, before) && OnlyModules(before, after)
    ensures OnlyModules(start, after)
  {
    forall name | forall s: Slot :: name != NameOf(s)
      ensures Get(after, name) == Get(start, name)
    {
      assert Get(before, name) == Get(start, name);
    }
  }

  lemma StillOthersKept(start: Entries, before: Entries, after: Entries)
    requires OthersKept(start, before) && OthersKept(before, after)
    ensures OthersKept(start, after)
  {
    forall name | name != LIST_NAME && (forall s: Slot :: name != NameOf(s))
      ensures Get(after, name) == Get(start, name)
    {
      assert Get(before, name) == Get(start, name);
    }
  }

  // ---------- when the folder cannot be listed ----------

  /** No file was found and every name counts as free. */
  ghost predicate NoneTaken(kept: seq<CodeFile>, owned: Listing, free: set<Slot>) {
    owned == map[] && AtLeast(free, 0) && DistinctIds(kept) && |kept| <= SLOTS
  }

  ghost predicate AtLeast(left: set<Slot>, n: nat) {
    forall s: Slot :: s in left <==> n <= s
  }

  /** The first `n` modules were tried under the first `n` names, one each. */
  ghost predicate InOrder(before: Files, files: Files, kept: seq<CodeFile>, calls: Calls, placed: Listing, n: nat)
    requires n <= |kept|
  {
    && (forall s: Slot :: Get(files, s) == if s < n then Tried(calls, s, kept[s].id, Get(before, s)) else Get(before, s))
    && (forall s: Slot :: Get(placed, s) == if s < n && calls.write(s).Written? then Some(Entry(kept[s])) else None)
  }

  lemma NotYetThere(before: Files, files: Files, kept: seq<CodeFile>, calls: Calls, placed: Listing, i: nat)
    requires i < |kept| && InOrder(before, files, kept, calls, placed, i) && DistinctIds(kept)
    ensures !Owns(placed, kept[i].id)
  {
    forall s | s in placed
      ensures placed[s].id != kept[i].id
    {
      assert Get(placed, s) == Some(placed[s]);
    }
  }

  lemma SomeLeft(kept: seq<CodeFile>, left: set<Slot>, i: nat)
    requires i < |kept| <= SLOTS && AtLeast(left, i)
    ensures left != {}
  {
    var s: Slot := i;
    assert s in left;
  }

  lemma OneInOrder(start: Files, before: Files, after: Files, kept: seq<CodeFile>, calls: Calls, placed: Listing, left: set<Slot>,
                   i: nat, slot: Slot)
    requires i < |kept| <= SLOTS && InOrder(start, before, kept, calls, placed, i) && AtLeast(left, i)
    requires slot in left && (forall s :: s in left ==> slot <= s) && after - {slot} == before - {slot}
    requires Get(after, slot) == Tried(calls, slot, kept[i].id, Get(before, slot))
    ensures InOrder(start, after, kept, calls, if calls.write(slot).Written? then placed[slot := Entry(kept[i])] else placed, i + 1)
    ensures AtLeast(left - {slot}, i + 1)
  {
    var s: Slot := i;
    assert s in left && slot == s;
    forall s: Slot | s != slot
      ensures Get(after, s) == Get(before, s)
    {
      assert Get(after - {slot}, s) == Get(before - {slot}, s);
    }
    OnePlaced(start, before, after, kept, calls, placed, i, slot);
  }

  lemma OnePlaced(start: Files, before: Files, after: Files, kept: seq<CodeFile>, calls: Calls, placed: Listing, i: nat, slot: Slot)
    requires i < |kept| <= SLOTS && slot == i && InOrder(start, before, kept, calls, placed, i)
    requires forall s: Slot :: s != slot ==> Get(after, s) == Get(before, s)
    requires Get(after, slot) == Tried(calls, slot, kept[i].id, Get(before, slot))
    ensures InOrder(start, after, kept, calls, if calls.write(slot).Written? then placed[slot := Entry(kept[i])] else placed, i + 1)
  {
    hide Tried;
    var now := if calls.write(slot).Written? then placed[slot := Entry(kept[i])] else placed;
    forall s: Slot
      ensures Get(after, s) == if s < i + 1 then Tried(calls, s, kept[s].id, Get(start, s)) else Get(start, s)
      ensures Get(now, s) == if s < i + 1 && calls.write(s).Written? then Some(Entry(kept[s])) else None
    {
      assert Get(before, s) == if s < i then Tried(calls, s, kept[s].id, Get(start, s)) else Get(start, s);
      assert Get(placed, s) == if s < i && calls.write(s).Written? then Some(Entry(kept[s])) else None;
    }
  }

  ghost predicate SameOutside(before: Files, after: Files, free: set<Slot>) {
    forall s :: s !in free ==> Get(after, s) == Get(before, s)
  }

  ghost predicate CanPlace(files: Files, kept: seq<CodeFile>, owned: Listing, free: set<Slot>, calls: Calls) {
    && (forall s :: s in free ==> calls.write(s).Written?) && DistinctIds(kept) && |kept| <= |free| + |owned|
    && InPlace(files, owned, kept) && free !! owned.Keys
  }

  ghost predicate Extends(owned: Listing, free: set<Slot>, placed: Listing) {
    owned.Keys <= placed.Keys <= owned.Keys + free && forall s :: s in owned ==> placed[s].id == owned[s].id
  }

  ghost predicate Framed(before: Files, files: Files, owned: Listing, placed: Listing) {
    forall s :: s !in placed || s in owned ==> Get(files, s) == Get(before, s)
  }

  /** The first `n` modules are in place, the others that were still are, nothing else was touched. */
  ghost predicate PlacedSoFar(before: Files, files: Files, kept: seq<CodeFile>, owned: Listing, free: set<Slot>, placed: Listing,
                              changed: bool, n: nat) {
    && n <= |kept| && Done(placed, kept, n) && InPlace(files, placed, kept)
    && Extends(owned, free, placed) && Framed(before, files, owned, placed)
    && |kept| <= |free - placed.Keys| + |placed.Keys| && changed == (placed.Keys != owned.Keys)
  }

  /** The same, for a run in which calls may fail, and for one with all names free. */
  ghost predicate Placing(before: Files, files: Files, kept: seq<CodeFile>, owned: Listing, free: set<Slot>, calls: Calls,
                          placed: Listing, left: set<Slot>, changed: bool, leftOut: nat, n: nat)
    requires n <= |kept|
  {
    && left <= free && SameOutside(before, files, free)
    && (CanPlace(before, kept, owned, free, calls) ==>
          leftOut == 0 && left == free - placed.Keys && PlacedSoFar(before, files, kept, owned, free, placed, changed, n))
    && (NoneTaken(kept, owned, free) ==> InOrder(before, files, kept, calls, placed, n) && AtLeast(left, n))
  }

  lemma NothingPlaced(files: Files, kept: seq<CodeFile>, owned: Listing, free: set<Slot>, calls: Calls)
    ensures Placing(files, files, kept, owned, free, calls, owned, free, false, 0, 0)
  {
    hide HasId, Tried, DistinctIds, InPlace, PlacedSoFar, InOrder;
    if CanPlace(files, kept, owned, free, calls) {
      NoneMoved(files, kept, owned, free);
    }
    if NoneTaken(kept, owned, free) {
      NoneTried(files, kept, calls);
    }
  }

  lemma NoneMoved(files: Files, kept: seq<CodeFile>, owned: Listing, free: set<Slot>)
    requires |kept| <= |free| + |owned| && InPlace(files, owned, kept) && free !! owned.Keys
    ensures free == free - owned.Keys && PlacedSoFar(files, files, kept, owned, free, owned, false, 0)
  {
    hide InPlace;
    assert free - owned.Keys == free;
    assert |owned| == |owned.Keys|;
  }

  lemma NoneTried(files: Files, kept: seq<CodeFile>, calls: Calls)
    ensures InOrder(files, files, kept, calls, map[], 0)
  {
    hide Tried;
  }

  lemma AllTried(before: Files, files: Files, kept: seq<CodeFile>, owned: Listing, free: set<Slot>, calls: Calls,
                 placed: Listing, left: set<Slot>, changed: bool, leftOut: nat)
    requires Placing(before, files, kept, owned, free, calls, placed, left, changed, leftOut, |kept|)
    ensures SameOutside(before, files, free)
    ensures CanPlace(before, kept, owned, free, calls) ==>
              leftOut == 0 && PlacedSoFar(before, files, kept, owned, free, placed, changed, |kept|)
    ensures NoneTaken(kept, owned, free) ==> InOrder(before, files, kept, calls, placed, |kept|)
  {
    hide SameOutside, CanPlace, PlacedSoFar, NoneTaken, InOrder;
  }

  lemma PlacingRenamed(before: Files, files: Files, kept: seq<CodeFile>, owned: Listing, free: set<Slot>, calls: Calls,
                       placed: Listing, left: set<Slot>, changed: bool, leftOut: nat, i: nat, at: Slot)
    requires i < |kept| && Placing(before, files, kept, owned, free, calls, placed, left, changed, leftOut, i)
    requires at in placed && placed[at].id == kept[i].id
    ensures Placing(before, files, kept, owned, free, calls, placed[at := Entry(kept[i])], left, changed, leftOut, i + 1)
  {
    hide SameOutside, PlacedSoFar, InOrder, InPlace, HasId;
    if CanPlace(before, kept, owned, free, calls) {
      Renamed(before, files, kept, owned, free, placed, changed, i, at);
    }
    if NoneTaken(kept, owned, free) {
      NotYetThere(before, files, kept, calls, placed, i);
    }
  }

  lemma PlacingNoRoom(before: Files, files: Files, kept: seq<CodeFile>, owned: Listing, free: set<Slot>, calls: Calls,
                      placed: Listing, left: set<Slot>, changed: bool, leftOut: nat, i: nat)
    requires i < |kept| && Placing(before, files, kept, owned, free, calls, placed, left, changed, leftOut, i)
    requires left == {} && !Owns(placed, kept[i].id)
    ensures Placing(before, files, kept, owned, free, calls, placed, left, changed, leftOut + 1, i + 1)
  {
    hide SameOutside, PlacedSoFar, InOrder, InPlace, HasId;
    if CanPlace(before, kept, owned, free, calls) {
      RoomLeft(before, files, kept, owned, free, placed, changed, i);
    }
    if NoneTaken(kept, owned, free) {
      SomeLeft(kept, left, i);
    }
  }

  lemma PlacingTried(before: Files, files: Files, after: Files, kept: seq<CodeFile>, owned: Listing, free: set<Slot>, calls: Calls,
                     placed: Listing, left: set<Slot>, changed: bool, leftOut: nat, i: nat, slot: Slot)
    requires i < |kept| && Placing(before, files, kept, owned, free, calls, placed, left, changed, leftOut, i)
    requires !Owns(placed, kept[i].id) && slot in left && (forall s :: s in left ==> slot <= s)
    requires after - {slot} == files - {slot} && Get(after, slot) == Tried(calls, slot, kept[i].id, Get(files, slot))
    requires calls.write(slot).Written? ==> after == files[slot := kept[i].id]
    ensures if calls.write(slot).Written? then
              Placing(before, after, kept, owned, free, calls, placed[slot := Entry(kept[i])], left - {slot}, true, leftOut, i + 1)
            else Placing(before, after, kept, owned, free, calls, placed, left - {slot}, changed, leftOut + 1, i + 1)
  {
    hide SameOutside, PlacedSoFar, InOrder, InPlace, HasId, AtLeast, Owns, Tried;
    OnlyOneSlot(before, files, after, free, slot);
    if CanPlace(before, kept, owned, free, calls) {
      Added(before, files, kept, owned, free, placed, changed, i, slot);
    }
    if NoneTaken(kept, owned, free) {
      OneInOrder(before, files, after, kept, calls, placed, left, i, slot);
    }
  }

  lemma RoomLeft(before: Files, files: Files, kept: seq<CodeFile>, owned: Listing, free: set<Slot>, placed: Listing, changed: bool, i: nat)
    requires i < |kept| && PlacedSoFar(before, files, kept, owned, free, placed, changed, i)
    ensures !Owns(placed, kept[i].id) ==> free - placed.Keys != {}
  {
    if !Owns(placed, kept[i].id) {
      OneMissing(placed, kept, i);
    }
  }

  lemma DoneMore(placed: Listing, kept: seq<CodeFile>, i: nat, at: Slot)
    requires i < |kept| && Done(placed, kept, i) && DistinctIds(kept) && (at in placed ==> placed[at].id == kept[i].id)
    ensures Done(placed[at := Entry(kept[i])], kept, i + 1)
  {
    var now := placed[at := Entry(kept[i])];
    forall j | 0 <= j < i + 1
      ensures Lists(now, Entry(kept[j]))
    {
      if j < i {
        assert Lists(placed, Entry(kept[j]));
        var s :| s in placed && placed[s] == Entry(kept[j]);
        assert s != at;
        assert now[s] == Entry(kept[j]);
      } else {
        assert now[at] == Entry(kept[j]);
      }
    }
  }

  lemma InPlaceMore(files: Files, placed: Listing, kept: seq<CodeFile>, i: nat, at: Slot)
    requires i < |kept| && InPlace(files, placed, kept) && forall s :: s in placed && placed[s].id == kept[i].id ==> s == at
    ensures InPlace(files[at := kept[i].id], placed[at := Entry(kept[i])], kept)
  {
    var now := placed[at := Entry(kept[i])];
    forall s | s in now ensures HasId(kept, now[s].id) {
      if s == at { assert kept[i].id == now[s].id; }
    }
  }

  lemma OnlyOneSlot(start: Files, before: Files, after: Files, free: set<Slot>, slot: Slot)
    requires SameOutside(start, before, free) && slot in free && after - {slot} == before - {slot}
    ensures SameOutside(start, after, free)
  {
    forall s | s !in free
      ensures Get(after, s) == Get(start, s)
    {
      assert Get(after - {slot}, s) == Get(after, s) && Get(before - {slot}, s) == Get(before, s);
    }
  }

  lemma Renamed(before: Files, files: Files, kept: seq<CodeFile>, owned: Listing, free: set<Slot>, placed: Listing,
                changed: bool, i: nat, at: Slot)
    requires i < |kept| && PlacedSoFar(before, files, kept, owned, free, placed, changed, i) && DistinctIds(kept)
    requires at in placed && placed[at].id == kept[i].id
    ensures PlacedSoFar(before, files, kept, owned, free, placed[at := Entry(kept[i])], changed, i + 1)
    ensures placed[at := Entry(kept[i])].Keys == placed.Keys
  {
    DoneMore(placed, kept, i, at);
    InPlaceMore(files, placed, kept, i, at);
    SameKeysAndFiles(files, placed, at, Entry(kept[i]));
    SameKeysExtend(before, files, owned, free, placed, at, Entry(kept[i]));
  }

  lemma SameKeysAndFiles(files: Files, placed: Listing, at: Slot, entry: Owned)
    requires at in placed && at in files && files[at] == entry.id
    ensures files[at := entry.id] == files && placed[at := entry].Keys == placed.Keys
  {
  }

  lemma SameKeysExtend(before: Files, files: Files, owned: Listing, free: set<Slot>, placed: Listing, at: Slot, entry: Owned)
    requires Extends(owned, free, placed) && Framed(before, files, owned, placed) && at in placed && placed[at].id == entry.id
    ensures Extends(owned, free, placed[at := entry]) && Framed(before, files, owned, placed[at := entry])
  {
    var now := placed[at := entry];
    assert forall s :: s in now <==> s in placed;
  }

  lemma Added(before: Files, files: Files, kept: seq<CodeFile>, owned: Listing, free: set<Slot>, placed: Listing,
              changed: bool, i: nat, slot: Slot)
    requires i < |kept| && PlacedSoFar(before, files, kept, owned, free, placed, changed, i) && DistinctIds(kept)
    requires slot in free && slot !in placed && !Owns(placed, kept[i].id) && slot !in owned
    ensures PlacedSoFar(before, files[slot := kept[i].id], kept, owned, free, placed[slot := Entry(kept[i])], true, i + 1)
    ensures free - placed.Keys - {slot} == free - placed[slot := Entry(kept[i])].Keys
  {
    DoneMore(placed, kept, i, slot);
    InPlaceMore(files, placed, kept, i, slot);
    OneMoreKey(placed, free, slot, Entry(kept[i]));
    OneMoreExtends(before, files, owned, free, placed, slot, Entry(kept[i]));
  }

  lemma KeyAdded(placed: Listing, slot: Slot, entry: Owned)
    ensures placed[slot := entry].Keys == placed.Keys + {slot}
  {
  }

  lemma OneFewer(free: set<Slot>, taken: set<Slot>, slot: Slot)
    requires slot in free && slot !in taken
    ensures free - (taken + {slot}) == free - taken - {slot} && |free - (taken + {slot})| == |free - taken| - 1
  {
    assert free - (taken + {slot}) == free - taken - {slot};
  }

  lemma OneMore(slots: set<Slot>, slot: Slot)
    requires slot !in slots
    ensures |slots + {slot}| == |slots| + 1
  {
  }

  lemma OneMoreKey(placed: Listing, free: set<Slot>, slot: Slot, entry: Owned)
    requires slot in free && slot !in placed
    ensures var now := placed[slot := entry];
            now.Keys == placed.Keys + {slot} && free - now.Keys == free - placed.Keys - {slot}
            && |free - now.Keys| + |now.Keys| == |free - placed.Keys| + |placed.Keys|
  {
    KeyAdded(placed, slot, entry);
    OneFewer(free, placed.Keys, slot);
    OneMore(placed.Keys, slot);
  }

  lemma OneMoreExtends(before: Files, files: Files, owned: Listing, free: set<Slot>, placed: Listing, slot: Slot, entry: Owned)
    requires Extends(owned, free, placed) && Framed(before, files, owned, placed) && slot in free && slot !in placed && slot !in owned
    ensures Extends(owned, free, placed[slot := entry]) && Framed(before, files[slot := entry.id], owned, placed[slot := entry])
    ensures placed[slot := entry].Keys != owned.Keys
  {
    var now := placed[slot := entry];
    assert now.Keys == placed.Keys + {slot} && slot in now.Keys;
    forall s | s !in now || s in owned
      ensures Get(files[slot := entry.id], s) == Get(before, s)
    {
      assert s != slot;
      assert Get(files, s) == Get(before, s);
    }
  }

  // ---------- the whole installation ----------

  function Known(list: Option<Listing>): Listing { if list.Some? then list.value else map[] }

  /** A file that holds neither what the list says nor a wanted module. */
  predicate Foreign(id: Id, listed: Option<Owned>, wanted: seq<CodeFile>) {
    !(listed.Some? && listed.value.id == id) && !HasId(wanted, id)
  }

  ghost predicate ForeignKept(before: Files, listing: Listing, wanted: seq<CodeFile>, after: Files) {
    forall s :: s in before && Foreign(before[s], Get(listing, s), wanted) ==> Get(after, s) == Some(before[s])
  }

  /** A name that is free or holds a file of the mods. */
  predicate Ours(files: Files, listing: Listing, wanted: seq<CodeFile>, s: Slot) {
    s !in files || !Foreign(files[s], Get(listing, s), wanted)
  }

  function OurSlots(files: Files, listing: Listing, wanted: seq<CodeFile>): set<Slot> {
    set s: Slot | 0 <= s < SLOTS && Ours(files, listing, wanted, s)
  }

  /** A module that was there under some name is there under a name it had. */
  ghost predicate Remains(before: Files, after: Files, ours: set<Slot>) {
    forall s, t :: s in ours && s in after && t in before && before[t] == after[s] ==> Get(before, s) == Some(after[s])
  }

  /** What an installation leaves: the first modules there is room for, each under one name; those that
      were there under a name they already had; others' files alone; and a list of exactly these. */
  ghost predicate Installed(before: Files, list: Option<Listing>, wanted: seq<CodeFile>, after: Files, list': Option<Listing>,
                            result: Installation) {
    var ours := OurSlots(before, Known(list), wanted);
    var kept := Fitting(wanted, |ours|);
    && SameOutside(before, after, ours)
    && InPlace(after, Known(list'), kept) && Done(Known(list'), kept, |kept|)
    && Known(list').Keys == ours * after.Keys && (list'.Some? ==> list'.value != map[])
    && Remains(before, after, ours)
    && result == Installation(|kept|, after != before, NotFitting(wanted, |ours|))
  }

  /** With the folder unread the modules go under the first names, in order, whatever is there. */
  ghost predicate Unread(before: Files, wanted: seq<CodeFile>, calls: Calls, after: Files) {
    var kept := Fitting(wanted, SLOTS);
    forall s: Slot :: Get(after, s) == if s < |kept| then Tried(calls, s, kept[s].id, Get(before, s)) else Get(before, s)
  }

  ghost predicate UnreadList(wanted: seq<CodeFile>, list': Option<Listing>, result: Installation) {
    var kept := Fitting(wanted, SLOTS);
    && (forall s: Slot :: Get(Known(list'), s) == if s < |kept| then Some(Entry(kept[s])) else None)
    && (list'.Some? ==> list'.value != map[]) && result == Installation(|kept|, kept != [], NotFitting(wanted, SLOTS))
  }

  /** One of the names the modules would have in an empty folder has someone else's file. */
  ghost predicate InTheWay(files: Files, listing: Listing, wanted: seq<CodeFile>) {
    exists s: Slot :: s < |Fitting(wanted, SLOTS)| && s in files && Foreign(files[s], Get(listing, s), wanted)
  }

  /** Exactly the others' files under those names are lost. */
  lemma KeptUnlessInTheWay(before: Files, listing: Listing, wanted: seq<CodeFile>, calls: Calls, after: Files)
    requires Unread(before, wanted, calls, after) && WritesSucceed(calls)
    ensures ForeignKept(before, listing, wanted, after) <==> !InTheWay(before, listing, wanted)
  {
    var kept := Fitting(wanted, SLOTS);
    forall s: Slot | s in before && Foreign(before[s], Get(listing, s), wanted)
      ensures Get(after, s) == Some(before[s]) <==> s >= |kept|
    {
      assert Get(after, s) == if s < |kept| then Tried(calls, s, kept[s].id, Get(before, s)) else Get(before, s);
      if s < |kept| {
        KeptIsWanted(wanted, SLOTS, s);
        assert calls.write(s).Written?;
      }
    }
  }

  lemma KeptIsWanted(wanted: seq<CodeFile>, room: nat, i: nat)
    requires i < |Fitting(wanted, room)|
    ensures HasId(wanted, Fitting(wanted, room)[i].id)
  {
    FittingIsFirst(wanted, room);
    assert Fitting(wanted, room)[i] in wanted;
  }

  /** Someone's own module under the first name is gone when the folder could not be listed. */
  lemma OwnModuleLost(own: Id, file: CodeFile, calls: Calls, after: Files)
    requires own != file.id && WritesSucceed(calls) && Unread(map[0 := own], [file], calls, after)
    ensures !ForeignKept(map[0 := own], map[], [file], after) && after == map[0 := file.id]
  {
    OneFits(file, SLOTS);
    var zero: Slot := 0;
    assert calls.write(zero).Written? && Get(after, zero) == Some(file.id);
    assert !HasId([file], own);
    assert Foreign(own, Get(map[], zero), [file]);
    forall s: Slot
      ensures Get(after, s) == Get(map[0 := file.id], s)
    {
      if s != zero { assert Get(after, s) == Get(map[0 := own], s); }
    }
    SameFiles(after, map[0 := file.id]);
  }

  lemma OneFits(file: CodeFile, room: nat)
    requires room > 0
    ensures Fitting([file], room) == [file]
  {
    assert [file][..0] == [] && Fitting([], room) == [];
    assert !HasId([], file.id);
  }

  lemma NothingToDo(files: Files, list: Option<Listing>, wanted: seq<CodeFile>, list': Option<Listing>, calls: Calls)
    requires wanted == [] && (calls.readList ==> Known(list) == map[])
    requires list' == if calls.removeList then None else list
    ensures ForeignKept(files, Known(list), wanted, files) && Unread(files, wanted, calls, files)
    ensures !InTheWay(files, Known(list), wanted)
    ensures AllSucceed(calls.(readFolder := true)) ==> UnreadList(wanted, list', Installation(0, false, 0))
    ensures AllSucceed(calls) ==> Installed(files, list, wanted, files, list', Installation(0, false, 0))
  {
    assert Fitting(wanted, SLOTS) == [];
    if AllSucceed(calls) { NothingInstalled(files, list, wanted, list'); }
  }

  lemma NothingInstalled(files: Files, list: Option<Listing>, wanted: seq<CodeFile>, list': Option<Listing>)
    requires wanted == [] && Known(list) == map[] && list' == None
    ensures Installed(files, list, wanted, files, list', Installation(0, false, 0))
  {
    forall s | s in OurSlots(files, Known(list), wanted)
      ensures s !in files
    {
    }
    assert OurSlots(files, Known(list), wanted) * files.Keys == {};
  }

  lemma NotFree(owned: Listing, free: set<Slot>, present: Files, listing: Listing, wanted: seq<CodeFile>, calls: Calls)
    requires forall s: Slot :: Get(owned, s) == ClaimAt(present, listing, wanted, calls, s)
    requires forall s: Slot :: s in free <==> s !in present
    ensures free !! owned.Keys
  {
    forall s | s in owned ensures s !in free { assert Get(owned, s).Some?; }
  }

  /** The steps of one installation up to placing modules. */
  datatype Run = Run(start: Files, known: Listing, wanted: seq<CodeFile>, calls: Calls, present: Files, listing: Listing,
                     owned: Listing, free: set<Slot>, room: nat, kept: seq<CodeFile>, stale: set<Slot>,
                     cleared: Files, left: Listing, open: set<Slot>, removed: bool)
  {
    ghost predicate Scanned() {
      && present == (if calls.readFolder then start else map[]) && (listing == known || listing == map[])
      && (forall s: Slot :: Get(owned, s) == ClaimAt(present, listing, wanted, calls, s))
      && (forall s: Slot :: s in free <==> s !in present) && room == |free| + |owned|
    }

    ghost predicate Fitted() {
      kept == Fitting(wanted, room) && forall s: Slot :: s in stale <==> s in owned && Stale(owned, kept, s)
    }

    ghost predicate Emptied() {
      Emptying(start, cleared, owned, left, free, open, stale, calls, removed, SLOTS)
    }

    ghost predicate Valid() { Scanned() && Fitted() && Emptied() }

    ghost predicate Is(start: Files, known: Listing, wanted: seq<CodeFile>, calls: Calls, listing: Listing, kept: seq<CodeFile>,
                       cleared: Files, left: Listing, open: set<Slot>) {
      && this.start == start && this.known == known && this.wanted == wanted && this.calls == calls && this.listing == listing
      && this.kept == kept && this.cleared == cleared && this.left == left && this.open == open
    }

    lemma Prepared()
      requires Valid()
      ensures AllSucceed(calls.(readFolder := true)) ==> CanPlace(cleared, kept, left, open, calls)
    {
      if AllSucceed(calls.(readFolder := true)) {
        StepByStep();
        KeptAreDistinct();
        assert forall s :: calls.(readFolder := true).write(s).Written? ==> calls.write(s).Written?;
        Ready();
      }
    }

    /** What an installation did, when file calls fail and when they do not. */
    lemma Finished(after: Files, placed: Listing, added: bool, more: nat, list: Option<Listing>, list': Option<Listing>,
                   leftOut: nat, result: Installation)
      requires Valid() && SameOutside(cleared, after, open)
      requires CanPlace(cleared, kept, left, open, calls) ==>
                 more == 0 && PlacedSoFar(cleared, after, kept, left, open, placed, added, |kept|)
      requires NoneTaken(kept, left, open) ==> InOrder(cleared, after, kept, calls, placed, |kept|)
      requires known == Known(list) && listing == (if calls.readList then known else map[])
      requires list' == Saved(list, placed, listing, calls)
      requires leftOut == NotFitting(wanted, room)
      requires result == Installation(|placed|, removed || added, leftOut + more)
      ensures calls.readFolder ==> ForeignKept(start, known, wanted, after)
      ensures !calls.readFolder ==> Unread(start, wanted, calls, after)
      ensures WritesSucceed(calls) ==> (ForeignKept(start, known, wanted, after) <==> calls.readFolder || !InTheWay(start, known, wanted))
      ensures AllSucceed(calls.(readFolder := true)) && !calls.readFolder ==> UnreadList(wanted, list', result)
      ensures AllSucceed(calls) ==> Installed(start, list, wanted, after, list', result)
    {
      hide Scanned, Fitted, Emptied, SameOutside, CanPlace, PlacedSoFar, NoneTaken, InOrder, ForeignKept, Unread, InTheWay, UnreadList,
           Installed, Fitting, NotFitting, Saved, Known;
      if calls.readFolder {
        Safe(after);
        if AllSucceed(calls) {
          Completed(after, placed, added, more, list, list', leftOut, result);
        }
      } else {
        Blind(after, placed);
        if WritesSucceed(calls) { KeptUnlessInTheWay(start, known, wanted, calls, after); }
        if AllSucceed(calls.(readFolder := true)) {
          BlindList(after, placed, added, more, list, list', leftOut, result);
        }
      }
    }

    lemma Completed(after: Files, placed: Listing, added: bool, more: nat, list: Option<Listing>, list': Option<Listing>,
                    leftOut: nat, result: Installation)
      requires Valid() && AllSucceed(calls)
      requires CanPlace(cleared, kept, left, open, calls) ==>
                 more == 0 && PlacedSoFar(cleared, after, kept, left, open, placed, added, |kept|)
      requires known == Known(list) == listing && list' == Saved(list, placed, listing, calls)
      requires leftOut == NotFitting(wanted, room) && result == Installation(|placed|, removed || added, leftOut + more)
      ensures Installed(start, list, wanted, after, list', result)
    {
      hide Scanned, Fitted, Emptied, CanPlace, PlacedSoFar, Installed, Fitting, NotFitting;
      assert calls.(readFolder := true) == calls;
      Prepared();
      NoneStays();
      Whole(after, placed, added, list, list', result);
    }

    /** Nothing found, nothing claimed and nothing removed: all eight names are free. */
    lemma AllFree()
      requires Valid() && !calls.readFolder
      ensures NoneTaken(kept, left, open) && room == SLOTS && kept == Fitting(wanted, SLOTS) && !removed
      ensures forall s :: Get(cleared, s) == Get(start, s)
    {
      forall s: Slot ensures s !in owned && s in free {
        assert Get(owned, s) == ClaimAt(present, listing, wanted, calls, s);
      }
      assert owned == map[];
      AllSlots(free);
      KeptAreDistinct();
      forall s: Slot ensures s !in stale && Get(cleared, s) == Get(start, s) && Get(left, s) == None && s in open { }
      assert left == map[];
      NoneGone(SLOTS);
    }

    lemma NoneGone(n: nat)
      requires n <= SLOTS && forall s: Slot :: s !in stale
      ensures !AnyGone(stale, calls, n)
    {
      if n > 0 { NoneGone(n - 1); }
    }

    lemma Blind(after: Files, placed: Listing)
      requires Valid() && !calls.readFolder
      requires NoneTaken(kept, left, open) ==> InOrder(cleared, after, kept, calls, placed, |kept|)
      ensures Unread(start, wanted, calls, after)
    {
      AllFree();
      forall s: Slot
        ensures Get(after, s) == if s < |kept| then Tried(calls, s, kept[s].id, Get(start, s)) else Get(start, s)
      {
        assert Get(cleared, s) == Get(start, s);
      }
    }

    lemma BlindList(after: Files, placed: Listing, added: bool, more: nat, list: Option<Listing>, list': Option<Listing>,
                    leftOut: nat, result: Installation)
      requires Valid() && !calls.readFolder && AllSucceed(calls.(readFolder := true))
      requires CanPlace(cleared, kept, left, open, calls) ==>
                 more == 0 && PlacedSoFar(cleared, after, kept, left, open, placed, added, |kept|)
      requires NoneTaken(kept, left, open) ==> InOrder(cleared, after, kept, calls, placed, |kept|)
      requires known == Known(list) == listing && list' == Saved(list, placed, listing, calls)
      requires leftOut == NotFitting(wanted, room) && result == Installation(|placed|, removed || added, leftOut + more)
      ensures UnreadList(wanted, list', result)
    {
      hide Scanned, Fitted, Emptied, CanPlace, PlacedSoFar, InOrder, NoneTaken, Fitting, NotFitting;
      AllFree();
      Prepared();
      BlindPlaced(after, placed, added);
      assert Known(list') == placed;
    }

    lemma BlindPlaced(after: Files, placed: Listing, added: bool)
      requires NoneTaken(kept, left, open) && InOrder(cleared, after, kept, calls, placed, |kept|) && WritesSucceed(calls)
      requires PlacedSoFar(cleared, after, kept, left, open, placed, added, |kept|)
      ensures forall s: Slot :: Get(placed, s) == if s < |kept| then Some(Entry(kept[s])) else None
      ensures |placed| == |kept| && added == (kept != [])
    {
      hide HasId, Extends, Framed, Tried;
      AllPlaced(after, placed, kept);
      assert added == (placed.Keys != left.Keys);
      assert |placed| == |placed.Keys|;
    }

    /** Someone else's file is not claimed. */
    lemma Unclaimed(s: Slot)
      requires Scanned() && calls.readFolder && s in start && Foreign(start[s], Get(known, s), wanted)
      ensures s !in owned && s !in free
    {
      assert Get(owned, s) == ClaimAt(present, listing, wanted, calls, s);
    }

    lemma Safe(after: Files)
      requires Scanned() && Fitted() && Emptied() && calls.readFolder && SameOutside(cleared, after, open)
      ensures ForeignKept(start, known, wanted, after)
    {
      forall s | s in start && Foreign(start[s], Get(known, s), wanted)
        ensures Get(after, s) == Some(start[s])
      {
        Unclaimed(s);
        assert Get(cleared, s) == Get(start, s) && s !in open;
      }
    }

    /** The same when nothing but reading the folder may fail. */
    ghost predicate Cleared() {
      && (forall s :: s in stale <==> s in owned && Stale(owned, kept, s))
      && (forall s :: Get(cleared, s) == if s in stale then None else Get(start, s))
      && (forall s :: Get(left, s) == if s in stale then None else Get(owned, s))
      && (forall s: Slot :: s in open <==> s in free || s in stale)
      && (forall s :: s in owned ==> s in start && owned[s].id == start[s] && s !in free)
      && |open| + |left| == room
    }

    lemma StepByStep()
      requires Scanned() && Fitted() && Emptied() && AllSucceed(calls.(readFolder := true))
      ensures Cleared()
    {
      assert forall s :: calls.(readFolder := true).remove(s) ==> calls.remove(s);
      forall s | s in owned
        ensures s in start && owned[s].id == start[s] && s !in free
      {
        OwnedIs(s);
      }
    }

    lemma NoneStays()
      requires AllSucceed(calls) && Emptied()
      ensures removed <==> stale != {}
    {
      AnyGoneIff(stale, calls, SLOTS);
      if s :| s in stale {
        assert s < SLOTS;
      }
    }

    lemma OwnedIs(s: Slot)
      requires Scanned() && s in owned
      ensures s in start && owned[s].id == start[s] && s !in free
    {
      assert Get(owned, s) == ClaimAt(present, listing, wanted, calls, s);
    }

    /** The first copy of a module that is kept stays. */
    lemma FirstCopy(t: Slot) returns (u: Slot)
      requires Cleared() && t in owned && HasId(kept, owned[t].id)
      ensures u in left && left[u].id == owned[t].id
      decreases t
    {
      if Stale(owned, kept, t) {
        var v: Slot :| v < t && v in owned && owned[v].id == owned[t].id;
        u := FirstCopy(v);
      } else {
        u := t;
        assert Get(left, t) == Get(owned, t);
      }
    }

    lemma LeftIs(s: Slot)
      requires Cleared() && s in left
      ensures s in owned && left[s] == owned[s] && !Stale(owned, kept, s) && s in cleared && cleared[s] == left[s].id
    {
      assert Get(left, s) == if s in stale then None else Get(owned, s);
      assert Get(cleared, s) == if s in stale then None else Get(start, s);
    }

    lemma Ready()
      requires Cleared() && DistinctIds(kept) && |kept| <= room && forall s :: s in open ==> calls.write(s).Written?
      ensures CanPlace(cleared, kept, left, open, calls)
    {
      forall s | s in left
        ensures HasId(kept, left[s].id) && s in cleared && cleared[s] == left[s].id && s !in open
      {
        LeftIs(s);
      }
      forall s, t | s in left && t in left && left[s].id == left[t].id
        ensures s == t
      {
        LeftIs(s);
        LeftIs(t);
        assert !(s < t) && !(t < s);
      }
    }

    lemma KeptAreDistinct()
      requires kept == Fitting(wanted, room)
      ensures DistinctIds(kept) && |kept| <= room
      ensures forall id :: HasId(kept, id) ==> HasId(wanted, id)
    {
      FittingIsFirst(wanted, room);
      forall id | HasId(kept, id)
        ensures HasId(wanted, id)
      {
        var i :| 0 <= i < |kept| && kept[i].id == id;
        assert kept[i] in wanted;
        var j :| 0 <= j < |wanted| && wanted[j] == kept[i];
      }
    }

    ghost predicate OursAreThese() {
      forall s: Slot :: s in OurSlots(start, known, wanted) <==> s in free || s in owned
    }

    lemma OursAre()
      requires Scanned() && AllSucceed(calls) && listing == known
      ensures OursAreThese() && |OurSlots(start, known, wanted)| == room
    {
      forall s: Slot
        ensures s in OurSlots(start, known, wanted) <==> s in free || s in owned
        ensures s in owned ==> s !in free
      {
        OursAt(s);
      }
      UnionSize(OurSlots(start, known, wanted), free, owned);
    }

    lemma OursAt(s: Slot)
      requires Scanned() && AllSucceed(calls) && listing == known
      ensures Ours(start, known, wanted, s) <==> s in free || s in owned
      ensures s in owned ==> s !in free
    {
      assert Get(owned, s) == ClaimAt(present, listing, wanted, calls, s);
      if s in start {
        ClaimIff(start[s], Get(known, s), wanted);
      }
    }

    /** Names holding a kept module at the start go on holding it. */
    lemma Stays(after: Files, placed: Listing, added: bool, s: Slot, t: Slot)
      requires Cleared() && PlacedSoFar(cleared, after, kept, left, open, placed, added, |kept|)
      requires s in placed && t in owned && owned[t].id == placed[s].id
      ensures s in left && s !in stale && Get(start, s) == Some(after[s])
    {
      assert HasId(kept, placed[s].id);
      var u := FirstCopy(t);
      assert placed[u].id == left[u].id;
      assert u == s;
      LeftIs(s);
    }

    lemma ChangedIff(after: Files, placed: Listing, added: bool)
      requires Cleared() && PlacedSoFar(cleared, after, kept, left, open, placed, added, |kept|)
      requires forall s :: s in free ==> s !in start
      ensures after != start <==> stale != {} || added
    {
      if stale != {} {
        var s :| s in stale;
        StaleChanges(after, placed, added, s);
      } else if added {
        AdditionChanges(after, placed);
      } else {
        NothingChanges(after, placed);
      }
    }

    lemma StaleChanges(after: Files, placed: Listing, added: bool, s: Slot)
      requires Cleared() && PlacedSoFar(cleared, after, kept, left, open, placed, added, |kept|) && s in stale
      ensures after != start
    {
      if s in placed && after[s] == start[s] {
        Stays(after, placed, added, s, s);
      }
      assert Get(cleared, s) == None;
      assert Get(after, s) != Get(start, s);
    }

    lemma AdditionChanges(after: Files, placed: Listing)
      requires Cleared() && PlacedSoFar(cleared, after, kept, left, open, placed, true, |kept|) && stale == {}
      requires forall s :: s in free ==> s !in start
      ensures after != start
    {
      assert InPlace(after, placed, kept) && Extends(left, open, placed);
      NewSlot(placed);
      var s :| s in placed && s !in left;
      FromOpen(s, placed);
      assert s in after;
    }

    lemma FromOpen(s: Slot, placed: Listing)
      requires Cleared() && stale == {} && Extends(left, open, placed) && s in placed && s !in left
      requires forall s :: s in free ==> s !in start
      ensures s !in start
    {
      assert s in open;
    }

    lemma NothingChanges(after: Files, placed: Listing)
      requires Cleared() && PlacedSoFar(cleared, after, kept, left, open, placed, false, |kept|) && stale == {}
      ensures after == start
    {
      forall s ensures Get(after, s) == Get(start, s) {
        assert Get(cleared, s) == Get(start, s);
        assert Get(after, s) == Get(cleared, s);
      }
      SameFiles(after, start);
    }

    lemma NewSlot(placed: Listing)
      requires left.Keys <= placed.Keys && placed.Keys != left.Keys
      ensures exists s :: s in placed && s !in left
    {
      assert (forall s :: s in placed ==> s in left) ==> placed.Keys == left.Keys;
    }

    lemma PlacedAre(after: Files, placed: Listing, added: bool, s: Slot)
      requires Cleared() && PlacedSoFar(cleared, after, kept, left, open, placed, added, |kept|)
      requires forall s: Slot :: s in free <==> s !in start
      ensures s in placed <==> (s in free || s in owned) && s in after
      ensures s !in free && s !in owned ==> Get(after, s) == Get(start, s)
    {
      assert Get(cleared, s) == if s in stale then None else Get(start, s);
      assert Get(left, s) == if s in stale then None else Get(owned, s);
      if s !in placed {
        assert Get(after, s) == Get(cleared, s);
      }
    }

    lemma Whole(after: Files, placed: Listing, added: bool, list: Option<Listing>, list': Option<Listing>, result: Installation)
      requires Scanned() && Fitted() && Emptied() && AllSucceed(calls) && listing == known == Known(list)
      requires PlacedSoFar(cleared, after, kept, left, open, placed, added, |kept|)
      requires list' == if placed == map[] then None else Some(placed)
      requires result == Installation(|placed|, stale != {} || added, NotFitting(wanted, room))
      ensures Installed(start, list, wanted, after, list', result)
    {
      hide Fitted, Emptied, Cleared, OursAreThese, PlacedSoFar, OnlyOurs, Installed, Fitting, NotFitting, DistinctIds, HasId, ClaimAt;
      OursAre();
      StepByStep();
      PlacedKept(after, placed, added);
      KeptAreDistinct();
      OursOnly(after, placed, added);
      Conclude(after, placed, list, list', result, stale != {} || added);
    }

    lemma PlacedKept(after: Files, placed: Listing, added: bool)
      requires PlacedSoFar(cleared, after, kept, left, open, placed, added, |kept|) && Fitted()
      ensures InPlace(after, placed, kept) && Done(placed, kept, |kept|) && kept == Fitting(wanted, room)
    {
      hide InPlace, Done, Extends, Framed, Stale, Fitting;
    }

    lemma OursOnly(after: Files, placed: Listing, added: bool)
      requires Cleared() && OursAreThese() && (forall s: Slot :: s in free <==> s !in start)
      requires DistinctIds(kept) && forall id :: HasId(kept, id) ==> HasId(wanted, id)
      requires PlacedSoFar(cleared, after, kept, left, open, placed, added, |kept|)
      ensures OnlyOurs(after, placed) && |placed| == |kept| && (after != start <==> stale != {} || added)
    {
      hide Cleared, OursAreThese, HasId, Extends, Framed, InPlace, Done, Remains, DistinctIds, OurSlots;
      ChangedIff(after, placed, added);
      AllPlaced(after, placed, kept);
      AllAre(after, placed, added);
      AllStay(after, placed, added);
    }

    ghost predicate OnlyOurs(after: Files, placed: Listing) {
      && (forall s: Slot :: s in placed <==> s in OurSlots(start, known, wanted) && s in after)
      && (forall s: Slot :: s !in OurSlots(start, known, wanted) ==> Get(after, s) == Get(start, s))
      && Remains(start, after, OurSlots(start, known, wanted))
    }

    lemma Conclude(after: Files, placed: Listing, list: Option<Listing>, list': Option<Listing>, result: Installation, changed: bool)
      requires known == Known(list) && OnlyOurs(after, placed) && (after != start <==> changed)
      requires kept == Fitting(wanted, room) && |OurSlots(start, known, wanted)| == room
      requires InPlace(after, placed, kept) && Done(placed, kept, |kept|) && |placed| == |kept|
      requires list' == if placed == map[] then None else Some(placed)
      requires result == Installation(|placed|, changed, NotFitting(wanted, room))
      ensures Installed(start, list, wanted, after, list', result)
    {
      var ours := OurSlots(start, known, wanted);
      assert placed.Keys == ours * after.Keys;
      assert Known(list') == placed;
      assert kept == Fitting(wanted, |ours|) && NotFitting(wanted, |ours|) == result.leftOut;
      assert SameOutside(start, after, ours);
    }

    lemma AllAre(after: Files, placed: Listing, added: bool)
      requires Cleared() && OursAreThese() && (forall s: Slot :: s in free <==> s !in start)
      requires PlacedSoFar(cleared, after, kept, left, open, placed, added, |kept|)
      ensures forall s: Slot :: s in placed <==> s in OurSlots(start, known, wanted) && s in after
      ensures forall s: Slot :: s !in OurSlots(start, known, wanted) ==> Get(after, s) == Get(start, s)
    {
      forall s: Slot
        ensures s in placed <==> s in OurSlots(start, known, wanted) && s in after
        ensures s !in OurSlots(start, known, wanted) ==> Get(after, s) == Get(start, s)
      {
        PlacedAre(after, placed, added, s);
      }
    }

    lemma AllStay(after: Files, placed: Listing, added: bool)
      requires Cleared() && OursAreThese() && (forall id :: HasId(kept, id) ==> HasId(wanted, id)) && (forall s: Slot :: s in free <==> s !in start)
      requires PlacedSoFar(cleared, after, kept, left, open, placed, added, |kept|)
      requires forall s: Slot :: s in placed <==> s in OurSlots(start, known, wanted) && s in after
      ensures Remains(start, after, OurSlots(start, known, wanted))
    {
      var ours := OurSlots(start, known, wanted);
      forall s, t | s in ours && s in after && t in start && start[t] == after[s]
        ensures Get(start, s) == Some(after[s])
      {
        assert InPlace(after, placed, kept);
        assert HasId(kept, placed[s].id) && HasId(wanted, start[t]);
        IsOwned(t);
        Stays(after, placed, added, s, t);
      }
    }

    lemma IsOwned(t: Slot)
      requires Cleared() && OursAreThese() && (forall s: Slot :: s in free <==> s !in start) && t in start && HasId(wanted, start[t])
      ensures t in owned && owned[t].id == start[t]
    {
      assert t in OurSlots(start, known, wanted);
    }
  }

  lemma AllPlaced(files: Files, placed: Listing, kept: seq<CodeFile>)
    requires Done(placed, kept, |kept|) && InPlace(files, placed, kept) && DistinctIds(kept)
    ensures |placed| == |kept|
  {
    PlacedAll(placed, kept, |kept|);
    OwnedFit(placed, kept);
  }

  lemma AllSlots(free: set<Slot>)
    requires forall s: Slot :: s in free
    ensures |free| == SLOTS
  {
    var all: set<Slot> := {0, 1, 2, 3, 4, 5, 6, 7};
    forall s: Slot ensures s in all { }
    assert free == all;
  }

  lemma UnionSize(all: set<Slot>, free: set<Slot>, owned: Listing)
    requires (forall s: Slot :: s in all <==> s in free || s in owned) && forall s :: s in owned ==> s !in free
    ensures |all| == |free| + |owned|
  {
    assert all == free + owned.Keys;
    assert free !! owned.Keys;
  }

  lemma ClaimIff(id: Id, listed: Option<Owned>, wanted: seq<CodeFile>)
    ensures Claim(id, listed, wanted, true).Some? <==> !Foreign(id, listed, wanted)
  {
    if HasId(wanted, id) {
      var i :| 0 <= i < |wanted| && wanted[i].id == id;
      assert wanted[i].id.size == id.size;
    }
  }

  lemma SameFiles(a: Files, b: Files)
    requires forall s :: Get(a, s) == Get(b, s)
    ensures a == b
  {
    forall s ensures s in a <==> s in b ensures s in a ==> a[s] == b[s] { assert Get(a, s) == Get(b, s); }
  }

  lemma {:induction false} PlacedAll(placed: Listing, kept: seq<CodeFile>, n: nat)
    requires n <= |kept| && Done(placed, kept, n) && (forall i, j :: 0 <= i < j < n ==> kept[i].id != kept[j].id)
    ensures n <= |placed|
    decreases n
  {
    if n > 0 {
      assert Lists(placed, Entry(kept[n - 1]));
      var s :| s in placed && placed[s] == Entry(kept[n - 1]);
      var rest := placed - {s};
      forall i | 0 <= i < n - 1
        ensures Lists(rest, Entry(kept[i]))
      {
        assert Lists(placed, Entry(kept[i]));
        var t :| t in placed && placed[t] == Entry(kept[i]);
        assert t in rest && rest[t] == Entry(kept[i]);
      }
      assert rest.Keys == placed.Keys - {s};
      PlacedAll(rest, kept, n - 1);
    }
  }

  // ---------- one installation after another ----------

  /** The line the list has for a name, once everything wanted is in place. */
  lemma LineIs(owned: Listing, files: Files, kept: seq<CodeFile>, s: Slot) returns (i: nat)
    requires InPlace(files, owned, kept) && Done(owned, kept, |kept|) && s in owned
    ensures i < |kept| && kept[i].id == owned[s].id && owned[s] == Entry(kept[i])
  {
    assert HasId(kept, owned[s].id);
    i :| 0 <= i < |kept| && kept[i].id == owned[s].id;
    assert Lists(owned, Entry(kept[i]));
    var t :| t in owned && owned[t] == Entry(kept[i]);
    assert t == s;
  }

  lemma OursAfter(before: Files, list: Option<Listing>, wanted: seq<CodeFile>, after: Files, list': Option<Listing>, result: Installation)
    requires Installed(before, list, wanted, after, list', result)
    ensures OurSlots(after, Known(list'), wanted) == OurSlots(before, Known(list), wanted)
  {
    var ours := OurSlots(before, Known(list), wanted);
    forall s: Slot
      ensures Ours(after, Known(list'), wanted, s) <==> s in ours
    {
      if s in ours && s in after {
        assert s in Known(list');
      }
      if s !in ours {
        assert Get(after, s) == Get(before, s);
        assert s in before && Foreign(before[s], Get(Known(list), s), wanted);
        assert s !in Known(list');
      }
    }
  }

  /** Installing the same again changes no file, no line of the list, and reports no change. */
  lemma SecondTimeNothing(before: Files, list: Option<Listing>, wanted: seq<CodeFile>, after: Files, list': Option<Listing>, result: Installation,
                          again: Files, list'': Option<Listing>, result': Installation)
    requires Installed(before, list, wanted, after, list', result) && Installed(after, list', wanted, again, list'', result')
    ensures again == after && list'' == list' && !result'.changed && result'.installed == result.installed
  {
    OursAfter(before, list, wanted, after, list', result);
    hide Fitting, NotFitting, Done, HasId, Foreign;
    var ours := OurSlots(before, Known(list), wanted);
    var kept := Fitting(wanted, |ours|);
    forall s ensures Get(again, s) == Get(after, s) {
      SameSlotAgain(ours, kept, after, Known(list'), again, Known(list''), s);
    }
    SameFiles(again, after);
    SameLines(wanted, |ours|, after, Known(list'), Known(list''));
  }

  /** What the list says of a module follows from where the module is. */
  lemma SameLines(wanted: seq<CodeFile>, room: nat, files: Files, owned: Listing, owned': Listing)
    requires InPlace(files, owned, Fitting(wanted, room)) && InPlace(files, owned', Fitting(wanted, room))
    requires Done(owned, Fitting(wanted, room), |Fitting(wanted, room)|) && Done(owned', Fitting(wanted, room), |Fitting(wanted, room)|)
    requires owned.Keys == owned'.Keys
    ensures owned == owned'
  {
    hide Fitting, HasId, Done;
    forall s | s in owned
      ensures owned'[s] == owned[s]
    {
      assert s in owned.Keys && s in owned'.Keys;
      var i := LineIs(owned, files, Fitting(wanted, room), s);
      var j := LineIs(owned', files, Fitting(wanted, room), s);
      SameEntryOf(wanted, room, i, j);
    }
  }

  lemma SameEntryOf(wanted: seq<CodeFile>, room: nat, i: nat, j: nat)
    requires i < |Fitting(wanted, room)| && j < |Fitting(wanted, room)| && Fitting(wanted, room)[i].id == Fitting(wanted, room)[j].id
    ensures i == j
  {
    FittingIsFirst(wanted, room);
  }

  lemma SameSlotAgain(ours: set<Slot>, kept: seq<CodeFile>, after: Files, owned: Listing, again: Files, owned': Listing, s: Slot)
    requires SameOutside(after, again, ours) && InPlace(after, owned, kept) && InPlace(again, owned', kept)
    requires Done(owned, kept, |kept|) && Done(owned', kept, |kept|)
    requires owned.Keys == ours * after.Keys && owned'.Keys == ours * again.Keys && Remains(after, again, ours)
    ensures Get(again, s) == Get(after, s)
  {
    if s in ours && s in after {
      // Its module is in place again, under a name that had it: this one.
      var i := LineIs(owned, after, kept, s);
      assert Lists(owned', Entry(kept[i]));
      var t :| t in owned' && owned'[t] == Entry(kept[i]);
      assert t in ours && t in again && again[t] == after[s];
      assert Get(after, t) == Some(again[t]);
      assert t in owned;
    }
    if s in ours && s in again && s !in after {
      var i := LineIs(owned', again, kept, s);
      assert Lists(owned, Entry(kept[i]));
      var t :| t in owned && owned[t] == Entry(kept[i]);
      assert t in after && after[t] == again[s];
      assert Get(after, s) == Some(again[s]);
    }
  }

  /** Installing modules none of which is there, without a list, and then nothing, restores the folder. */
  lemma InstallThenNothingRestores(before: Files, wanted: seq<CodeFile>, after: Files, list: Option<Listing>, result: Installation,
                                   restored: Files, list': Option<Listing>, result': Installation)
    requires forall s :: s in before ==> !HasId(wanted, before[s])
    requires Installed(before, None, wanted, after, list, result) && Installed(after, list, [], restored, list', result')
    ensures restored == before && list' == None
  {
    var ours := OurSlots(before, map[], wanted);
    var ours' := OurSlots(after, Known(list), []);
    assert Fitting([], |ours'|) == [];
    NothingKept(restored, Known(list'));
    forall s: Slot ensures Get(restored, s) == Get(before, s) {
      RestoredAt(before, wanted, after, Known(list), restored, ours, ours', s);
    }
    SameFiles(restored, before);
  }

  lemma NothingKept(files: Files, owned: Listing)
    requires InPlace(files, owned, [])
    ensures owned == map[]
  {
    assert forall id :: !HasId([], id);
  }

  lemma RestoredAt(before: Files, wanted: seq<CodeFile>, after: Files, owned: Listing, restored: Files, ours: set<Slot>, ours': set<Slot>, s: Slot)
    requires forall s :: s in before ==> !HasId(wanted, before[s])
    requires ours == OurSlots(before, map[], wanted) && ours' == OurSlots(after, owned, [])
    requires SameOutside(before, after, ours) && SameOutside(after, restored, ours') && ours' * restored.Keys == {}
    requires owned.Keys == ours * after.Keys && forall s :: s in owned ==> after[s] == owned[s].id
    ensures Get(restored, s) == Get(before, s)
  {
    if s in before {
      assert Foreign(before[s], Get(map[], s), wanted);
      assert s !in ours;
      assert Get(after, s) == Get(before, s);
      assert s !in owned && Foreign(after[s], Get(owned, s), []);
      assert s !in ours';
      assert Get(restored, s) == Get(after, s);
    } else {
      assert s in ours;
      assert s in after ==> s in owned;
      assert s in ours';
      assert s in ours' * restored.Keys <==> s in restored;
    }
  }
}
