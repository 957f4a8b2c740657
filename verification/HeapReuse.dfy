/** Which block the heap hands out: freed ones first, and when it hands out none. */
module HeapReuse {
  import opened HeapModel

  /** A released block is the next one of its class handed out, which undoes the release but for the link it held. */
  lemma ReleasedIsNext(s: State, address: nat, granted: nat)
    requires Inv(s) && address in s.live
    ensures s.blocks[address] < CLASSES
    ensures var (t, pointer) := Allocated(Push(s, address), s.blocks[address], granted);
            pointer == address && t == s.(memory := s.memory[address := s.free[s.blocks[address]]])
  {
    PushKeeps(s, address);
    var class_, freed := s.blocks[address], Push(s, address);
    hide Inv, Counted;
    CountedBack(s.chunks, s.count, address);
    HeadIs(s, class_);
    assert freed.lists[class_] == [address] + s.lists[class_] && freed.lists[class_][1..] == s.lists[class_];
    var t := Pop(freed, class_);
    assert t.free == s.free && t.lists == s.lists;
    assert t.live == s.live;
  }

  lemma HeadIs(s: State, class_: nat)
    requires Inv(s) && class_ < CLASSES
    ensures |s.free| == |s.lists| == CLASSES && s.count <= |s.chunks| && s.live <= s.blocks.Keys
    ensures s.free[class_] == NextOf(s.lists[class_], 0)
  {
    assert Chained(s.memory, s.free[class_], s.lists[class_]);
  }

  /** One block less in use and one more leaves the counters. */
  lemma CountedBack(chunks: seq<Chunk>, count: nat, address: nat)
    requires count <= |chunks|
    ensures var less := Counted(chunks, ChunkAt(chunks, count, address), count, -1);
            |less| == |chunks| && Counted(less, ChunkAt(less, count, address), count, 1) == chunks
  {
    var i := ChunkAt(chunks, count, address);
    var less := Counted(chunks, i, count, -1);
    assert forall j :: 0 <= j < count ==> InChunk(less[j], address) == InChunk(chunks[j], address);
    var k := ChunkAt(less, count, address);
    assert k == i;
  }

  /** Some address on the class's boundary has room for a block in the bump region. */
  ghost predicate Room(s: State, class_: nat) {
    exists start: nat :: RoomAt(s, class_, start)
  }

  predicate RoomAt(s: State, class_: nat, start: nat) {
    s.cursor != 0 && s.cursor <= start && start % AlignmentOf(class_) == 0 && start + SizeOf(class_) <= s.end
  }

  ghost predicate SlotLeft(s: State) {
    exists i :: 0 <= i < |s.chunks| && s.chunks[i].base == 0
  }

  lemma FreeSlotIff(chunks: seq<Chunk>)
    ensures FreeSlot(chunks, 0) < |chunks| <==> exists i :: 0 <= i < |chunks| && chunks[i].base == 0
  {
  }

  lemma MultiplesApart(a: nat, b: nat, d: nat)
    requires d > 0 && a % d == 0 && b % d == 0 && a < b
    ensures a + d <= b
  {
    var p, q := a / d, b / d;
    assert a == p * d && b == q * d;
    assert (q - p) * d == b - a;
    ScaleBounds(q - p, d);
  }

  /** The bump region is carved at the first boundary there is, so it has room if any boundary has. */
  lemma CarvedFirst(s: State, class_: nat, start: nat)
    requires s.cursor <= start && start % AlignmentOf(class_) == 0
    ensures CarveStart(s, class_) <= start
  {
    hide AlignUp, AlignShift;
    AlignUpBounds(s.cursor, AlignmentOf(class_));
    if start < CarveStart(s, class_) {
      MultiplesApart(start, CarveStart(s, class_), AlignmentOf(class_));
    }
  }

  lemma RoomIff(s: State, class_: nat)
    ensures Room(s, class_) <==> CanCarve(s, class_)
  {
    AlignUpBounds(s.cursor, AlignmentOf(class_));
    if CanCarve(s, class_) { assert RoomAt(s, class_, CarveStart(s, class_)); }
    if Room(s, class_) {
      var start: nat :| RoomAt(s, class_, start);
      CarvedFirst(s, class_, start);
    }
  }

  /** A block is refused exactly when none of its class was freed, the bump region has no room for one, and the kernel has
      refused before, no slot is left for another chunk, or it refuses now. */
  lemma RefusedIff(s: State, class_: nat, granted: nat)
    requires Inv(s) && class_ < CLASSES && Grantable(s.chunks, GrowSize(s.chunks, SizeOf(class_)), granted)
    ensures Allocated(s, class_, granted).1 == 0
            <==> s.lists[class_] == [] && !Room(s, class_) && (s.exhausted || !SlotLeft(s) || granted == 0)
  {
    hide Inv, Grantable, GrowSize, Room, CanCarve;
    ListsThere(s);
    RoomIff(s, class_);
    FreeSlotIff(s.chunks);
    if s.lists[class_] == [] && CanCarve(s, class_) {
      CarveGives(s, class_);
    } else if s.lists[class_] == [] && GrowWorks(s, granted) {
      GrownFits(s, class_, granted);
      CarveGives(Grow(s, SizeOf(class_), granted), class_);
    }
  }

  /** Where a block comes from: of the freed ones of its class the latest, else the first boundary of the bump region with
      room, else the start of a new chunk; freed blocks of other classes stay where they are. */
  lemma ComesFrom(s: State, class_: nat, granted: nat)
    requires Inv(s) && class_ < CLASSES && Grantable(s.chunks, GrowSize(s.chunks, SizeOf(class_)), granted)
    requires Allocated(s, class_, granted).1 != 0
    ensures var (t, pointer) := Allocated(s, class_, granted);
            && (if s.lists[class_] != [] then
                  pointer == s.lists[class_][0] && t.lists == s.lists[class_ := s.lists[class_][1..]]
                  && t.cursor == s.cursor && t.end == s.end && t.blocks == s.blocks
                else t.lists == s.lists && t.cursor == pointer + SizeOf(class_) && t.blocks == s.blocks[pointer := class_])
            && (s.lists[class_] == [] && Room(s, class_) ==>
                  RoomAt(s, class_, pointer) && t.end == s.end && forall start: nat :: RoomAt(s, class_, start) ==> pointer <= start)
            && (s.lists[class_] == [] && !Room(s, class_) ==>
                  pointer == granted && t.end == granted + GrowSize(s.chunks, SizeOf(class_)))
  {
    hide Inv, Grantable, Room, GrowSize;
    ListsThere(s);
    RoomIff(s, class_);
    if s.lists[class_] == [] {
      if CanCarve(s, class_) {
        FirstRoom(s, class_);
      } else {
        GrownFits(s, class_, granted);
      }
    }
  }

  lemma FirstRoom(s: State, class_: nat)
    requires CanCarve(s, class_)
    ensures RoomAt(s, class_, CarveStart(s, class_)) && forall start: nat :: RoomAt(s, class_, start) ==> CarveStart(s, class_) <= start
  {
    AlignUpBounds(s.cursor, AlignmentOf(class_));
    forall start: nat | RoomAt(s, class_, start) ensures CarveStart(s, class_) <= start { CarvedFirst(s, class_, start); }
  }

  /** After trimming, a chunk is still mapped exactly when a block in use lies in it or the kernel kept it, and a refusal needs
      the kernel to refuse again. */
  lemma TrimGivesBack(s: State, t: State, refused: set<nat>, class_: nat, granted: nat)
    requires Inv(s) && AnyEmpty(s) && Trimmed(s, t, refused) && class_ < CLASSES
    requires Grantable(t.chunks, GrowSize(t.chunks, SizeOf(class_)), granted)
    ensures forall i :: 0 <= i < s.count && s.chunks[i].base != 0 ==>
              (t.chunks[i].base != 0 <==> LiveIn(s.live, s.chunks[i]) != {} || s.chunks[i].base in refused)
    ensures |t.lists| == |t.free| == CLASSES && t.count <= |t.chunks|
    ensures Allocated(t, class_, granted).1 == 0 <==> t.lists[class_] == [] && !Room(t, class_) && (!SlotLeft(t) || granted == 0)
  {
    TrimKeeps(s, t, refused);
    RefusedIff(t, class_, granted);
    MappedAfter(s, t, refused);
  }

  lemma MappedAfter(s: State, t: State, refused: set<nat>)
    requires Inv(s) && t.chunks == TrimmedChunks(s, refused)
    ensures forall i :: 0 <= i < s.count && s.chunks[i].base != 0 ==>
              (t.chunks[i].base != 0 <==> LiveIn(s.live, s.chunks[i]) != {} || s.chunks[i].base in refused)
  {
    hide ChunksOk, BumpOk, BlocksOk, ListsOk;
    forall i | 0 <= i < s.count && s.chunks[i].base != 0
      ensures s.chunks[i].live == 0 <==> LiveIn(s.live, s.chunks[i]) == {}
    {
      assert s.chunks[i].live == |LiveIn(s.live, s.chunks[i])|;
    }
  }
}
