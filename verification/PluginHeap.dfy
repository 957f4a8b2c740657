/** The plugin's allocator: free-list heads and chunks in fixed arrays, links written into the
    freed blocks themselves, a bump region in the newest chunk.  Each method is proved to run one
    transition of `HeapModel` and to keep its invariant. */
module PluginHeap {
  import opened HeapModel

  class Heap {
    const free: array<nat>
    const chunks: array<Chunk>
    var chunkCount: nat
    var cursor: nat
    var end: nat
    var exhausted: bool
    /** The words of memory: links of free blocks, and whatever clients write. */
    var memory: map<nat, nat>

    ghost var blocks: map<nat, nat>
    ghost var live: set<nat>
    ghost var lists: seq<seq<nat>>

    ghost function View(): State
      reads this, free, chunks
    {
      State(free[..], chunks[..], chunkCount, cursor, end, exhausted, memory, blocks, live, lists)
    }

    ghost predicate Valid()
      reads this, free, chunks
    {
      Inv(View())
    }

    constructor ()
      ensures Valid() && Initial(View()) && memory == map[] && !exhausted
      ensures fresh(free) && fresh(chunks)
    {
      free := new nat[CLASSES](_ => 0);
      chunks := new Chunk[MAX_CHUNKS](_ => Chunk(0, 0, 0));
      chunkCount, cursor, end, exhausted, memory := 0, 0, 0, false, map[];
      blocks, live, lists := map[], {}, seq(CLASSES, _ => []);
      new;
      InitialOk(View());
    }

    /** The slot of the chunk an address lies in. */
    method ChunkIndex(address: nat) returns (index: Option<nat>)
      requires chunkCount <= chunks.Length
      ensures index == (var i := ChunkAt(chunks[..], chunkCount, address); if i < chunkCount then Some(i) else None)
    {
      var i := 0;
      while i < chunkCount
        invariant 0 <= i <= chunkCount
        invariant forall j :: 0 <= j < i ==> !InChunk(chunks[..][j], address)
      {
        if InChunk(chunks[i], address) {
          assert InChunk(chunks[..][i], address);
          return Some(i);
        }
        i := i + 1;
      }
      return None;
    }

    /** Maps one more chunk, unless the kernel refused before, every slot is taken or it refuses now. */
    method Grow(block: nat, granted: nat) returns (grown: bool)
      requires Valid()
      requires Grantable(chunks[..], GrowSize(chunks[..], block), granted)
      modifies this`chunkCount, this`cursor, this`end, this`exhausted, chunks
      ensures View() == HeapModel.Grow(old(View()), block, granted)
      ensures grown == GrowWorks(old(View()), granted)
    {
      hide ChunksOk, BumpOk, BlocksOk, ListsOk, CountsOk, Grantable, AlignUp;
      if exhausted {
        return false;
      }
      var slot := 0;
      while slot < MAX_CHUNKS && !(slot >= chunkCount || chunks[slot].base == 0)
        invariant 0 <= slot <= MAX_CHUNKS
        invariant FreeSlot(chunks[..], 0) == FreeSlot(chunks[..], slot)
      {
        slot := slot + 1;
      }
      assert slot == FreeSlot(chunks[..], 0);
      if slot == MAX_CHUNKS {
        exhausted := true;
        return false;
      }
      var nothing := true;
      var i := 0;
      while i < MAX_CHUNKS
        invariant 0 <= i <= MAX_CHUNKS
        invariant nothing <==> forall j :: 0 <= j < i ==> chunks[..][j].base == 0
      {
        nothing := nothing && chunks[i].base == 0;
        i := i + 1;
      }
      if granted == 0 {
        exhausted := true;
        return false;
      }
      var size := Max(if nothing then FIRST_CHUNK else CHUNK, AlignUp(block, PAGE));
      chunks[slot] := Chunk(granted, size, 0);
      chunkCount := Max(chunkCount, slot + 1);
      cursor := granted;
      end := granted + size;
      return true;
    }

    /** Counts one more, or one less, block in use in the chunk holding `address`. */
    method Count(address: nat, delta: int)
      requires chunkCount <= chunks.Length
      modifies chunks
      ensures chunks[..] == Counted(old(chunks[..]), ChunkAt(old(chunks[..]), chunkCount, address), chunkCount, delta)
    {
      var index := ChunkIndex(address);
      if index.Some? {
        var i := index.value;
        chunks[i] := chunks[i].(live := chunks[i].live + delta);
      }
    }

    /** A block of a class: the class's latest freed block, else one cut off the bump region, else
        one cut off a new chunk. */
    method Allocate(class_: nat, granted: nat) returns (pointer: nat)
      requires Valid() && class_ < CLASSES
      requires Grantable(chunks[..], GrowSize(chunks[..], SizeOf(class_)), granted)
      modifies this, free, chunks
      ensures Valid()
      ensures (View(), pointer) == Allocated(old(View()), class_, granted)
    {
      hide ChunksOk, BumpOk, BlocksOk, CountsOk, Grantable, GrowSize, AlignUp, SizeOf;
      ghost var before := View();
      var head := free[class_];
      NoZeroBlock(before, class_);
      if head != 0 {
        pointer := PopBlock(class_);
        PopKeeps(before, class_);
        return;
      }
      var start := AlignUp(cursor, AlignmentOf(class_));
      if cursor == 0 || start + SizeOf(class_) > end {
        GrowKeeps(before, SizeOf(class_), granted);
        var grown := Grow(SizeOf(class_), granted);
        if !grown {
          return 0;
        }
        GrownFits(before, class_, granted);
        start := cursor;
      }
      CarveKeeps(View(), class_);
      CarveBlock(class_, start);
      return start;
    }

    method PopBlock(class_: nat) returns (head: nat)
      requires Shape(View()) && class_ < CLASSES && lists[class_] != []
      requires Chained(memory, free[class_], lists[class_])
      modifies this`live, this`lists, free, chunks
      ensures View() == Pop(old(View()), class_)
      ensures head == old(lists[class_][0])
    {
      head := free[class_];
      assert Linked(memory, lists[class_], 0);
      free[class_] := memory[head];
      Count(head, 1);
      live := live + {head};
      lists := lists[class_ := lists[class_][1..]];
    }

    method CarveBlock(class_: nat, start: nat)
      requires Shape(View()) && start == CarveStart(View(), class_)
      modifies this`cursor, this`blocks, this`live, chunks
      ensures View() == Carve(old(View()), class_)
    {
      cursor := start + SizeOf(class_);
      Count(start, 1);
      blocks := blocks[start := class_];
      live := live + {start};
    }

    /** Takes a block back: its first word becomes the link to the block freed before it. */
    method Release(pointer: nat, class_: nat)
      requires Valid() && pointer in live && class_ < CLASSES && blocks[pointer] == class_
      modifies this`memory, this`live, this`lists, free, chunks
      ensures Valid()
      ensures View() == Push(old(View()), pointer)
    {
      PushKeeps(View(), pointer);
      memory := memory[pointer := free[class_]];
      free[class_] := pointer;
      Count(pointer, -1);
      live := live - {pointer};
      lists := lists[class_ := [pointer] + lists[class_]];
    }
  
    /** Gives the chunks no block in use is in back to the kernel, after taking their freed blocks
        off the free lists.  The kernel keeps the mappings in `refused`. */
    method Trim(refused: set<nat>) returns (released: nat, mapped: nat)
      requires Valid()
      modifies this, free, chunks
      ensures Valid()
      ensures AnyEmpty(old(View())) ==> Trimmed(old(View()), View(), refused)
      ensures !AnyEmpty(old(View())) ==> View() == old(View())
      ensures released == CountUnmapped(old(View()), refused, chunkCount)
      ensures mapped == CountMapped(chunks[..], chunkCount)
    {
      hide ChunksOk, BumpOk, BlocksOk, ListsOk, CountsOk, EmptySlot, InEmpty, AnyEmpty, Trimmed, CountUnmapped, CountMapped, Unlinked, Survivors, LeftBlocks;
      ghost var before := View();
      var empty, any := FindEmpty();
      if !any {
        NothingUnmapped(before, refused, chunkCount);
        released := 0;
        mapped := Mapped();
        return;
      }
      UnlinkAll(empty, before);
      ghost var mid := View();
      released := Unmap(empty, refused, before);
      exhausted := false;
      blocks := LeftBlocks(before);
      AllUnlinked(before, mid, View(), refused);
      TrimKeeps(before, View(), refused);
      mapped := Mapped();
    }

    method UnlinkAll(empty: array<bool>, ghost before: State)
      requires Inv(before) && View() == before
      requires empty.Length == MAX_CHUNKS
      requires forall j :: 0 <= j < MAX_CHUNKS ==> empty[j] == EmptySlot(before, j)
      modifies this`memory, this`lists, free
      ensures Unlinked(before, View(), CLASSES)
    {
      NothingUnlinked(before);
      var class_ := 0;
      while class_ < CLASSES
        invariant 0 <= class_ <= CLASSES
        invariant Unlinked(before, View(), class_)
      {
        Unlink(class_, empty, before);
        class_ := class_ + 1;
      }
    }

    method FindEmpty() returns (empty: array<bool>, any: bool)
      requires Shape(View())
      ensures fresh(empty) && empty.Length == MAX_CHUNKS
      ensures forall j :: 0 <= j < MAX_CHUNKS ==> empty[j] == EmptySlot(View(), j)
      ensures any == AnyEmpty(View())
    {
      empty := new bool[MAX_CHUNKS](_ => false);
      any := false;
      var i := 0;
      while i < chunkCount
        invariant 0 <= i <= chunkCount
        invariant forall j :: 0 <= j < MAX_CHUNKS ==> empty[j] == (j < i && EmptySlot(View(), j))
        invariant any <==> exists j :: 0 <= j < i && EmptySlot(View(), j)
      {
        if chunks[i].base != 0 && chunks[i].live == 0 {
          empty[i] := true;
          any := true;
          assert EmptySlot(View(), i);
        }
        i := i + 1;
      }
    }

    /** Unmaps the empty chunks, forgetting the bump region when it is next to one. */
    method Unmap(empty: array<bool>, refused: set<nat>, ghost before: State) returns (released: nat)
      requires Shape(before) && chunks[..] == before.chunks && chunkCount == before.count
      requires cursor == before.cursor && end == before.end
      requires empty.Length == MAX_CHUNKS
      requires forall j :: 0 <= j < MAX_CHUNKS ==> empty[j] == EmptySlot(before, j)
      modifies this`cursor, this`end, chunks
      ensures chunks[..] == TrimmedChunks(before, refused)
      ensures cursor == (if CursorLeaves(before) then 0 else before.cursor)
      ensures end == (if CursorLeaves(before) then 0 else before.end)
      ensures released == CountUnmapped(before, refused, chunkCount)
    {
      ghost var after := TrimmedChunks(before, refused);
      released := 0;
      var i := 0;
      while i < chunkCount
        invariant 0 <= i <= chunkCount
        invariant forall j :: 0 <= j < MAX_CHUNKS ==> chunks[j] == if j < i then after[j] else before.chunks[j]
        invariant cursor == (if CursorLeft(before, i) then 0 else before.cursor)
        invariant end == (if CursorLeft(before, i) then 0 else before.end)
        invariant released == CountUnmapped(before, refused, i)
      {
        CursorLeftMore(before, i);
        if empty[i] {
          var base, size := chunks[i].base, chunks[i].size;
          if cursor >= base && cursor <= base + size {
            cursor := 0;
            end := 0;
          }
          if base !in refused {
            chunks[i] := chunks[i].(base := 0);
            released := released + 1;
          }
        }
        i := i + 1;
      }
    }

    method Mapped() returns (mapped: nat)
      requires chunkCount <= chunks.Length
      ensures mapped == CountMapped(chunks[..], chunkCount)
    {
      mapped := 0;
      var i := 0;
      while i < chunkCount
        invariant 0 <= i <= chunkCount
        invariant mapped == CountMapped(chunks[..], i)
      {
        if chunks[i].base != 0 {
          mapped := mapped + 1;
        }
        i := i + 1;
      }
    }

    /** Takes the blocks of empty chunks off one free list. */
    method Unlink(class_: nat, empty: array<bool>, ghost before: State)
      requires Inv(before) && class_ < CLASSES && Unlinked(before, View(), class_)
      requires empty.Length == MAX_CHUNKS
      requires forall j :: 0 <= j < MAX_CHUNKS ==> empty[j] == EmptySlot(before, j)
      modifies this`memory, this`lists, free
      ensures Unlinked(before, View(), class_ + 1)
    {
      ghost var start := View();
      WalkStarts(before, memory, free[class_], class_);
      WalkList(class_, empty, before, lists[class_]);
      lists := lists[class_ := Survivors(before, lists[class_])];
      UnlinkedMore(before, start, View(), class_);
    }

    method WalkList(class_: nat, empty: array<bool>, ghost before: State, ghost list: seq<nat>)
      requires Shape(before) && chunks[..] == before.chunks && chunkCount == before.count
      requires class_ < CLASSES == free.Length && Walking(before, memory, free[class_], list, 0, free[class_], 0)
      requires empty.Length == MAX_CHUNKS
      requires forall j :: 0 <= j < MAX_CHUNKS ==> empty[j] == EmptySlot(before, j)
      modifies this`memory, free
      ensures Chained(memory, free[class_], Survivors(before, list))
      ensures free[..] == old(free[..])[class_ := free[class_]]
      ensures OnlyLinksChanged(old(memory), memory, Survivors(before, list))
    {
      hide Walking, Survivors, InEmpty, OnlyLinksChanged, EmptySlot, Chained, NextOf;
      NothingRelinked(memory, Survivors(before, list[..0]));
      ghost var k := 0;
      var previous := 0;
      var current := free[class_];
      while current != 0
        invariant 0 <= k <= |list| && Walking(before, memory, free[class_], list, k, current, previous)
        invariant free[..] == old(free[..])[class_ := free[class_]]
        invariant OnlyLinksChanged(old(memory), memory, Survivors(before, list[..k]))
        decreases |list| - k
      {
        ghost var memory0, head0, previous0 := memory, free[class_], previous;
        WalkReads(before, memory, free[class_], list, k, current, previous);
        var next := memory[current];
        var unlink := InEmptyChunk(current, empty, before);
        if unlink {
          if previous == 0 {
            free[class_] := next;
          } else {
            memory := memory[previous := next];
          }
        } else {
          previous := current;
        }
        WalkSteps(before, old(memory), memory0, head0, list, k, current, previous0, memory, free[class_], next, previous);
        current := next;
        k := k + 1;
      }
      WalkEnds(before, memory, free[class_], list, k, previous);
    }

    method InEmptyChunk(address: nat, empty: array<bool>, ghost before: State) returns (inside: bool)
      requires Shape(before) && chunks[..] == before.chunks && chunkCount == before.count
      requires empty.Length == MAX_CHUNKS
      requires forall j :: 0 <= j < MAX_CHUNKS ==> empty[j] == EmptySlot(before, j)
      ensures inside == InEmpty(before, address)
    {
      var i := 0;
      while i < chunkCount
        invariant 0 <= i <= chunkCount
        invariant forall j :: 0 <= j < i ==> !(EmptySlot(before, j) && InChunk(before.chunks[j], address))
      {
        if empty[i] && address >= chunks[i].base && address < chunks[i].base + chunks[i].size {
          assert EmptySlot(before, i) && InChunk(before.chunks[i], address);
          return true;
        }
        i := i + 1;
      }
      return false;
    }
  }
}
