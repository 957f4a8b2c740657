/** The plugin's heap as a value: what one state holds, what makes it consistent, and one
    transition per operation.  `PluginHeap` runs these transitions on the real arrays and
    memory words. */
module HeapModel {

  const PAGE: nat := 0x1000
  const CHUNK: nat := 64 * 1024 * 1024
  const FIRST_CHUNK: nat := 2 * 1024 * 1024
  const MAX_CHUNKS: nat := 48
  const MIN_CLASS_SHIFT: nat := 4
  const MAX_CLASS_SHIFT: nat := 24
  const CLASSES: nat := 21

  // ---------- powers of two and alignment ----------

  function Pow2(k: nat): (p: nat)
    ensures p >= 1
  {
    if k == 0 then 1 else 2 * Pow2(k - 1)
  }

  lemma {:induction false} Pow2Splits(a: nat, b: nat)
    requires a <= b
    ensures Pow2(b) == Pow2(b - a) * Pow2(a)
  {
    if a < b {
      Pow2Splits(a, b - 1);
      MultiplyAssociates(2, Pow2(b - 1 - a), Pow2(a));
    }
  }

  lemma Pow2Known()
    ensures Pow2(4) == 16 && Pow2(12) == PAGE && Pow2(24) == 16 * 1024 * 1024
  {
    assert Pow2(4) == 16;
    assert Pow2(8) == 256;
    assert Pow2(12) == 4096;
    assert Pow2(16) == 65536;
    assert Pow2(20) == 1048576;
  }

  lemma ScaleBounds(k: int, d: nat)
    ensures k >= 1 ==> k * d >= d
    ensures k <= -1 ==> k * d <= -(d as int)
  {
    if k >= 1 {
      assert (k - 1) * d >= 0;
    } else if k <= -1 {
      assert (-1 - k) * d >= 0;
    }
  }

  lemma MultipleIsAligned(q: int, d: nat)
    requires d > 0
    ensures q * d % d == 0
  {
    var m, rem := q * d / d, q * d % d;
    assert q * d == m * d + rem;
    assert (q - m) * d == rem;
    ScaleBounds(q - m, d);
  }

  lemma MultiplyAssociates(a: int, b: int, c: int)
    ensures a * (b * c) == (a * b) * c
  {
  }

  lemma DividesThrough(address: nat, times: nat, small: nat)
    requires times * small > 0 && small > 0 && address % (times * small) == 0
    ensures address % small == 0
  {
    var big := times * small;
    var q := address / big;
    assert address == q * big;
    MultiplyAssociates(q, times, small);
    MultipleIsAligned(q * times, small);
  }

  /** A boundary of a larger power of two is one of every smaller power. */
  lemma AlignedDown(address: nat, a: nat, b: nat)
    requires a <= b && address % Pow2(b) == 0
    ensures address % Pow2(a) == 0
  {
    Pow2Splits(a, b);
    DividesThrough(address, Pow2(b - a), Pow2(a));
  }

  function AlignUp(value: nat, alignment: nat): nat
    requires alignment > 0
  {
    (value + alignment - 1) / alignment * alignment
  }

  lemma AlignUpBounds(value: nat, alignment: nat)
    requires alignment > 0
    ensures value <= AlignUp(value, alignment) < value + alignment
    ensures AlignUp(value, alignment) % alignment == 0
  {
    var q := (value + alignment - 1) / alignment;
    assert value + alignment - 1 == q * alignment + (value + alignment - 1) % alignment;
    MultipleIsAligned(q, alignment);
  }

  // ---------- size classes ----------

  datatype Option<T> = None | Some(value: T)

  /** What a caller asks for.  `align` is 2 to the power `alignShift`. */
  datatype Layout = Layout(size: nat, alignShift: nat)
  {
    function Align(): nat { Pow2(alignShift) }
  }

  function SizeOf(class_: nat): nat { Pow2(class_ + MIN_CLASS_SHIFT) }

  /** Blocks lie on a boundary of their own size, up to a page. */
  function AlignShift(class_: nat): nat { if class_ + MIN_CLASS_SHIFT < 12 then class_ + MIN_CLASS_SHIFT else 12 }

  function AlignmentOf(class_: nat): nat { Pow2(AlignShift(class_)) }

  function Max(a: nat, b: nat): nat { if a < b then b else a }

  /** Exponent of the least power of two, from `from` up, that is at least `n`. */
  function NextShift(n: nat, from: nat): (shift: nat)
    ensures from <= shift && n <= Pow2(shift)
    ensures shift == from || Pow2(shift - 1) < n
    decreases if n <= Pow2(from) then 0 else n - Pow2(from)
  {
    if n <= Pow2(from) then from else NextShift(n, from + 1)
  }

  /** The class serving a layout, or none when it gets a mapping of its own. */
  function ClassOf(layout: Layout): Option<nat>
  {
    var shift := NextShift(Max(Max(layout.size, layout.Align()), Pow2(MIN_CLASS_SHIFT)), 0);
    if shift <= MAX_CLASS_SHIFT && layout.Align() <= PAGE && shift >= MIN_CLASS_SHIFT
    then Some(shift - MIN_CLASS_SHIFT) else None
  }

  lemma Pow2Grows(a: nat, b: nat)
    requires a < b
    ensures 2 * Pow2(a) <= Pow2(b)
  {
    Pow2Splits(a + 1, b);
    ScaleBounds(Pow2(b - a - 1), Pow2(a + 1));
  }

  /** A class is found exactly for layouts of at most 16 MiB aligned to at most a page.  Its blocks
      hold the layout, half of one would not (the first
      class apart), and any boundary such a block may
      lie on satisfies the layout. */
  lemma ClassFits(layout: Layout)
    ensures ClassOf(layout).Some? <==> layout.size <= 16 * 1024 * 1024 && layout.Align() <= PAGE
    ensures ClassOf(layout).Some? ==>
              var k := ClassOf(layout).value;
              && k < CLASSES
              && layout.size <= SizeOf(k)
              && (k > 0 ==> SizeOf(k) / 2 < layout.size || SizeOf(k) / 2 < layout.Align())
              && forall address: nat :: address % AlignmentOf(k) == 0 ==> address % layout.Align() == 0
  {
    Pow2Known();
    var need := Max(Max(layout.size, layout.Align()), Pow2(MIN_CLASS_SHIFT));
    var shift := NextShift(need, 0);
    if shift < 4 {
      Pow2Grows(shift, 4);
    }
    if shift > 24 && layout.Align() <= PAGE && layout.size <= 16 * 1024 * 1024 && shift > 25 {
      Pow2Grows(24, shift - 1);
    }
    if shift <= 24 && shift < 24 {
      Pow2Grows(shift, 24);
    }
    if ClassOf(layout).Some? {
      var k := ClassOf(layout).value;
      assert SizeOf(k) == Pow2(shift) == 2 * Pow2(shift - 1) || shift == 0;
      if AlignShift(k) < layout.alignShift {
        Pow2Grows(AlignShift(k), layout.alignShift);
      }
      forall address: nat | address % AlignmentOf(k) == 0
        ensures address % layout.Align() == 0
      {
        AlignedDown(address, layout.alignShift, AlignShift(k));
      }
    }
  }

  lemma PageAlignsEveryClass(class_: nat, address: nat)
    requires address % PAGE == 0
    ensures address % AlignmentOf(class_) == 0
  {
    Pow2Known();
    AlignedDown(address, AlignShift(class_), 12);
  }

  // ---------- states ----------

  /** `live` is the number of its blocks in use; a slot with base 0 has no mapping. */
  datatype Chunk = Chunk(base: nat, size: nat, live: int)

  /** Everything the allocator stores, then three facts it does not: the blocks accounted for and
      their class, those of them handed out, and the free lists as sequences (the allocator only
      has their heads, and the links it writes into the freed blocks). */
  datatype State = State(
    free: seq<nat>, chunks: seq<Chunk>, count: nat, cursor: nat, end: nat, exhausted: bool,
    memory: map<nat, nat>, blocks: map<nat, nat>, live: set<nat>, lists: seq<seq<nat>>)

  predicate InChunk(chunk: Chunk, address: nat) {
    chunk.base != 0 && chunk.base <= address < chunk.base + chunk.size
  }

  /** The first slot whose chunk holds `address`, or `count`. */
  function ChunkAt(chunks: seq<Chunk>, count: nat, address: nat): (i: nat)
    requires count <= |chunks|
    ensures i <= count
    ensures i < count ==> InChunk(chunks[i], address)
    ensures forall j :: 0 <= j < i ==> !InChunk(chunks[j], address)
  {
    if count == 0 then 0
    else
      var i := ChunkAt(chunks, count - 1, address);
      if i < count - 1 || InChunk(chunks[count - 1], address) then i else count
  }

  function NextOf(list: seq<nat>, i: nat): nat {
    if i < |list| then list[i] else 0
  }

  predicate Apart(a: nat, sizeA: nat, b: nat, sizeB: nat) {
    a + sizeA <= b || b + sizeB <= a
  }

  ghost predicate Shape(s: State) {
    && |s.free| == CLASSES && |s.lists| == CLASSES && |s.chunks| == MAX_CHUNKS
    && s.count <= MAX_CHUNKS
    && forall i :: s.count <= i < MAX_CHUNKS ==> s.chunks[i].base == 0
  }

  ghost predicate ChunksOk(s: State) {
    && (forall i :: 0 <= i < |s.chunks| && s.chunks[i].base != 0 ==>
          s.chunks[i].base % PAGE == 0 && s.chunks[i].size > 0)
    && (forall i, j :: 0 <= i < j < |s.chunks| && s.chunks[i].base != 0 && s.chunks[j].base != 0 ==>
          Apart(s.chunks[i].base, s.chunks[i].size, s.chunks[j].base, s.chunks[j].size))
  }

  /** The region blocks are carved from is the tail of a mapped chunk. */
  ghost predicate BumpOk(s: State)
    requires Shape(s)
  {
    (s.cursor == 0 && s.end == 0)
    || exists i :: 0 <= i < s.count && BumpIn(s, s.chunks[i])
  }

  predicate BumpIn(s: State, chunk: Chunk) {
    chunk.base != 0 && chunk.base <= s.cursor <= s.end == chunk.base + chunk.size
  }

  predicate ClearOfBump(s: State, address: nat, size: nat) {
    address + size <= s.cursor || s.end <= address
  }

  /** A block lies inside one mapped chunk, on its class's boundary, clear of the bump region. */
  ghost predicate Placed(s: State, address: nat, class_: nat)
    requires Shape(s)
  {
    var i := ChunkAt(s.chunks, s.count, address);
    && i < s.count
    && address + SizeOf(class_) <= s.chunks[i].base + s.chunks[i].size
    && address % AlignmentOf(class_) == 0
    && (s.cursor == 0 || ClearOfBump(s, address, SizeOf(class_)))
  }

  predicate Before(blocks: map<nat, nat>, a: nat, b: nat)
    requires a in blocks
  {
    a + SizeOf(blocks[a]) <= b
  }

  ghost predicate BlocksOk(s: State)
    requires Shape(s)
  {
    && s.live <= s.blocks.Keys
    && (forall a {:trigger Placed(s, a, s.blocks[a])} ::
          a in s.blocks ==> s.blocks[a] < CLASSES && Placed(s, a, s.blocks[a]))
    && (forall a, b {:trigger Before(s.blocks, a, b)} :: a in s.blocks && b in s.blocks && a < b ==> Before(s.blocks, a, b))
  }

  ghost predicate ListOk(s: State, class_: nat, list: seq<nat>)
  {
    && (forall i :: 0 <= i < |list| ==> list[i] in s.blocks && s.blocks[list[i]] == class_ && list[i] !in s.live)
    && (forall i, j :: 0 <= i < j < |list| ==> list[i] != list[j])
  }

  /** The links in memory spell the list, from `head` to a final 0. */
  ghost predicate Chained(memory: map<nat, nat>, head: nat, list: seq<nat>) {
    && head == NextOf(list, 0)
    && forall i :: 0 <= i < |list| ==> Linked(memory, list, i)
  }

  predicate Linked(memory: map<nat, nat>, list: seq<nat>, i: nat)
    requires i < |list|
  {
    list[i] in memory && memory[list[i]] == NextOf(list, i + 1)
  }

  ghost predicate ListsOk(s: State)
    requires Shape(s)
  {
    && (forall c :: 0 <= c < CLASSES ==> ListOk(s, c, s.lists[c]))
    && (forall c :: 0 <= c < CLASSES ==> Chained(s.memory, s.free[c], s.lists[c]))
    && (forall a :: a in s.blocks && a !in s.live && s.blocks[a] < CLASSES ==> a in s.lists[s.blocks[a]])
  }

  function LiveIn(live: set<nat>, chunk: Chunk): set<nat> {
    set a | a in live && InChunk(chunk, a)
  }

  ghost predicate CountsOk(s: State)
    requires Shape(s)
  {
    forall i :: 0 <= i < s.count && s.chunks[i].base != 0 ==> s.chunks[i].live == |LiveIn(s.live, s.chunks[i])|
  }

  ghost predicate Inv(s: State) {
    Shape(s) && ChunksOk(s) && BumpOk(s) && BlocksOk(s) && ListsOk(s) && CountsOk(s)
  }

  lemma ChunkAtIs(s: State, i: nat, address: nat)
    requires Shape(s) && ChunksOk(s) && i < s.count && InChunk(s.chunks[i], address)
    ensures ChunkAt(s.chunks, s.count, address) == i
  {
    var j := ChunkAt(s.chunks, s.count, address);
    assert j <= i;
    assert j < i ==> Apart(s.chunks[j].base, s.chunks[j].size, s.chunks[i].base, s.chunks[i].size);
  }

  // ---------- transitions ----------

  /** Moves the counter of the chunk at `i`, when there is one. */
  function Counted(chunks: seq<Chunk>, i: nat, count: nat, delta: int): seq<Chunk>
    requires count <= |chunks|
  {
    if i < count then chunks[i := chunks[i].(live := chunks[i].live + delta)] else chunks
  }

  /** Hands out the head of a free list. */
  function Pop(s: State, class_: nat): State
    requires class_ < |s.lists| == |s.free| && s.lists[class_] != [] && s.count <= |s.chunks|
  {
    var head, tail := s.lists[class_][0], s.lists[class_][1..];
    var i := ChunkAt(s.chunks, s.count, head);
    s.(free := s.free[class_ := NextOf(tail, 0)],
       chunks := Counted(s.chunks, i, s.count, 1),
       live := s.live + {head},
       lists := s.lists[class_ := tail])
  }

  function CarveStart(s: State, class_: nat): nat {
    AlignUp(s.cursor, AlignmentOf(class_))
  }

  predicate CanCarve(s: State, class_: nat) {
    s.cursor != 0 && CarveStart(s, class_) + SizeOf(class_) <= s.end
  }

  /** Cuts a block off the bump region. */
  function Carve(s: State, class_: nat): State
    requires s.count <= |s.chunks|
  {
    var start := CarveStart(s, class_);
    var i := ChunkAt(s.chunks, s.count, start);
    s.(cursor := start + SizeOf(class_),
       chunks := Counted(s.chunks, i, s.count, 1),
       blocks := s.blocks[start := class_],
       live := s.live + {start})
  }

  /** The first slot without a mapping, or 48. */
  function FreeSlot(chunks: seq<Chunk>, from: nat): (slot: nat)
    requires from <= |chunks|
    ensures from <= slot <= |chunks|
    ensures slot < |chunks| ==> chunks[slot].base == 0
    ensures forall i :: from <= i < slot ==> chunks[i].base != 0
    decreases |chunks| - from
  {
    if from == |chunks| || chunks[from].base == 0 then from else FreeSlot(chunks, from + 1)
  }

  predicate NothingMapped(chunks: seq<Chunk>) {
    forall i :: 0 <= i < |chunks| ==> chunks[i].base == 0
  }

  function GrowSize(chunks: seq<Chunk>, block: nat): nat {
    Max(if NothingMapped(chunks) then FIRST_CHUNK else CHUNK, AlignUp(block, PAGE))
  }

  /** What the kernel may answer: nothing, or pages no chunk uses. */
  ghost predicate Grantable(chunks: seq<Chunk>, size: nat, base: nat) {
    base == 0
    || (base % PAGE == 0
        && forall i :: 0 <= i < |chunks| && chunks[i].base != 0 ==> Apart(base, size, chunks[i].base, chunks[i].size))
  }

  /** Maps a chunk in the first free slot and carves from it next.  A refusal, or no slot left,
      is remembered. */
  function Grow(s: State, block: nat, granted: nat): State {
    var slot := FreeSlot(s.chunks, 0);
    if s.exhausted then s
    else if slot == |s.chunks| || granted == 0 then s.(exhausted := true)
    else
      var size := GrowSize(s.chunks, block);
      s.(chunks := s.chunks[slot := Chunk(granted, size, 0)],
         count := Max(s.count, slot + 1), cursor := granted, end := granted + size)
  }

  /** Whether the kernel is asked, and answers. */
  predicate GrowWorks(s: State, granted: nat) {
    !s.exhausted && FreeSlot(s.chunks, 0) < |s.chunks| && granted != 0
  }

  /** A block of a class and the state after handing it out: the latest freed one if there is one,
      else one off the bump region, else one off a new chunk.  Address 0 is a refusal. */
  function Allocated(s: State, class_: nat, granted: nat): (State, nat)
    requires class_ < |s.lists| == |s.free| && s.count <= |s.chunks|
  {
    if s.lists[class_] != [] then (Pop(s, class_), s.lists[class_][0])
    else if CanCarve(s, class_) then (Carve(s, class_), CarveStart(s, class_))
    else
      var t := Grow(s, SizeOf(class_), granted);
      if GrowWorks(s, granted) then (Carve(t, class_), CarveStart(t, class_)) else (t, 0)
  }

  /** Puts a block back at the head of its free list. */
  function Push(s: State, address: nat): State
    requires address in s.blocks && s.blocks[address] < |s.lists| == |s.free| && s.count <= |s.chunks|
  {
    var class_ := s.blocks[address];
    var i := ChunkAt(s.chunks, s.count, address);
    s.(memory := s.memory[address := s.free[class_]],
       free := s.free[class_ := address],
       chunks := Counted(s.chunks, i, s.count, -1),
       live := s.live - {address},
       lists := s.lists[class_ := [address] + s.lists[class_]])
  }

  /** A client writes one of the words of a block it holds. */
  ghost predicate Holds(s: State, block: nat, address: nat) {
    block in s.live && block in s.blocks && block <= address < block + SizeOf(s.blocks[block])
  }

  // ---------- trim ----------

  /** A mapping no live block is in. */
  predicate EmptySlot(s: State, i: nat)
    requires s.count <= |s.chunks|
  {
    i < s.count && s.chunks[i].base != 0 && s.chunks[i].live == 0
  }

  predicate AnyEmpty(s: State)
    requires s.count <= |s.chunks|
  {
    exists i :: 0 <= i < s.count && EmptySlot(s, i)
  }

  predicate InEmpty(s: State, address: nat)
    requires s.count <= |s.chunks|
  {
    exists i :: 0 <= i < s.count && EmptySlot(s, i) && InChunk(s.chunks[i], address)
  }

  /** A free list without the blocks of empty chunks, in the order it had. */
  function Survivors(s: State, list: seq<nat>): (kept: seq<nat>)
    requires s.count <= |s.chunks|
    ensures forall a :: a in kept <==> a in list && !InEmpty(s, a)
  {
    if list == [] then []
    else
      var kept := Survivors(s, list[..|list| - 1]);
      var a := list[|list| - 1];
      assert list == list[..|list| - 1] + [a];
      if InEmpty(s, a) then kept else kept + [a]
  }

  function TrimmedChunks(s: State, refused: set<nat>): seq<Chunk>
    requires s.count <= |s.chunks|
  {
    seq(|s.chunks|, i requires 0 <= i < |s.chunks| =>
      if EmptySlot(s, i) && s.chunks[i].base !in refused then s.chunks[i].(base := 0) else s.chunks[i])
  }

  predicate CursorLeaves(s: State)
    requires s.count <= |s.chunks|
  {
    exists i :: 0 <= i < s.count && EmptySlot(s, i)
                && s.chunks[i].base <= s.cursor <= s.chunks[i].base + s.chunks[i].size
  }

  /** What `trim` does when some mapping is empty and the kernel refuses to unmap `refused`: every
      list loses exactly the blocks of empty chunks, nothing points into one any more, and of the
      words in memory only links of surviving free blocks change. */
  ghost predicate Trimmed(s: State, t: State, refused: set<nat>)
    requires s.count <= |s.chunks|
  {
    && t.chunks == TrimmedChunks(s, refused)
    && t.count == s.count
    && t.cursor == (if CursorLeaves(s) then 0 else s.cursor)
    && t.end == (if CursorLeaves(s) then 0 else s.end)
    && !t.exhausted
    && t.live == s.live
    && t.blocks == LeftBlocks(s)
    && |t.lists| == |s.lists| && (forall c :: 0 <= c < |s.lists| ==> t.lists[c] == Survivors(s, s.lists[c]))
    && |t.free| == |t.lists| && (forall c :: 0 <= c < |t.lists| ==> Chained(t.memory, t.free[c], t.lists[c]))
    && t.memory.Keys == s.memory.Keys
    && (forall a :: a in s.memory && (forall c :: 0 <= c < |t.lists| ==> a !in t.lists[c]) ==> t.memory[a] == s.memory[a])
  }

  predicate Unmaps(s: State, refused: set<nat>, i: nat)
    requires s.count <= |s.chunks|
  {
    EmptySlot(s, i) && s.chunks[i].base !in refused
  }

  /** The blocks outside empty chunks. */
  ghost function LeftBlocks(s: State): map<nat, nat>
    requires s.count <= |s.chunks|
  {
    map a | a in s.blocks && !InEmpty(s, a) :: s.blocks[a]
  }

  /** How many of the first `n` mappings `trim` gives back. */
  function CountUnmapped(s: State, refused: set<nat>, n: nat): nat
    requires s.count <= |s.chunks|
  {
    if n == 0 then 0 else CountUnmapped(s, refused, n - 1) + if Unmaps(s, refused, n - 1) then 1 else 0
  }

  function CountMapped(chunks: seq<Chunk>, n: nat): nat
    requires n <= |chunks|
  {
    if n == 0 then 0 else CountMapped(chunks, n - 1) + if chunks[n - 1].base != 0 then 1 else 0
  }

  // ---------- every transition keeps the heap consistent ----------

  /** Both states see the same mappings, whatever their counters say. */
  ghost predicate SameMappings(s: State, t: State) {
    && Shape(s) && Shape(t) && s.count == t.count
    && forall i :: 0 <= i < MAX_CHUNKS ==> s.chunks[i].base == t.chunks[i].base && s.chunks[i].size == t.chunks[i].size
  }

  lemma SameChunkAt(s: State, t: State, address: nat)
    requires SameMappings(s, t)
    ensures ChunkAt(s.chunks, s.count, address) == ChunkAt(t.chunks, t.count, address)
  {
    var j, k := ChunkAt(s.chunks, s.count, address), ChunkAt(t.chunks, t.count, address);
    if j < s.count { assert InChunk(t.chunks[j], address); }
    if k < s.count { assert InChunk(s.chunks[k], address); }
  }

  lemma KeepsMappings(s: State, t: State)
    requires SameMappings(s, t) && ChunksOk(s)
    ensures ChunksOk(t)
  {
    forall i, j | 0 <= i < j < |t.chunks| && t.chunks[i].base != 0 && t.chunks[j].base != 0
      ensures Apart(t.chunks[i].base, t.chunks[i].size, t.chunks[j].base, t.chunks[j].size)
    {
      assert Apart(s.chunks[i].base, s.chunks[i].size, s.chunks[j].base, s.chunks[j].size);
    }
  }

  lemma KeepsBump(s: State, t: State)
    requires SameMappings(s, t) && BumpOk(s) && t.cursor == s.cursor && t.end == s.end
    ensures BumpOk(t)
  {
    if s.cursor != 0 {
      var b :| 0 <= b < s.count && BumpIn(s, s.chunks[b]);
      assert BumpIn(t, t.chunks[b]);
    }
  }

  lemma StaysPlaced(s: State, t: State, address: nat, class_: nat)
    requires Shape(s) && Shape(t) && Placed(s, address, class_)
    requires ChunkAt(t.chunks, t.count, address) == ChunkAt(s.chunks, s.count, address) < t.count
    requires var i := ChunkAt(s.chunks, s.count, address);
             t.chunks[i].base + t.chunks[i].size == s.chunks[i].base + s.chunks[i].size
    requires t.cursor == 0 || ClearOfBump(t, address, SizeOf(class_))
    ensures Placed(t, address, class_)
  {
  }

  lemma KeepsBlocks(s: State, t: State)
    requires SameMappings(s, t) && BlocksOk(s) && t.cursor == s.cursor && t.end == s.end
    requires t.blocks == s.blocks && t.live <= s.blocks.Keys
    ensures BlocksOk(t)
  {
    forall a | a in t.blocks
      ensures t.blocks[a] < CLASSES && Placed(t, a, t.blocks[a])
    {
      assert Placed(s, a, s.blocks[a]);
      SameChunkAt(s, t, a);
      StaysPlaced(s, t, a, s.blocks[a]);
    }
    forall a, b | a in t.blocks && b in t.blocks && a < b
      ensures Before(t.blocks, a, b)
    {
      assert Before(s.blocks, a, b);
    }
  }

  lemma CountWith(live: set<nat>, chunk: Chunk, again: Chunk, address: nat)
    requires address !in live && again.base == chunk.base && again.size == chunk.size
    ensures |LiveIn(live + {address}, again)| == |LiveIn(live, chunk)| + if InChunk(chunk, address) then 1 else 0
  {
    if InChunk(chunk, address) {
      assert LiveIn(live + {address}, again) == LiveIn(live, chunk) + {address};
    } else {
      assert LiveIn(live + {address}, again) == LiveIn(live, chunk);
    }
  }

  lemma OtherChunk(s: State, i: nat, j: nat, address: nat)
    requires Shape(s) && ChunksOk(s) && i < s.count && j < s.count && InChunk(s.chunks[i], address) && i != j
    ensures !InChunk(s.chunks[j], address)
  {
    if InChunk(s.chunks[j], address) {
      ChunkAtIs(s, i, address);
      ChunkAtIs(s, j, address);
    }
  }

  lemma CountAdded(s: State, t: State, address: nat, i: nat)
    requires Shape(s) && ChunksOk(s) && CountsOk(s) && SameMappings(s, t)
    requires address !in s.live && t.live == s.live + {address}
    requires i < s.count && InChunk(s.chunks[i], address)
    requires t.chunks == Counted(s.chunks, i, s.count, 1)
    ensures CountsOk(t)
  {
    forall j | 0 <= j < t.count && t.chunks[j].base != 0
      ensures t.chunks[j].live == |LiveIn(t.live, t.chunks[j])|
    {
      CountWith(s.live, s.chunks[j], t.chunks[j], address);
      if j != i { OtherChunk(s, i, j, address); }
    }
  }

  lemma CountRemoved(s: State, t: State, address: nat, i: nat)
    requires Shape(s) && ChunksOk(s) && CountsOk(s) && SameMappings(s, t)
    requires address in s.live && t.live == s.live - {address}
    requires i < s.count && InChunk(s.chunks[i], address) && s.chunks[i].live > 0
    requires t.chunks == Counted(s.chunks, i, s.count, -1)
    ensures CountsOk(t)
  {
    assert t.live + {address} == s.live;
    forall j | 0 <= j < t.count && t.chunks[j].base != 0
      ensures t.chunks[j].live == |LiveIn(t.live, t.chunks[j])|
    {
      CountWith(t.live, t.chunks[j], s.chunks[j], address);
      if j != i { OtherChunk(s, i, j, address); }
    }
  }

  lemma PopKeepsLists(s: State, class_: nat)
    requires Shape(s) && ListsOk(s) && class_ < CLASSES && s.lists[class_] != []
    requires ChunkAt(s.chunks, s.count, s.lists[class_][0]) < s.count
    ensures Shape(Pop(s, class_)) && ListsOk(Pop(s, class_))
  {
    var t := Pop(s, class_);
    var head := s.lists[class_][0];
    assert ListOk(s, class_, s.lists[class_]) && Chained(s.memory, s.free[class_], s.lists[class_]);
    forall c | 0 <= c < CLASSES
      ensures ListOk(t, c, t.lists[c]) && Chained(t.memory, t.free[c], t.lists[c])
    {
      assert ListOk(s, c, s.lists[c]) && Chained(s.memory, s.free[c], s.lists[c]);
      forall i | 0 <= i < |t.lists[c]| ensures Linked(t.memory, t.lists[c], i) {
        assert Linked(s.memory, s.lists[c], if c == class_ then i + 1 else i);
      }
    }
    forall a | a in t.blocks && a !in t.live && t.blocks[a] < CLASSES
      ensures a in t.lists[t.blocks[a]]
    {
      assert a in s.lists[s.blocks[a]];
    }
  }

  lemma PopKeeps(s: State, class_: nat)
    requires Inv(s) && class_ < CLASSES && s.lists[class_] != []
    ensures ChunkAt(s.chunks, s.count, s.lists[class_][0]) < s.count
    ensures Inv(Pop(s, class_))
  {
    var head := s.lists[class_][0];
    assert head in s.blocks && head !in s.live by { assert ListOk(s, class_, s.lists[class_]); }
    assert Placed(s, head, s.blocks[head]);
    var i := ChunkAt(s.chunks, s.count, head);
    var t := Pop(s, class_);
    PopKeepsLists(s, class_);
    KeepsMappings(s, t);
    KeepsBump(s, t);
    KeepsBlocks(s, t);
    CountAdded(s, t, head, i);
  }

  /** Where the next block would be cut: inside a mapped chunk, on its boundary, where none is. */
  lemma CarveSpot(s: State, class_: nat) returns (i: nat)
    requires Inv(s) && class_ < CLASSES && CanCarve(s, class_)
    ensures i < s.count && BumpIn(s, s.chunks[i]) && InChunk(s.chunks[i], CarveStart(s, class_))
    ensures ChunkAt(s.chunks, s.count, CarveStart(s, class_)) == i
    ensures CarveStart(s, class_) !in s.blocks
    ensures s.cursor <= CarveStart(s, class_) && CarveStart(s, class_) % AlignmentOf(class_) == 0
  {
    var start := CarveStart(s, class_);
    AlignUpBounds(s.cursor, AlignmentOf(class_));
    i :| 0 <= i < s.count && BumpIn(s, s.chunks[i]);
    ChunkAtIs(s, i, start);
    assert start in s.blocks ==> Placed(s, start, s.blocks[start]);
  }

  lemma CarveKeepsBlocks(s: State, class_: nat, i: nat)
    requires Shape(s) && BlocksOk(s) && class_ < CLASSES && CanCarve(s, class_)
    requires i < s.count && BumpIn(s, s.chunks[i]) && ChunkAt(s.chunks, s.count, CarveStart(s, class_)) == i
    requires s.cursor <= CarveStart(s, class_) && CarveStart(s, class_) % AlignmentOf(class_) == 0
    requires CarveStart(s, class_) !in s.blocks
    ensures Shape(Carve(s, class_)) && BlocksOk(Carve(s, class_))
  {
    var start := CarveStart(s, class_);
    var t := Carve(s, class_);
    forall a | a in t.blocks
      ensures t.blocks[a] < CLASSES && Placed(t, a, t.blocks[a])
    {
      SameChunkAt(s, t, a);
      if a != start {
        assert Placed(s, a, s.blocks[a]);
        StaysPlaced(s, t, a, s.blocks[a]);
      }
    }
    CarveKeepsOrder(s, class_);
  }

  lemma CarveKeepsOrder(s: State, class_: nat)
    requires Shape(s) && BlocksOk(s) && class_ < CLASSES && CanCarve(s, class_)
    requires s.cursor <= CarveStart(s, class_) && CarveStart(s, class_) !in s.blocks
    ensures var t := Carve(s, class_); forall a, b :: a in t.blocks && b in t.blocks && a < b ==> Before(t.blocks, a, b)
  {
    hide AlignUp, SizeOf, ChunkAt, InChunk, CarveStart;
    var start, t := CarveStart(s, class_), Carve(s, class_);
    forall a, b | a in t.blocks && b in t.blocks && a < b
      ensures Before(t.blocks, a, b)
    {
      if a == start { assert Placed(s, b, s.blocks[b]); }
      else if b == start { assert Placed(s, a, s.blocks[a]); }
      else { assert Before(s.blocks, a, b); }
    }
  }

  lemma CarveKeepsLists(s: State, t: State, start: nat)
    requires Shape(s) && Shape(t) && ListsOk(s)
    requires t.lists == s.lists && t.free == s.free && t.memory == s.memory
    requires start !in s.blocks && t.blocks.Keys == s.blocks.Keys + {start} && t.live == s.live + {start}
    requires forall a :: a in s.blocks ==> t.blocks[a] == s.blocks[a]
    ensures ListsOk(t)
  {
    forall c | 0 <= c < CLASSES
      ensures ListOk(t, c, t.lists[c]) && Chained(t.memory, t.free[c], t.lists[c])
    {
      assert ListOk(s, c, s.lists[c]) && Chained(s.memory, s.free[c], s.lists[c]);
    }
  }

  lemma CarveKeeps(s: State, class_: nat)
    requires Inv(s) && class_ < CLASSES && CanCarve(s, class_)
    ensures ChunkAt(s.chunks, s.count, CarveStart(s, class_)) < s.count
    ensures CarveStart(s, class_) !in s.blocks
    ensures Inv(Carve(s, class_))
  {
    var i := CarveSpot(s, class_);
    var t := Carve(s, class_);
    CarveKeepsBlocks(s, class_, i);
    KeepsMappings(s, t);
    assert BumpOk(t) by { assert BumpIn(t, t.chunks[i]); }
    CarveKeepsLists(s, t, CarveStart(s, class_));
    CountAdded(s, t, CarveStart(s, class_), i);
  }

  lemma GrowKeeps(s: State, block: nat, granted: nat)
    requires Inv(s) && Grantable(s.chunks, GrowSize(s.chunks, block), granted)
    ensures Inv(Grow(s, block, granted))
  {
    var slot := FreeSlot(s.chunks, 0);
    var t := Grow(s, block, granted);
    if s.exhausted || slot == |s.chunks| || granted == 0 {
      assert t == s || t == s.(exhausted := true);
      KeepsBump(s, t);
      KeepsBlocks(s, t);
    } else {
      MapKeeps(s, block, granted);
    }
  }

  lemma NewChunkIsElsewhere(s: State, block: nat, granted: nat, address: nat)
    requires Shape(s) && Grantable(s.chunks, GrowSize(s.chunks, block), granted) && granted != 0
    requires ChunkAt(s.chunks, s.count, address) < s.count
    ensures !InChunk(Chunk(granted, GrowSize(s.chunks, block), 0), address)
    ensures var i := ChunkAt(s.chunks, s.count, address);
            Apart(granted, GrowSize(s.chunks, block), s.chunks[i].base, s.chunks[i].size)
  {
    var i := ChunkAt(s.chunks, s.count, address);
    assert s.chunks[i].base != 0;
  }

  lemma MapKeepsChunks(s: State, block: nat, granted: nat)
    requires Shape(s) && ChunksOk(s) && Grantable(s.chunks, GrowSize(s.chunks, block), granted)
    requires !s.exhausted && FreeSlot(s.chunks, 0) < |s.chunks| && granted != 0
    ensures Shape(Grow(s, block, granted)) && ChunksOk(Grow(s, block, granted))
  {
    var slot, size := FreeSlot(s.chunks, 0), GrowSize(s.chunks, block);
    var t := Grow(s, block, granted);
    forall i, j | 0 <= i < j < |t.chunks| && t.chunks[i].base != 0 && t.chunks[j].base != 0
      ensures Apart(t.chunks[i].base, t.chunks[i].size, t.chunks[j].base, t.chunks[j].size)
    {
      if i == slot { assert Apart(granted, size, s.chunks[j].base, s.chunks[j].size); }
      else if j == slot { assert Apart(granted, size, s.chunks[i].base, s.chunks[i].size); }
    }
  }

  lemma MapKeepsBlocks(s: State, block: nat, granted: nat)
    requires Inv(s) && Grantable(s.chunks, GrowSize(s.chunks, block), granted)
    requires !s.exhausted && FreeSlot(s.chunks, 0) < |s.chunks| && granted != 0
    requires Shape(Grow(s, block, granted)) && ChunksOk(Grow(s, block, granted))
    ensures BlocksOk(Grow(s, block, granted))
  {
    var t := Grow(s, block, granted);
    forall a | a in t.blocks
      ensures t.blocks[a] < CLASSES && Placed(t, a, t.blocks[a])
    {
      assert Placed(s, a, s.blocks[a]);
      NewChunkIsElsewhere(s, block, granted, a);
      var i := ChunkAt(s.chunks, s.count, a);
      ChunkAtIs(t, i, a);
      StaysPlaced(s, t, a, s.blocks[a]);
    }
    forall a, b | a in t.blocks && b in t.blocks && a < b
      ensures Before(t.blocks, a, b)
    {
      assert Before(s.blocks, a, b);
    }
  }

  lemma MapKeeps(s: State, block: nat, granted: nat)
    requires Inv(s) && Grantable(s.chunks, GrowSize(s.chunks, block), granted)
    requires !s.exhausted && FreeSlot(s.chunks, 0) < |s.chunks| && granted != 0
    ensures Inv(Grow(s, block, granted))
  {
    var slot := FreeSlot(s.chunks, 0);
    var t := Grow(s, block, granted);
    MapKeepsChunks(s, block, granted);
    MapKeepsBlocks(s, block, granted);
    assert BumpOk(t) by { assert BumpIn(t, t.chunks[slot]); }
    forall i | 0 <= i < t.count && t.chunks[i].base != 0
      ensures t.chunks[i].live == |LiveIn(t.live, t.chunks[i])|
    {
      if i == slot {
        forall a | a in t.live
          ensures !InChunk(t.chunks[slot], a)
        {
          assert Placed(s, a, s.blocks[a]);
          NewChunkIsElsewhere(s, block, granted, a);
        }
        assert LiveIn(t.live, t.chunks[i]) == {};
      }
    }
  }

  lemma PushKeepsList(s: State, address: nat, c: nat)
    requires Shape(s) && ListsOk(s) && s.live <= s.blocks.Keys && address in s.live && s.blocks[address] < CLASSES && c < CLASSES
    requires ChunkAt(s.chunks, s.count, address) < s.count
    requires s.chunks[ChunkAt(s.chunks, s.count, address)].live > 0
    ensures var t := Push(s, address); |t.lists| == |t.free| == CLASSES && ListOk(t, c, t.lists[c]) && Chained(t.memory, t.free[c], t.lists[c])
  {
    hide ChunkAt, InChunk;
    var t := Push(s, address);
    assert ListOk(s, c, s.lists[c]) && Chained(s.memory, s.free[c], s.lists[c]);
    forall i | 0 <= i < |t.lists[c]|
      ensures Linked(t.memory, t.lists[c], i)
    {
      if c != s.blocks[address] {
        assert Linked(s.memory, s.lists[c], i);
      } else if i > 0 {
        assert Linked(s.memory, s.lists[c], i - 1);
      }
    }
  }

  lemma PushKeepsLists(s: State, address: nat)
    requires Shape(s) && ListsOk(s) && s.live <= s.blocks.Keys && address in s.live && s.blocks[address] < CLASSES
    requires ChunkAt(s.chunks, s.count, address) < s.count
    requires s.chunks[ChunkAt(s.chunks, s.count, address)].live > 0
    ensures Shape(Push(s, address)) && ListsOk(Push(s, address))
  {
    hide ChunkAt, InChunk, ListOk, Chained;
    var t := Push(s, address);
    forall c | 0 <= c < CLASSES
      ensures ListOk(t, c, t.lists[c]) && Chained(t.memory, t.free[c], t.lists[c])
    {
      PushKeepsList(s, address, c);
    }
    forall a | a in t.blocks && a !in t.live && t.blocks[a] < CLASSES
      ensures a in t.lists[t.blocks[a]]
    {
      if a != address { assert a in s.lists[s.blocks[a]]; }
    }
  }

  lemma IsCounted(s: State, address: nat)
    requires Inv(s) && address in s.live
    ensures s.blocks[address] < CLASSES && Placed(s, address, s.blocks[address])
    ensures var i := ChunkAt(s.chunks, s.count, address); i < s.count && s.chunks[i].live > 0
  {
    hide ListsOk, BumpOk;
    assert Placed(s, address, s.blocks[address]);
    var i := ChunkAt(s.chunks, s.count, address);
    assert LiveIn(s.live, s.chunks[i]) >= {address};
  }

  lemma PushKeeps(s: State, address: nat)
    requires Inv(s) && address in s.live
    ensures s.blocks[address] < CLASSES
    ensures ChunkAt(s.chunks, s.count, address) < s.count
    ensures s.chunks[ChunkAt(s.chunks, s.count, address)].live > 0
    ensures Inv(Push(s, address))
  {
    hide ListsOk, Placed, Before;
    IsCounted(s, address);
    var t := Push(s, address);
    PushKeepsLists(s, address);
    KeepsMappings(s, t);
    KeepsBump(s, t);
    KeepsBlocks(s, t);
    CountRemoved(s, t, address, ChunkAt(s.chunks, s.count, address));
  }

  /** Whatever a client writes into blocks it holds, the links of the free lists are elsewhere. */
  lemma WriteKeeps(s: State, block: nat, address: nat, word: nat)
    requires Inv(s) && Holds(s, block, address)
    ensures Inv(s.(memory := s.memory[address := word]))
  {
    var t := s.(memory := s.memory[address := word]);
    KeepsBump(s, t);
    KeepsBlocks(s, t);
    assert address in s.blocks && block < address ==> Before(s.blocks, block, address);
    forall c | 0 <= c < CLASSES
      ensures ListOk(t, c, t.lists[c]) && Chained(t.memory, t.free[c], t.lists[c])
    {
      assert ListOk(s, c, s.lists[c]) && Chained(s.memory, s.free[c], s.lists[c]);
      forall i | 0 <= i < |t.lists[c]|
        ensures Linked(t.memory, t.lists[c], i)
      {
        assert Linked(s.memory, s.lists[c], i);
      }
    }
  }

  lemma SurvivorsDistinct(s: State, list: seq<nat>)
    requires s.count <= |s.chunks|
    requires forall i, j :: 0 <= i < j < |list| ==> list[i] != list[j]
    ensures var kept := Survivors(s, list); forall i, j :: 0 <= i < j < |kept| ==> kept[i] != kept[j]
  {
    if list != [] {
      SurvivorsDistinct(s, list[..|list| - 1]);
    }
  }

  /** Nothing handed out is in a chunk `trim` may unmap. */
  lemma LiveIsNotInEmpty(s: State, address: nat)
    requires Inv(s) && address in s.live
    ensures !InEmpty(s, address)
  {
    forall i | 0 <= i < s.count && EmptySlot(s, i)
      ensures !InChunk(s.chunks[i], address)
    {
      var held := LiveIn(s.live, s.chunks[i]);
      assert held == {};
      assert InChunk(s.chunks[i], address) ==> address in held;
    }
  }

  lemma TrimKeepsChunks(s: State, t: State, refused: set<nat>)
    requires Inv(s) && Trimmed(s, t, refused)
    ensures Shape(t) && ChunksOk(t) && BumpOk(t) && CountsOk(t)
  {
    assert ChunksOk(t) by {
      forall i, j | 0 <= i < j < |t.chunks| && t.chunks[i].base != 0 && t.chunks[j].base != 0
        ensures Apart(t.chunks[i].base, t.chunks[i].size, t.chunks[j].base, t.chunks[j].size)
      {
        assert Apart(s.chunks[i].base, s.chunks[i].size, s.chunks[j].base, s.chunks[j].size);
      }
    }
    assert BumpOk(t) by {
      if t.cursor != 0 {
        var b :| 0 <= b < s.count && BumpIn(s, s.chunks[b]);
        assert !EmptySlot(s, b);
        assert BumpIn(t, t.chunks[b]);
      }
    }
  }

  lemma TrimKeepsBlocks(s: State, t: State, refused: set<nat>)
    requires Inv(s) && Trimmed(s, t, refused) && Shape(t) && ChunksOk(t)
    ensures BlocksOk(t)
  {
    forall a | a in t.live
      ensures a in t.blocks
    {
      LiveIsNotInEmpty(s, a);
    }
    forall a | a in t.blocks
      ensures t.blocks[a] < CLASSES && Placed(t, a, t.blocks[a])
    {
      assert Placed(s, a, s.blocks[a]);
      var i := ChunkAt(s.chunks, s.count, a);
      assert !EmptySlot(s, i);
      ChunkAtIs(t, i, a);
      StaysPlaced(s, t, a, s.blocks[a]);
    }
    forall a, b | a in t.blocks && b in t.blocks && a < b
      ensures Before(t.blocks, a, b)
    {
      assert Before(s.blocks, a, b);
    }
  }

  lemma TrimKeepsLists(s: State, t: State, refused: set<nat>)
    requires Inv(s) && Trimmed(s, t, refused) && Shape(t)
    ensures ListsOk(t)
  {
    forall c | 0 <= c < CLASSES
      ensures ListOk(t, c, t.lists[c])
    {
      assert ListOk(s, c, s.lists[c]);
      SurvivorsDistinct(s, s.lists[c]);
      forall i | 0 <= i < |t.lists[c]|
        ensures t.lists[c][i] in t.blocks && t.blocks[t.lists[c][i]] == c && t.lists[c][i] !in t.live
      {
        assert t.lists[c][i] in Survivors(s, s.lists[c]);
      }
    }
  }

  lemma TrimKeeps(s: State, t: State, refused: set<nat>)
    requires Inv(s) && Trimmed(s, t, refused)
    ensures Inv(t)
  {
    TrimKeepsChunks(s, t, refused);
    TrimKeepsBlocks(s, t, refused);
    TrimKeepsLists(s, t, refused);
  }

  /** After growing, the next block starts at the very start of the new chunk and fits in it. */
  lemma GrownFits(s: State, class_: nat, granted: nat)
    requires Inv(s) && class_ < CLASSES && GrowWorks(s, granted)
    requires Grantable(s.chunks, GrowSize(s.chunks, SizeOf(class_)), granted)
    ensures var t := Grow(s, SizeOf(class_), granted);
            Inv(t) && CanCarve(t, class_) && CarveStart(t, class_) == granted
  {
    GrowKeeps(s, SizeOf(class_), granted);
    AlignUpBounds(SizeOf(class_), PAGE);
    PageAlignsEveryClass(class_, granted);
    AlignUpFixed(granted, AlignmentOf(class_));
  }

  lemma AlignUpFixed(value: nat, alignment: nat)
    requires alignment > 0 && value % alignment == 0
    ensures AlignUp(value, alignment) == value
  {
    AlignUpBounds(value, alignment);
    var up := AlignUp(value, alignment);
    assert value == (value / alignment) * alignment;
    assert up == (up / alignment) * alignment;
    assert up - value == (up / alignment - value / alignment) * alignment;
    ScaleBounds(up / alignment - value / alignment, alignment);
  }

  /** What a caller gets: a block of its class, inside a mapping and on its boundary, that no block
      in use overlaps, with no word of memory touched; or nothing, and then nothing has changed
      but the note that the kernel refused. */
  lemma AllocateGives(s: State, class_: nat, granted: nat)
    requires Inv(s) && class_ < CLASSES
    requires Grantable(s.chunks, GrowSize(s.chunks, SizeOf(class_)), granted)
    ensures var (t, p) := Allocated(s, class_, granted);
            && Inv(t)
            && t.memory == s.memory
            && (p == 0 ==> t == s || t == s.(exhausted := true))
            && (p != 0 ==>
                  && p !in s.live && t.live == s.live + {p}
                  && p in t.blocks && t.blocks[p] == class_ && Placed(t, p, class_)
                  && forall b :: b in s.live && b in s.blocks ==> Apart(p, SizeOf(class_), b, SizeOf(s.blocks[b])))
  {
    hide Inv, Pop, Carve, CanCarve, CarveStart, Placed, Apart, Grantable, GrowSize;
    ListsThere(s);
    if s.lists[class_] != [] {
      PopGives(s, class_);
    } else if CanCarve(s, class_) {
      CarveGives(s, class_);
    } else if GrowWorks(s, granted) {
      GrownFits(s, class_, granted);
      CarveGives(Grow(s, SizeOf(class_), granted), class_);
    } else {
      GrowKeeps(s, SizeOf(class_), granted);
    }
  }

  lemma ListsThere(s: State)
    requires Inv(s)
    ensures |s.lists| == |s.free| == CLASSES && s.count <= |s.chunks|
    ensures forall c :: 0 <= c < CLASSES && s.lists[c] != [] ==> s.lists[c][0] != 0
  {
    forall c | 0 <= c < CLASSES && s.lists[c] != []
      ensures s.lists[c][0] != 0
    {
      NoZeroInList(s, c);
      assert ListOk(s, c, s.lists[c]);
    }
  }

  /** The block handed out is of its class, in its place and apart from all in use. */
  ghost predicate Gives(s: State, t: State, p: nat, class_: nat)
    requires class_ < CLASSES
  {
    && Inv(t) && t.memory == s.memory && p !in s.live && t.live == s.live + {p}
    && p in t.blocks && t.blocks[p] == class_ && Placed(t, p, class_)
    && forall b :: b in s.live && b in s.blocks ==> Apart(p, SizeOf(class_), b, SizeOf(s.blocks[b]))
  }

  lemma PopGives(s: State, class_: nat)
    requires Inv(s) && class_ < CLASSES && s.lists[class_] != []
    ensures Gives(s, Pop(s, class_), s.lists[class_][0], class_)
  {
    hide Placed, Apart;
    PopKeeps(s, class_);
    assert ListOk(s, class_, s.lists[class_]);
    GivesApart(s, Pop(s, class_), s.lists[class_][0]);
  }

  lemma CarveGives(s: State, class_: nat)
    requires Inv(s) && class_ < CLASSES && CanCarve(s, class_)
    ensures Gives(s, Carve(s, class_), CarveStart(s, class_), class_) && CarveStart(s, class_) != 0
  {
    hide Placed, Apart, AlignUp, SizeOf;
    var p := CarveStart(s, class_);
    CarveKeeps(s, class_);
    OnlyInUse(s);
    GivesApart(s, Carve(s, class_), p);
    AlignUpBounds(s.cursor, AlignmentOf(class_));
  }

  lemma OnlyInUse(s: State)
    requires Inv(s)
    ensures s.live <= s.blocks.Keys
  {
  }

  lemma GivesApart(s: State, t: State, p: nat)
    requires Inv(s) && Inv(t) && p in t.blocks && p !in s.live
    requires forall b :: b in s.blocks ==> b in t.blocks && t.blocks[b] == s.blocks[b]
    ensures Placed(t, p, t.blocks[p])
    ensures forall b :: b in s.live && b in s.blocks ==> Apart(p, SizeOf(t.blocks[p]), b, SizeOf(s.blocks[b]))
  {
    assert t.blocks[p] < CLASSES && Placed(t, p, t.blocks[p]);
    forall b | b in s.live && b in s.blocks
      ensures Apart(p, SizeOf(t.blocks[p]), b, SizeOf(s.blocks[b]))
    {
      assert b < p ==> Before(t.blocks, b, p);
      assert p < b ==> Before(t.blocks, p, b);
    }
  }

  // ---------- whole runs ----------

  datatype Op =
    | Alloc(class_: nat, granted: nat)
    | Free(address: nat)
    | Write(block: nat, address: nat, word: nat)
    | Trim(refused: set<nat>)

  /** One call on a heap: the kernel's answers are whatever it may give, frees and writes are of
      blocks the caller holds. */
  ghost predicate Step(s: State, op: Op, t: State)
    requires Inv(s)
  {
    match op
    case Alloc(class_, granted) =>
      class_ < CLASSES && Grantable(s.chunks, GrowSize(s.chunks, SizeOf(class_)), granted) &&
      t == Allocated(s, class_, granted).0
    case Free(address) => address in s.live && s.blocks[address] < CLASSES && t == Push(s, address)
    case Write(block, address, word) => Holds(s, block, address) && t == s.(memory := s.memory[address := word])
    case Trim(refused) =>
      if AnyEmpty(s) then Trimmed(s, t, refused) else t == s
  }

  /** A heap that has mapped nothing. */
  ghost predicate Initial(s: State) {
    && |s.free| == |s.lists| == CLASSES && |s.chunks| == MAX_CHUNKS
    && (forall c :: 0 <= c < CLASSES ==> s.free[c] == 0 && s.lists[c] == [])
    && (forall i :: 0 <= i < MAX_CHUNKS ==> s.chunks[i].base == 0)
    && s.count == s.cursor == s.end == 0 && s.blocks == map[] && s.live == {}
  }

  lemma InitialOk(s: State)
    requires Initial(s)
    ensures Inv(s)
  {
  }

  lemma StepKeeps(s: State, op: Op, t: State)
    requires Inv(s) && Step(s, op, t)
    ensures Inv(t)
  {
    match op
    case Alloc(class_, granted) => AllocateGives(s, class_, granted);
    case Free(address) => PushKeeps(s, address);
    case Write(block, address, word) => WriteKeeps(s, block, address, word);
    case Trim(refused) =>
      if AnyEmpty(s) {
        TrimKeeps(s, t, refused);
      }
  }

  ghost predicate Run(states: seq<State>, ops: seq<Op>)
  {
    && |states| == |ops| + 1
    && Initial(states[0])
    && forall i :: 0 <= i < |ops| ==> Inv(states[i]) ==> Step(states[i], ops[i], states[i + 1])
  }

  /** Every state of every run is consistent, whatever the kernel answers and clients write. */
  lemma {:induction false} RunsAreSafe(states: seq<State>, ops: seq<Op>, n: nat)
    requires Run(states, ops) && n <= |ops|
    ensures Inv(states[n])
  {
    if n == 0 {
      InitialOk(states[0]);
    } else {
      RunsAreSafe(states, ops, n - 1);
      StepKeeps(states[n - 1], ops[n - 1], states[n]);
    }
  }

  /** No block starts at address 0, so a list whose head is 0 is empty. */
  lemma NoZeroBlock(s: State, class_: nat)
    requires Inv(s) && class_ < CLASSES
    ensures s.free[class_] == 0 <==> s.lists[class_] == []
  {
    assert ListOk(s, class_, s.lists[class_]) && Chained(s.memory, s.free[class_], s.lists[class_]);
    if s.lists[class_] != [] {
      var a := s.lists[class_][0];
      assert Placed(s, a, s.blocks[a]);
    }
  }

  // ---------- trim, step by step ----------

  /** Some empty chunk among the first `n` is next to the bump region. */
  predicate CursorLeft(s: State, n: nat)
    requires n <= s.count <= |s.chunks|
  {
    exists i :: 0 <= i < n && EmptySlot(s, i) && s.chunks[i].base <= s.cursor <= s.chunks[i].base + s.chunks[i].size
  }

  lemma CursorLeftMore(s: State, n: nat)
    requires n < s.count <= |s.chunks|
    ensures CursorLeft(s, n + 1) <==>
              CursorLeft(s, n) || (EmptySlot(s, n) && s.chunks[n].base <= s.cursor <= s.chunks[n].base + s.chunks[n].size)
  {
  }

  lemma NothingUnmapped(s: State, refused: set<nat>, n: nat)
    requires n <= s.count <= |s.chunks| && !AnyEmpty(s)
    ensures CountUnmapped(s, refused, n) == 0
  {
    if n > 0 {
      NothingUnmapped(s, refused, n - 1);
      assert !EmptySlot(s, n - 1);
    }
  }

  /** The free lists of the classes below `n` have lost the blocks of empty chunks; nothing else
      has changed yet. */
  ghost predicate Unlinked(s: State, t: State, n: nat)
    requires s.count <= |s.chunks|
  {
    && t.(lists := s.lists, free := s.free, memory := s.memory) == s
    && |t.lists| == |t.free| == |s.lists| == CLASSES && n <= CLASSES
    && (forall c :: 0 <= c < n ==> t.lists[c] == Survivors(s, s.lists[c]))
    && (forall c :: n <= c < CLASSES ==> t.lists[c] == s.lists[c])
    && (forall c :: 0 <= c < CLASSES ==> Chained(t.memory, t.free[c], t.lists[c]))
    && t.memory.Keys == s.memory.Keys
    && (forall a :: a in s.memory && (forall c :: 0 <= c < n ==> a !in t.lists[c]) ==> t.memory[a] == s.memory[a])
  }

  /** Walking a list with `k` nodes visited, those in `kept` still linked to each other and then to
      the rest. */
  ghost predicate Walked(memory: map<nat, nat>, head: nat, list: seq<nat>, kept: seq<nat>, k: nat) {
    && k <= |list|
    && (if kept == [] then head == NextOf(list, k)
        else head == kept[0] && kept[|kept| - 1] in memory && memory[kept[|kept| - 1]] == NextOf(list, k))
    && (forall i :: 0 <= i < |kept| - 1 ==> Linked(memory, kept, i))
    && (forall i :: k <= i < |list| ==> Linked(memory, list, i))
  }

  ghost predicate Distinct(list: seq<nat>) {
    forall i, j :: 0 <= i < j < |list| ==> list[i] != list[j]
  }

  /** The state of the walk that drops the blocks of empty chunks from `list`. */
  ghost predicate Walking(s: State, memory: map<nat, nat>, head: nat, list: seq<nat>, k: nat, current: nat, previous: nat)
    requires s.count <= |s.chunks|
  {
    && k <= |list| && Distinct(list) && 0 !in list
    && (var kept := Survivors(s, list[..k]);
        && Walked(memory, head, list, kept, k)
        && current == NextOf(list, k)
        && previous == if kept == [] then 0 else kept[|kept| - 1])
  }

  ghost predicate OnlyLinksChanged(memory: map<nat, nat>, memory': map<nat, nat>, kept: seq<nat>) {
    && memory.Keys == memory'.Keys
    && forall a :: a in memory && a !in kept ==> memory'[a] == memory[a]
  }

  lemma NothingRelinked(memory: map<nat, nat>, kept: seq<nat>)
    ensures OnlyLinksChanged(memory, memory, kept)
  {
  }

  lemma WalkStarts(s: State, memory: map<nat, nat>, head: nat, class_: nat)
    requires Inv(s) && class_ < CLASSES && Chained(memory, head, s.lists[class_])
    ensures Walking(s, memory, head, s.lists[class_], 0, head, 0)
  {
    NoZeroInList(s, class_);
    assert ListOk(s, class_, s.lists[class_]);
  }

  lemma WalkReads(s: State, memory: map<nat, nat>, head: nat, list: seq<nat>, k: nat, current: nat, previous: nat)
    requires s.count <= |s.chunks| && current != 0 && Walking(s, memory, head, list, k, current, previous)
    ensures k < |list| && current == list[k] && current in memory && memory[current] == NextOf(list, k + 1)
    ensures previous != 0 ==> previous in memory
  {
    assert Linked(memory, list, k);
  }

  lemma WalkSteps(s: State, memory0: map<nat, nat>, memory: map<nat, nat>, head: nat, list: seq<nat>, k: nat, current: nat,
                  previous: nat, memory': map<nat, nat>, head': nat, next: nat, previous': nat)
    requires s.count <= |s.chunks| && current != 0 && Walking(s, memory, head, list, k, current, previous)
    requires k < |list| && current == list[k] && next == NextOf(list, k + 1)
    requires OnlyLinksChanged(memory0, memory, Survivors(s, list[..k]))
    requires if InEmpty(s, current) then
               previous' == previous &&
               if previous == 0 then memory' == memory && head' == next
               else memory' == memory[previous := next] && head' == head
             else previous' == current && memory' == memory && head' == head
    ensures Walking(s, memory', head', list, k + 1, next, previous')
    ensures OnlyLinksChanged(memory0, memory', Survivors(s, list[..k + 1]))
  {
    hide InEmpty, Survivors;
    var kept := Survivors(s, list[..k]);
    SurvivorsSplit(s, list, k);
    if kept != [] {
      assert previous in kept && previous in list[..k];
    }
    if InEmpty(s, current) {
      assert Survivors(s, list[..k + 1]) == kept;
      WalkDrops(memory, head, list, kept, k, memory', head');
    } else {
      WalkKeeps(memory, head, list, kept, k);
    }
  }

  lemma WalkEnds(s: State, memory: map<nat, nat>, head: nat, list: seq<nat>, k: nat, previous: nat)
    requires s.count <= |s.chunks| && Walking(s, memory, head, list, k, 0, previous)
    ensures k == |list| && list[..k] == list && Chained(memory, head, Survivors(s, list))
  {
    assert forall i :: 0 <= i < |list| ==> list[i] != 0;
    assert list[..k] == list;
    var kept := Survivors(s, list);
    forall i | 0 <= i < |kept|
      ensures Linked(memory, kept, i)
    {
    }
  }

  lemma WalkKeeps(memory: map<nat, nat>, head: nat, list: seq<nat>, kept: seq<nat>, k: nat)
    requires Walked(memory, head, list, kept, k) && k < |list|
    ensures Walked(memory, head, list, kept + [list[k]], k + 1)
  {
    assert Linked(memory, list, k);
    var longer := kept + [list[k]];
    forall i | 0 <= i < |longer| - 1
      ensures Linked(memory, longer, i)
    {
      if i < |kept| - 1 { assert Linked(memory, kept, i); }
    }
  }

  lemma WalkDrops(memory: map<nat, nat>, head: nat, list: seq<nat>, kept: seq<nat>, k: nat,
                  memory': map<nat, nat>, head': nat)
    requires Walked(memory, head, list, kept, k) && k < |list| && Distinct(list) && Distinct(kept)
    requires forall a :: a in kept ==> a in list[..k]
    requires kept == [] ==> memory' == memory && head' == NextOf(list, k + 1)
    requires kept != [] ==> memory' == memory[kept[|kept| - 1] := NextOf(list, k + 1)] && head' == head
    ensures Walked(memory', head', list, kept, k + 1)
  {
    forall i | 0 <= i < |kept| - 1
      ensures Linked(memory', kept, i)
    {
      assert Linked(memory, kept, i);
    }
    forall i | k + 1 <= i < |list|
      ensures Linked(memory', list, i)
    {
      assert Linked(memory, list, i);
      if kept != [] { assert kept[|kept| - 1] in list[..k]; }
    }
  }

  /** Words of one list are not words of another, so rewriting the first leaves the others linked. */
  lemma OtherListKept(s: State, t: State, c: nat, d: nat, memory: map<nat, nat>)
    requires Inv(s) && c < CLASSES && d < CLASSES && c != d
    requires |t.lists| == CLASSES && |t.free| == CLASSES && Chained(t.memory, t.free[d], t.lists[d])
    requires forall a :: a in t.lists[d] ==> a in s.lists[d]
    requires memory.Keys == t.memory.Keys && forall a :: a in memory && a !in s.lists[c] ==> memory[a] == t.memory[a]
    ensures Chained(memory, t.free[d], t.lists[d])
  {
    forall i | 0 <= i < |t.lists[d]|
      ensures Linked(memory, t.lists[d], i)
    {
      assert Linked(t.memory, t.lists[d], i);
      var a := t.lists[d][i];
      assert ListOk(s, d, s.lists[d]) && ListOk(s, c, s.lists[c]);
      assert a in s.lists[d] && s.blocks[a] == d;
      assert a !in s.lists[c];
    }
  }

  lemma NoZeroInList(s: State, class_: nat)
    requires Inv(s) && class_ < CLASSES
    ensures 0 !in s.lists[class_]
  {
    assert ListOk(s, class_, s.lists[class_]);
    forall a | a in s.lists[class_]
      ensures a != 0
    {
      assert Placed(s, a, s.blocks[a]);
    }
  }

  lemma SurvivorsSplit(s: State, list: seq<nat>, k: nat)
    requires s.count <= |s.chunks| && k < |list| && Distinct(list)
    ensures Survivors(s, list[..k + 1]) == Survivors(s, list[..k]) + if InEmpty(s, list[k]) then [] else [list[k]]
    ensures Distinct(Survivors(s, list[..k]))
    ensures forall a :: a in Survivors(s, list[..k]) ==> a in list[..k]
  {
    assert list[..k + 1][..k] == list[..k];
    SurvivorsDistinct(s, list[..k]);
  }

  lemma UnlinkedMore(s: State, t: State, u: State, c: nat)
    requires Inv(s) && c < CLASSES && Unlinked(s, t, c)
    requires |u.lists| == |u.free| == CLASSES
    requires u == t.(free := t.free[c := u.free[c]], memory := u.memory, lists := t.lists[c := u.lists[c]])
    requires u.lists[c] == Survivors(s, s.lists[c]) && Chained(u.memory, u.free[c], u.lists[c])
    requires u.memory.Keys == t.memory.Keys
    requires forall a :: a in u.memory && a !in u.lists[c] ==> u.memory[a] == t.memory[a]
    ensures Unlinked(s, u, c + 1)
  {
    forall d | 0 <= d < CLASSES
      ensures Chained(u.memory, u.free[d], u.lists[d])
    {
      if d != c { OtherListKept(s, t, c, d, u.memory); }
    }
  }

  lemma NothingUnlinked(s: State)
    requires Inv(s)
    ensures Unlinked(s, s, 0)
  {
  }

  lemma AllUnlinked(s: State, mid: State, t: State, refused: set<nat>)
    requires Inv(s) && Unlinked(s, mid, CLASSES)
    requires t.free == mid.free && t.lists == mid.lists && t.memory == mid.memory
    requires t.chunks == TrimmedChunks(s, refused) && t.count == s.count && !t.exhausted && t.live == s.live
    requires t.cursor == (if CursorLeaves(s) then 0 else s.cursor)
    requires t.end == (if CursorLeaves(s) then 0 else s.end)
    requires t.blocks == LeftBlocks(s)
    ensures Trimmed(s, t, refused)
  {
  }
}
