/** Laws of the heap of mem.c that relate several operations. */
module HeapTheorems {
  import opened HeapMemory
  import opened HeapBlocks
  import opened RtDef

  /** Freeing what rt_malloc just handed out restores the exact block chain. */
  lemma {:induction false} MallocThenFree(bs: seq<Block>, end: nat, i: nat, size: nat)
    requires Chain(bs, end) && i < |bs| && !bs[i].used
    ensures i < |Allocated(bs, end, i, size)| && Freed(Allocated(bs, end, i, size), i) == bs
  {
    var c := Allocated(bs, end, i, size);
    var d := SetUse(c, i, false);
    if Splits(bs, end, i, size) {
      assert d == InsertFree(bs, i + 1, bs[i].off + HEADER + size);
      assert Drop(d, i + 1) == bs;
    } else {
      assert d == bs;
    }
    assert MergeNext(d, i) == bs by {
      assert i + 1 < |bs| ==> !FreePair(bs, i);
    }
    assert i > 0 ==> !FreePair(bs, i - 1);
  }

  /** Payloads are aligned, inside the heap, disjoint from every header and from each other. */
  lemma {:induction false} PayloadsSeparate(bs: seq<Block>, end: nat, i: nat, j: nat, k: int)
    requires Chain(bs, end) && InPayload(bs, end, i, k) && j < |bs|
    ensures (bs[i].off + HEADER) % ALIGN == 0
    ensures HEADER <= k < end
    ensures k < bs[j].off || bs[j].off + HEADER <= k
    ensures InPayload(bs, end, j, k) ==> i == j
  {
    Extent(bs, end, i);
    AlignedSum(bs[i].off, 0);
    if i != j { Disjoint(bs, end, i, j); }
  }

  /** The index of the block at offset `off`, |bs| if there is none. */
  ghost function IndexOf(bs: seq<Block>, off: int): (i: nat)
    ensures i <= |bs| && (i < |bs| ==> bs[i].off == off)
    ensures i == |bs| ==> forall j :: 0 <= j < |bs| ==> bs[j].off != off
  {
    if i: nat :| i < |bs| && bs[i].off == off then i else |bs|
  }

  lemma {:induction false} IndexOfOffset(bs: seq<Block>, end: nat, i: nat)
    requires Tiled(bs, end) && i < |bs|
    ensures IndexOf(bs, bs[i].off) == i
  {
    var k := IndexOf(bs, bs[i].off);
    if k != i { Disjoint(bs, end, i, k); }
  }

  /** What rt_realloc makes of the chain when the used block at offset `o` is to hold `size` (aligned,
      non-zero) bytes, and the offset of the block that then holds the data: none when there is no room. */
  ghost function Resized(bs: seq<Block>, end: nat, o: int, size: nat): (seq<Block>, Option<int>)
    requires IndexOf(bs, o) < |bs|
  {
    var i := IndexOf(bs, o);
    var have := Payload(bs, end, i);
    if have == size then (bs, Some(o))
    else if size + HEADER + MIN_SIZE < have then (Shrunk(bs, i, size), Some(o))
    else Relocated(bs, end, o, size)
  }

  /** The moving branch: allocate elsewhere, free the old block. */
  ghost function Relocated(bs: seq<Block>, end: nat, o: int, size: nat): (seq<Block>, Option<int>) {
    var j := FirstFit(bs, end, Need(size), 0);
    if j == |bs| then (bs, None)
    else (FreedAt(Allocated(bs, end, j, Need(size)), o), Some(bs[j].off))
  }

  /** Free the block at offset `o`. */
  ghost function FreedAt(bs: seq<Block>, o: int): seq<Block> {
    var i := IndexOf(bs, o);
    if i < |bs| then Freed(bs, i) else bs
  }

  /** Handing out block `j` leaves the used block at offset `o` where it is. */
  lemma {:induction false} AllocatedKeepsOffset(bs: seq<Block>, end: nat, o: int, j: nat, size: nat)
    requires Chain(bs, end) && IndexOf(bs, o) < |bs| && bs[IndexOf(bs, o)].used && j < |bs| && !bs[j].used
    requires size % ALIGN == 0 && Payload(bs, end, j) >= size
    ensures var c := Allocated(bs, end, j, size);
            var k := IndexOf(c, o);
            k < |c| && c[k].used && Payload(c, end, k) == Payload(bs, end, IndexOf(bs, o))
  {
    var k := AllocatedKeepsBlock(bs, end, j, size, IndexOf(bs, o));
    AllocatedKeepsChain(bs, end, j, size);
    IndexOfOffset(Allocated(bs, end, j, size), end, k);
  }

  /** Free the live blocks at the given offsets, in that order. */
  ghost function FreeRun(bs: seq<Block>, offs: seq<nat>): seq<Block>
    decreases offs
  {
    if offs == [] then bs
    else
      var i := IndexOf(bs, offs[0]);
      if i < |bs| && bs[i].used then FreeRun(Freed(bs, i), offs[1..]) else FreeRun(bs, offs[1..])
  }

  ghost predicate NoDuplicates(s: seq<nat>) {
    forall i, j :: 0 <= i < j < |s| ==> s[i] != s[j]
  }

  /** A chain without a used block is one free block spanning the heap. */
  lemma {:induction false} AllFreeIsOneBlock(bs: seq<Block>, end: nat)
    requires Chain(bs, end) && UsedOffsets(bs) == {}
    ensures bs == [Block(0, false)]
  {
    assert |bs| > 1 ==> !FreePair(bs, 0);
    assert forall b :: b in bs && b.used ==> b.off in UsedOffsets(bs);
    assert forall i :: 0 <= i < |bs| ==> !bs[i].used;
  }

  /** Freeing all live blocks, in any order, collapses the heap to one free block,
      with the lowest-free pointer at its start and nothing counted as used. */
  lemma {:induction false} FreeAllCollapses(bs: seq<Block>, end: nat, offs: seq<nat>)
    requires Chain(bs, end) && NoDuplicates(offs)
    requires UsedOffsets(bs) == set o | o in offs
    ensures FreeRun(bs, offs) == [Block(0, false)]
    ensures LowestFree(FreeRun(bs, offs), end) == 0 && UsedBytes(FreeRun(bs, offs), end) == 0
    decreases offs
  {
    if offs == [] {
      AllFreeIsOneBlock(bs, end);
    } else {
      var o := offs[0];
      assert o in UsedOffsets(bs);
      var b :| b in bs && b.used && b.off == o;
      var i :| 0 <= i < |bs| && bs[i] == b;
      IndexOfOffset(bs, end, i);
      FreedKeepsChain(bs, end, i);
      assert (set p | p in offs[1..]) == UsedOffsets(Freed(bs, i));
      FreeAllCollapses(Freed(bs, i), end, offs[1..]);
    }
  }

  lemma {:induction false} MallocThenFreeAt(bs: seq<Block>, end: nat, i: nat, size: nat, o: int)
    requires Chain(bs, end) && i < |bs| && !bs[i].used && o == bs[i].off
    requires size % ALIGN == 0 && Payload(bs, end, i) >= size
    ensures FreedAt(Allocated(bs, end, i, size), o) == bs
  {
    MallocThenFree(bs, end, i, size);
    AllocatedKeepsChain(bs, end, i, size);
    IndexOfOffset(Allocated(bs, end, i, size), end, i);
  }

  /** What rt_realloc does with the used block at offset `o` when `size` bytes are asked for: a block of that size is
      left alone, a block larger by more than a header and a minimal payload (12 bytes each) is cut in place to
      exactly that size; any other one is given up for the first block that fits, elsewhere, or kept if none fits. */
  lemma {:induction false} ResizedExactly(bs: seq<Block>, end: nat, o: nat, size: nat)
    requires Chain(bs, end) && IndexOf(bs, o) < |bs| && bs[IndexOf(bs, o)].used && size % ALIGN == 0
    ensures var have, j := Payload(bs, end, IndexOf(bs, o)), FirstFit(bs, end, Need(size), 0);
            var (cs, at) := Resized(bs, end, o, size);
            if have == size then cs == bs && at == Some(o)
            else if have > size + 24 then
              at == Some(o) && UsedOffsets(cs) == UsedOffsets(bs) && Holds(cs, end, o, size)
            else if j < |bs| then
              at == Some(bs[j].off as int) && bs[j].off != o && UsedOffsets(cs) == UsedOffsets(bs) - {o} + {bs[j].off} &&
              Holds(cs, end, bs[j].off, AllocatedPayload(Payload(bs, end, j), Need(size)))
            else cs == bs && at == None
  {
    var i, j := IndexOf(bs, o), FirstFit(bs, end, Need(size), 0);
    var have := Payload(bs, end, i);
    if have > size + 24 {
      ShrunkKeepsChain(bs, end, i, size);
      ShrunkExactly(bs, end, i, size);
      IndexOfOffset(Shrunk(bs, i, size), end, i);
    } else if have != size && j < |bs| {
      MovedExactly(bs, end, i, j, Need(size));
    }
  }

  /** The block at offset `o` is in use and has exactly `n` bytes. */
  ghost predicate Holds(bs: seq<Block>, end: nat, o: nat, n: int) {
    var i := IndexOf(bs, o);
    i < |bs| && bs[i].used && Payload(bs, end, i) == n
  }

  lemma {:induction false} MovedExactly(bs: seq<Block>, end: nat, i: nat, j: nat, size: nat)
    requires Chain(bs, end) && i < |bs| && bs[i].used && j < |bs| && !bs[j].used && Payload(bs, end, j) >= size && size % ALIGN == 0
    ensures var cs := FreedAt(Allocated(bs, end, j, size), bs[i].off);
            && bs[j].off != bs[i].off && UsedOffsets(cs) == UsedOffsets(bs) - {bs[i].off} + {bs[j].off}
            && Holds(cs, end, bs[j].off, AllocatedPayload(Payload(bs, end, j), size))
  {
    var c, o := Allocated(bs, end, j, size), bs[i].off;
    Disjoint(bs, end, i, j);
    IndexOfOffset(bs, end, i);
    AllocatedExactly(bs, end, j, size);
    AllocatedOffsets(bs, end, j, size);
    AllocatedKeepsChain(bs, end, j, size);
    AllocatedKeepsOffset(bs, end, o, j, size);
    var k := IndexOf(c, o);
    FreedKeepsChain(c, end, k);
    var l := FreedKeepsBlock(c, end, k, j);
    IndexOfOffset(Freed(c, k), end, l);
  }

  // ----- runs -----

  datatype Op = Malloc(size: nat) | Free(o: int) | Realloc(o: int, newsize: nat)

  /** One call on the chain; the argument of a free or reallocation is the offset of a block. */
  ghost function Step(bs: seq<Block>, end: nat, op: Op): seq<Block> {
    match op
    case Malloc(size) =>
      var i := FirstFit(bs, end, Request(size), 0);
      if size == 0 || AlignUp(size) + HEADER > end || i == |bs| then bs else Allocated(bs, end, i, Request(size))
    case Free(o) =>
      var i := IndexOf(bs, o);
      if i < |bs| && bs[i].used then Freed(bs, i) else bs
    case Realloc(o, newsize) =>
      var i, size := IndexOf(bs, o), AlignUp(newsize);
      if size + HEADER > end || i == |bs| || !bs[i].used then bs
      else if size == 0 then Freed(bs, i)
      else Resized(bs, end, o, size).0
  }

  ghost function Run(bs: seq<Block>, end: nat, ops: seq<Op>): seq<Block> {
    if ops == [] then bs else Step(Run(bs, end, ops[..|ops| - 1]), end, ops[|ops| - 1])
  }

  lemma {:induction false} ResizedKeepsChain(bs: seq<Block>, end: nat, o: int, size: nat)
    requires Chain(bs, end) && IndexOf(bs, o) < |bs| && bs[IndexOf(bs, o)].used && size % ALIGN == 0
    ensures Chain(Resized(bs, end, o, size).0, end)
  {
    var i := IndexOf(bs, o);
    if size != Payload(bs, end, i) {
      if size + HEADER + MIN_SIZE < Payload(bs, end, i) {
        ShrunkKeepsChain(bs, end, i, size);
      } else {
        var j := FirstFit(bs, end, Need(size), 0);
        if j < |bs| {
          AllocatedKeepsChain(bs, end, j, Need(size));
          AllocatedKeepsOffset(bs, end, o, j, Need(size));
          var c := Allocated(bs, end, j, Need(size));
          FreedKeepsChain(c, end, IndexOf(c, o));
        }
      }
    }
  }

  /** Whatever the sequence of calls, the blocks tile the heap and no two neighbours are both free. */
  lemma {:induction false} RunKeepsChain(bs: seq<Block>, end: nat, ops: seq<Op>)
    requires Chain(bs, end)
    ensures Chain(Run(bs, end, ops), end)
  {
    if ops != [] {
      var cs, op := Run(bs, end, ops[..|ops| - 1]), ops[|ops| - 1];
      RunKeepsChain(bs, end, ops[..|ops| - 1]);
      StepKeepsChain(cs, end, op);
    }
  }

  lemma {:induction false} StepKeepsChain(bs: seq<Block>, end: nat, op: Op)
    requires Chain(bs, end)
    ensures Chain(Step(bs, end, op), end)
  {
    match op {
      case Malloc(size) =>
        var i := FirstFit(bs, end, Request(size), 0);
        AlignUpAligned(size);
        if i < |bs| { AllocatedKeepsChain(bs, end, i, Request(size)); }
      case Free(o) =>
        var i := IndexOf(bs, o);
        if i < |bs| && bs[i].used { FreedKeepsChain(bs, end, i); }
      case Realloc(o, newsize) =>
        var i := IndexOf(bs, o);
        AlignUpAligned(newsize);
        if i < |bs| && bs[i].used {
          FreedKeepsChain(bs, end, i);
          ResizedKeepsChain(bs, end, o, AlignUp(newsize));
        }
    }
  }

  lemma AlignUpAligned(size: nat)
    ensures AlignUp(size) % ALIGN == 0 && Request(size) % ALIGN == 0
  {
  }

  // ----- where the 32-bit arithmetic of rt_malloc leaves its specification -----

  /** Every data block has at least a minimal payload. */
  function Need(size: nat): nat {
    if size < MIN_SIZE then MIN_SIZE else size
  }

  /** The size rt_malloc looks for. */
  function Request(size: nat): nat {
    Need(AlignUp(size))
  }

  /** Rounding up gives room for the request exactly when it does not wrap around. */
  lemma AlignUpCovers(size: nat)
    requires size < WORD
    ensures AlignUp(size) % ALIGN == 0 && AlignUp(size) < WORD
    ensures AlignUp(size) >= size <==> size <= 0xffff_fffc
  {
  }

  /** It is the least multiple of four that has room for the request and for a minimal payload of 12 bytes. */
  lemma RequestIsLeast(size: nat, n: nat)
    requires size <= 0xffff_fffc && n % 4 == 0
    ensures Request(size) % 4 == 0 && (Request(size) <= n <==> size <= n && 12 <= n)
  {
  }

  lemma AlignUpOfAligned(size: nat)
    requires size < WORD && size % ALIGN == 0
    ensures AlignUp(size) == size
  {
  }

  /** What rt_system_heap_init makes of its bounds: the first address of the heap and `mem_size_aligned`;
      nothing when two headers do not fit, or when they end at address 24 (the comparison is strict). */
  function HeapBounds(begin: nat, end: nat): (r: Option<(nat, nat)>)
    requires begin < WORD && end < WORD
    ensures r == None <==> end < 2 * HEADER + ALIGN || AlignUp(begin) + 2 * HEADER > end
    ensures r.Some? ==>
              var (p, n) := r.value;
              p % ALIGN == 0 && n % ALIGN == 0 && p + n + 2 * HEADER <= end < p + n + 2 * HEADER + ALIGN &&
              (begin <= 0xffff_fffc ==> begin <= p < begin + ALIGN)
  {
    var begin_align, end_align := AlignUp(begin), end / ALIGN * ALIGN;
    if end_align > 2 * HEADER && end_align - 2 * HEADER >= begin_align then
      Some((begin_align, end_align - begin_align - 2 * HEADER))
    else None
  }

  /** The scan's loop guard `ptr < mem_size_aligned - size`, subtraction modulo 2^32. */
  predicate ScanGuard(memSize: nat, size: nat, ptr: nat) {
    ptr < (memSize - size) % WORD
  }

  /** The guard is the subtraction it looks like, unless the heap is smaller than a minimal
      payload: then the difference wraps around and the guard holds at every header offset. */
  lemma ScanGuardExact(memSize: nat, size: nat, ptr: nat)
    requires memSize + 2 * HEADER < WORD && ptr <= memSize + HEADER
    requires size <= memSize || size == MIN_SIZE
    ensures ScanGuard(memSize, size, ptr) <==> (memSize < size || ptr < memSize - size)
  {
    if memSize < size {
      assert (memSize - size) % WORD == memSize - size + WORD;
    }
  }

  /** Where the scan stands after `n` steps from the first block; `heap_end->next` is `heap_end`. */
  ghost function ScanPosition(bs: seq<Block>, end: nat, n: nat): nat {
    if n == 0 then 0
    else
      var i := IndexOf(bs, ScanPosition(bs, end, n - 1));
      if i < |bs| then NextOff(bs, end, i) else end
  }

  /** On a heap smaller than a minimal payload the scan neither accepts a block nor ends,
      so rt_malloc needs `mem_size_aligned >= MIN_SIZE_ALIGNED` to terminate. */
  lemma {:induction false} TinyHeapScanNeverEnds(bs: seq<Block>, end: nat, n: nat)
    requires Chain(bs, end) && HEADER <= end < HEADER + MIN_SIZE
    ensures ScanGuard(end - HEADER, MIN_SIZE, ScanPosition(bs, end, n))
    ensures forall i :: 0 <= i < |bs| ==> Payload(bs, end, i) < MIN_SIZE
  {
    ScanPositionInside(bs, end, n);
    forall i: nat | i < |bs| ensures Payload(bs, end, i) < MIN_SIZE {
      Extent(bs, end, i);
    }
    ScanGuardExact(end - HEADER, MIN_SIZE, ScanPosition(bs, end, n));
  }

  lemma ScanPositionInside(bs: seq<Block>, end: nat, n: nat)
    requires Chain(bs, end)
    ensures ScanPosition(bs, end, n) <= end
  {
    if n > 0 {
      var i := IndexOf(bs, ScanPosition(bs, end, n - 1));
      if i < |bs| { Extent(bs, end, i); }
    }
  }
}
