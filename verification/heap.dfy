/** The small-memory allocator of mem.c. Addresses are absolute, offsets relative to heap_ptr. */
module Heap {
  import opened HeapMemory
  import opened HeapBlocks
  import opened HeapTheorems
  import opened HeapChain
  import opened RtDef

  /** Chain `bs` and memory `r` became `cs` and `t`: the live block at address `rmem` was moved to `p` with its
      first `n` bytes, or there was no room, `p` is null and nothing changed. */
  ghost predicate RelocatedTo(end: nat, base: nat, rmem: nat, n: int, size: nat,
                              bs: seq<Block>, r: seq<byte>, cs: seq<Block>, t: seq<byte>, p: nat)
  {
    var (ds, at) := Relocated(bs, end, rmem - base - HEADER, size);
    cs == ds &&
    match at
    case None => p == 0 && t == r
    case Some(o) => p == base + o + HEADER && SameBytes(r, rmem - base, t, p - base, n)
  }

  /** The same before the old block is freed. */
  ghost predicate DuplicatedTo(end: nat, base: nat, rmem: nat, n: int, size: nat,
                               bs: seq<Block>, r: seq<byte>, cs: seq<Block>, t: seq<byte>, p: nat)
  {
    var j := FirstFit(bs, end, Need(size), 0);
    && j < |bs| && !bs[j].used && PayloadAt(bs, end, j, p - base, Need(size))
    && cs == Allocated(bs, end, j, Need(size)) && SameBytes(r, rmem - base, t, p - base, n)
  }

  lemma IsDuplicated(end: nat, base: nat, rmem: nat, n: int, size: nat,
                     bs: seq<Block>, r: seq<byte>, cs: seq<Block>, t: seq<byte>, p: nat)
    requires FirstFit(bs, end, Need(size), 0) < |bs|
    ensures var j := FirstFit(bs, end, Need(size), 0);
            p == base + bs[j].off + HEADER && cs == Allocated(bs, end, j, Need(size)) && SameBytes(r, rmem - base, t, p - base, n) ==>
              DuplicatedTo(end, base, rmem, n, size, bs, r, cs, t, p)
  {
  }

  lemma NotRelocated(end: nat, base: nat, rmem: nat, n: int, size: nat, bs: seq<Block>, r: seq<byte>)
    requires FirstFit(bs, end, Need(size), 0) == |bs|
    ensures RelocatedTo(end, base, rmem, n, size, bs, r, bs, r, 0)
  {
  }

  lemma FreeRelocates(end: nat, base: nat, rmem: nat, n: nat, size: nat,
                      bs: seq<Block>, r: seq<byte>, cs: seq<Block>, s: seq<byte>, ds: seq<Block>, t: seq<byte>, p: nat)
    requires Tiled(bs, end) && n <= size && DuplicatedTo(end, base, rmem, n, size, bs, r, cs, s, p)
    requires var i := IndexOf(bs, rmem - base - HEADER); i < |bs| && bs[i].used && PayloadAt(bs, end, i, rmem - base, n)
    requires Kept(r, s, bs, end, rmem - base - HEADER) && Kept(s, t, cs, end, rmem - base - HEADER)
    requires ds == FreedAt(cs, rmem - base - HEADER)
    ensures RelocatedTo(end, base, rmem, n, size, bs, r, ds, t, p) && Kept(r, t, bs, end, rmem - base - HEADER)
  {
    var i, j := IndexOf(bs, rmem - base - HEADER), FirstFit(bs, end, Need(size), 0);
    MoveKeeps(r, s, t, bs, cs, end, i, j, Need(size), rmem - base, p - base, n);
  }

  /** As RelocatedTo, unless the block could be resized in place. */
  ghost predicate ResizedTo(end: nat, base: nat, rmem: nat, size: nat,
                            bs: seq<Block>, r: seq<byte>, cs: seq<Block>, t: seq<byte>, p: nat)
  {
    var o := rmem - base - HEADER;
    IndexOf(bs, o) < |bs| &&
    var (ds, at) := Resized(bs, end, o, size);
    cs == ds &&
    match at
    case None => p == 0 && t == r
    case Some(o) => p == base + o + HEADER && SameBytes(r, rmem - base, t, p - base, Min(Payload(bs, end, IndexOf(bs, rmem - base - HEADER)), size))
  }

  lemma NoResize(end: nat, base: nat, rmem: nat, bs: seq<Block>, r: seq<byte>)
    requires var i := IndexOf(bs, rmem - base - HEADER);
             i < |bs| && 0 <= Payload(bs, end, i) && base <= rmem && rmem - base + Payload(bs, end, i) <= |r|
    ensures ResizedTo(end, base, rmem, Payload(bs, end, IndexOf(bs, rmem - base - HEADER)), bs, r, bs, r, rmem)
    ensures Kept(r, r, bs, end, rmem - base - HEADER)
  {
  }

  lemma ShrinkResizes(end: nat, base: nat, rmem: nat, size: nat, bs: seq<Block>, r: seq<byte>, t: seq<byte>)
    requires var i := IndexOf(bs, rmem - base - HEADER); i < |bs| && size + HEADER + MIN_SIZE < Payload(bs, end, i)
    requires SameBytes(r, rmem - base, t, rmem - base, size)
    ensures ResizedTo(end, base, rmem, size, bs, r, Shrunk(bs, IndexOf(bs, rmem - base - HEADER), size), t, rmem)
  {
  }

  /** The block at offset `o` has `have` bytes. */
  ghost predicate Has(bs: seq<Block>, end: nat, o: int, have: nat) {
    IndexOf(bs, o) < |bs| && have == Payload(bs, end, IndexOf(bs, o))
  }

  lemma MoveResizes(end: nat, base: nat, rmem: nat, have: nat, size: nat,
                    bs: seq<Block>, r: seq<byte>, cs: seq<Block>, t: seq<byte>, p: nat)
    requires have != size && have <= size + HEADER + MIN_SIZE
    ensures Has(bs, end, rmem - base - HEADER, have) && RelocatedTo(end, base, rmem, Min(have, size), size, bs, r, cs, t, p) ==> ResizedTo(end, base, rmem, size, bs, r, cs, t, p)
  {
  }

  /** The heap described by `mem`, with the bookkeeping variables of mem.c. */
  class SmallMem {
    const mem: array<byte>             // the bytes from heap_ptr on
    const heap_ptr: nat                // address of the first byte
    const mem_size_aligned: nat
    const heap_end: nat                // offset of the end header
    var lfree: int                     // offset of the lowest free block
    var used_mem: int
    var max_mem: int
    ghost var blocks: seq<Block>       // what the headers describe

    /** The headers describe a tiling of the heap by `blocks`; `lfree` is up to date. */
    ghost predicate Shape()
      reads this, mem
    {
      && heap_end == mem_size_aligned + HEADER
      && heap_ptr % ALIGN == 0 && heap_ptr + mem.Length <= WORD
      && Describes(mem, blocks, heap_end)
      && lfree == LowestFree(blocks, heap_end)
    }

    ghost predicate Valid()
      reads this, mem
    {
      && Shape() && Coalesced(blocks)
      && used_mem == UsedBytes(blocks, heap_end) && used_mem <= max_mem
    }

    /** What the header of block `i` says, and where the block lies. */
    lemma HeaderFacts(i: nat)
      requires Describes(mem, blocks, heap_end) && i < |blocks|
      ensures blocks[i].off + HEADER <= NextOff(blocks, heap_end, i) <= heap_end
      ensures i + 1 < |blocks| ==> NextOff(blocks, heap_end, i) + HEADER <= heap_end
      ensures blocks[i].off % ALIGN == 0
      ensures HeaderAt(mem, blocks[i].off) == HeaderOf(blocks, heap_end, i)
    {
      Extent(blocks, heap_end, i);
      assert Matches(Headers(mem), blocks, heap_end, i);
    }

    /** When rt_malloc comes to an end: with less than a minimal payload its scan does not, see TinyHeapScanNeverEnds. */
    predicate ScanEnds(size: nat) {
      mem_size_aligned >= MIN_SIZE || size == 0 || AlignUp(size) > mem_size_aligned
    }

    /** rt_malloc's scan from the lowest free block. */
    method Scan(size: nat) returns (found: bool, ptr: nat, ghost i: nat)
      requires Valid() && MIN_SIZE <= size <= mem_size_aligned
      ensures i == FirstFit(blocks, heap_end, size, 0)
      ensures found <==> FirstFit(blocks, heap_end, size, 0) < |blocks|
      ensures found ==> ptr == blocks[FirstFit(blocks, heap_end, size, 0)].off
    {
      ptr := lfree;
      i := LowestFreeIndex(blocks, heap_end);
      ScanFromLowestFree(blocks, heap_end, size, i);
      while ptr < mem_size_aligned - size
        invariant i <= |blocks| && ptr == if i < |blocks| then blocks[i].off else heap_end
        invariant FirstFit(blocks, heap_end, size, 0) == FirstFit(blocks, heap_end, size, i)
        decreases |blocks| - i
      {
        HeaderFacts(i);
        var header := HeaderAt(mem, ptr);
        if header.used == 0 && header.next - (ptr + HEADER) >= size {
          return true, ptr, i;
        }
        ptr, i := header.next, i + 1;
      }
      forall j: nat | i < j < |blocks| ensures blocks[i].off < blocks[j].off { Order(blocks, heap_end, i, j); }
      return false, ptr, FirstFit(blocks, heap_end, size, i);
    }

    /** Advance the lowest-free pointer past the blocks in use, up to heap_end. */
    method AdvanceLowestFree(ghost from: nat)
      requires Describes(mem, blocks, heap_end) && from < |blocks| && lfree == blocks[from].off
      requires forall j :: 0 <= j < from ==> blocks[j].used
      modifies this`lfree
      ensures lfree == LowestFree(blocks, heap_end)
    {
      ghost var i := from;
      HeaderFacts(from);
      while HeaderAt(mem, lfree).used != 0 && lfree != heap_end
        invariant i <= |blocks| && lfree == if i < |blocks| then blocks[i].off else heap_end
        invariant 0 <= lfree <= if i < |blocks| then heap_end - HEADER else heap_end
        invariant i < |blocks| ==> HeaderAt(mem, lfree) == HeaderOf(blocks, heap_end, i)
        invariant forall j :: 0 <= j < i ==> blocks[j].used
        decreases |blocks| - i
      {
        HeaderFacts(i);
        lfree, i := HeaderAt(mem, lfree).next, i + 1;
        if i < |blocks| { HeaderFacts(i); }
      }
      LowestFreeIs(blocks, heap_end, i);
    }
  
    /** plug_holes: merge the free block `i` at `m` with its free neighbours. */
    method PlugHoles(m: nat, ghost i: nat)
      requires Shape() && i < |blocks| && blocks[i] == Block(m, false) && CoalescedExceptAt(blocks, i)
      modifies this`lfree, this`blocks, mem
      ensures Shape() && Coalesced(blocks)
      ensures blocks == HeapBlocks.PlugHoles(old(blocks), i)
      ensures Kept(old(mem[..]), mem[..], old(blocks), heap_end, -1)
    {
      PlugHolesKeepsChain(blocks, heap_end, i);
      LowestFreeAtMost(blocks, heap_end, i);
      ghost var bs := blocks;
      MergeForward(m, i);
      ghost var cs := blocks;
      forall k: nat | LivePayload(bs, heap_end, -1, k) ensures LivePayload(cs, heap_end, -1, k) {
        if cs != bs { LiveDrop(bs, heap_end, i + 1, -1, k); }
      }
      MergeBackward(m, i);
    }

    /** The forward half of plug_holes. */
    method MergeForward(m: nat, ghost i: nat)
      requires Shape() && i < |blocks| && blocks[i] == Block(m, false)
      modifies this`lfree, this`blocks, mem
      ensures Shape() && blocks == MergeNext(old(blocks), i)
      ensures Kept(old(mem[..]), mem[..], old(blocks), heap_end, -1)
    {
      HeaderFacts(i);
      if i + 1 < |blocks| { HeaderFacts(i + 1); }
      LowestFreeAtMost(blocks, heap_end, i);
      var nmem := HeaderAt(mem, m).next;
      if m != nmem && HeaderAt(mem, nmem).used == 0 && nmem != heap_end {
        lfree := if lfree == nmem then m else lfree;
        MergeBlock(mem, blocks, heap_end, i, m, nmem);
        LowestFreeDrop(blocks, heap_end, i + 1);
        blocks := Drop(blocks, i + 1);
      }
    }

    /** The backward half of plug_holes. */
    method MergeBackward(m: nat, ghost i: nat)
      requires Shape() && i < |blocks| && blocks[i] == Block(m, false)
      modifies this`lfree, this`blocks, mem
      ensures Shape() && blocks == MergePrev(old(blocks), i)
      ensures Kept(old(mem[..]), mem[..], old(blocks), heap_end, -1)
    {
      HeaderFacts(i);
      if i > 0 { HeaderFacts(i - 1); }
      var pmem := HeaderAt(mem, m).prev;
      if pmem != m && HeaderAt(mem, pmem).used == 0 {
        LowestFreeAtMost(blocks, heap_end, i - 1);
        lfree := if lfree == m then pmem else lfree;
        MergeBlock(mem, blocks, heap_end, i - 1, pmem, m);
        LowestFreeDrop(blocks, heap_end, i);
        blocks := Drop(blocks, i);
      }
    }
  
    /** The block whose payload starts at address `p`, |blocks| if there is none. */
    ghost function BlockOf(p: int): (i: nat)
      reads this
    {
      IndexOf(blocks, p - heap_ptr - HEADER)
    }

    /** `p` is the address of the payload of a block in use. */
    ghost predicate Live(p: int)
      reads this
    {
      BlockOf(p) < |blocks| && blocks[BlockOf(p)].used && p < heap_ptr + heap_end
    }

    /** A live payload lies behind a header. */
    lemma LiveFacts(p: int)
      requires Valid() && Live(p)
      ensures p >= heap_ptr + HEADER && 0 <= p - heap_ptr - HEADER < heap_end
    {
    }

    /** rt_system_heap_init, once HeapBounds has accepted the bounds. */
    constructor (memory: array<byte>, begin_align: nat)
      requires memory.Length >= 2 * HEADER && memory.Length % ALIGN == 0
      requires begin_align % ALIGN == 0 && begin_align + memory.Length <= WORD && memory.Length < WORD
      modifies memory
      ensures Valid() && mem == memory && heap_ptr == begin_align
      ensures mem_size_aligned == memory.Length - 2 * HEADER
      ensures blocks == [Block(0, false)] && lfree == 0 && used_mem == 0 && max_mem == 0
    {
      mem, heap_ptr, mem_size_aligned := memory, begin_align, memory.Length - 2 * HEADER;
      var e := memory.Length - HEADER;
      heap_end := e;
      lfree, used_mem, max_mem, blocks := 0, 0, 0, [Block(0, false)];
      new;
      InitHeaders(memory, e);
    }

    /** rt_malloc. A null pointer is address 0. */
    method Malloc(size: nat) returns (p: nat)
      requires Valid() && size < WORD && ScanEnds(size)
      modifies this, mem
      ensures Valid()
      ensures p == 0 <==> size == 0 || AlignUp(size) > mem_size_aligned ||
                          FirstFit(old(blocks), heap_end, Request(size), 0) == |old(blocks)|
      ensures p == 0 ==> unchanged(this) && unchanged(mem)
      ensures p != 0 ==>
                var i := FirstFit(old(blocks), heap_end, Request(size), 0);
                blocks == Allocated(old(blocks), heap_end, i, Request(size)) && BlockOf(p) == i < |blocks| &&
                p == heap_ptr + old(blocks)[i].off + HEADER && Payload(blocks, heap_end, i) >= Request(size) &&
                Payload(blocks, heap_end, i) == AllocatedPayload(Payload(old(blocks), heap_end, i), Request(size)) &&
                used_mem == old(used_mem) + HEADER + Payload(blocks, heap_end, i)
      ensures Kept(old(mem[..]), mem[..], old(blocks), heap_end, -1)
      ensures max_mem == (if old(max_mem) < used_mem then used_mem else old(max_mem))
    {
      if size == 0 {
        return 0;
      }
      var sz := AlignUp(size);
      if sz > mem_size_aligned {
        return 0;
      }
      if sz < MIN_SIZE {
        sz := MIN_SIZE;
      }
      p := MallocBlock(sz);
    }

    /** The scan of rt_malloc for an aligned size, and what it does with the block it finds. */
    method MallocBlock(sz: nat) returns (p: nat)
      requires Valid() && MIN_SIZE <= sz <= mem_size_aligned && sz % ALIGN == 0
      modifies this, mem
      ensures Valid()
      ensures p == 0 <==> FirstFit(old(blocks), heap_end, sz, 0) == |old(blocks)|
      ensures p == 0 ==> unchanged(this) && unchanged(mem)
      ensures p != 0 ==>
                var i := FirstFit(old(blocks), heap_end, sz, 0);
                blocks == Allocated(old(blocks), heap_end, i, sz) && BlockOf(p) == i < |blocks| &&
                p == heap_ptr + old(blocks)[i].off + HEADER && Payload(blocks, heap_end, i) >= sz &&
                Payload(blocks, heap_end, i) == AllocatedPayload(Payload(old(blocks), heap_end, i), sz) &&
                used_mem == old(used_mem) + HEADER + Payload(blocks, heap_end, i)
      ensures Kept(old(mem[..]), mem[..], old(blocks), heap_end, -1)
      ensures max_mem == (if old(max_mem) < used_mem then used_mem else old(max_mem))
    {
      var found, ptr, i := Scan(sz);
      if !found {
        return 0;
      }
      AllocatedCharges(blocks, heap_end, i, sz);
      AllocatedExactly(blocks, heap_end, i, sz);
      Take(ptr, sz, i);
      IndexOfOffset(blocks, heap_end, i);
      return heap_ptr + ptr + HEADER;
    }

    /** rt_free. Its assertions demand a live block; a null pointer is ignored. */
    method Free(rmem: nat)
      requires Valid() && (rmem == 0 || Live(rmem))
      modifies this, mem
      ensures Valid()
      ensures rmem == 0 ==> unchanged(this) && unchanged(mem)
      ensures rmem != 0 ==>
                blocks == FreedAt(old(blocks), rmem - heap_ptr - HEADER) && max_mem == old(max_mem) &&
                Kept(old(mem[..]), mem[..], old(blocks), heap_end, rmem - heap_ptr - HEADER)
    {
      if rmem == 0 {
        return;
      }
      var ptr := rmem - heap_ptr - HEADER;
      ghost var bs, i := blocks, BlockOf(rmem);
      Release(ptr, i);
      FreedKeepsChain(bs, heap_end, i);
      FreedReturns(bs, heap_end, i);
      PlugHoles(ptr, i);
    }

    /** The first half of rt_free: give block `i` back without merging it with its neighbours. */
    method Release(ptr: nat, ghost i: nat)
      requires Valid() && i < |blocks| && blocks[i] == Block(ptr, true)
      modifies this`lfree, this`used_mem, this`blocks, mem
      ensures Shape() && blocks == SetUse(old(blocks), i, false) && CoalescedExceptAt(blocks, i)
      ensures used_mem == old(used_mem) - (NextOff(blocks, heap_end, i) - ptr) <= old(used_mem)
      ensures Kept(old(mem[..]), mem[..], old(blocks), heap_end, ptr)
      ensures forall k: nat :: LivePayload(old(blocks), heap_end, ptr, k) ==> LivePayload(blocks, heap_end, -1, k)
    {
      ghost var bs := blocks;
      LowestFreeSetFree(bs, heap_end, i);
      SetFreeCoalesced(bs, i);
      Mark(mem, bs, heap_end, i, ptr, false);
      blocks := SetUse(bs, i, false);
      if ptr < lfree {
        lfree := ptr;
      }
      HeaderFacts(i);
      used_mem := used_mem - (HeaderAt(mem, ptr).next - ptr);
      forall k: nat | LivePayload(bs, heap_end, ptr, k) ensures LivePayload(blocks, heap_end, -1, k) {
        LiveSetUse(bs, heap_end, i, false, k);
      }
    }

    /** The splitting branch of rt_realloc: cut block `i` at `ptr` down to `size` bytes in place. */
    method Shrink(ptr: nat, size: nat, ghost i: nat)
      requires Valid() && i < |blocks| && blocks[i] == Block(ptr, true)
      requires size % ALIGN == 0 && size + HEADER <= Payload(blocks, heap_end, i)
      modifies this, mem
      ensures Valid() && blocks == Shrunk(old(blocks), i, size) && max_mem == old(max_mem)
      ensures Kept(old(mem[..]), mem[..], old(blocks), heap_end, ptr)
      ensures SameBytes(old(mem[..]), ptr + HEADER, mem[..], ptr + HEADER, size)
    {
      ShrunkReturns(blocks, heap_end, i, size);
      CutAndPlug(ptr, size, i);
    }

    method CutAndPlug(ptr: nat, size: nat, ghost i: nat)
      requires Shape() && Coalesced(blocks) && i < |blocks| && blocks[i] == Block(ptr, true)
      requires size % ALIGN == 0 && size + HEADER <= Payload(blocks, heap_end, i)
      modifies this`lfree, this`used_mem, this`blocks, mem
      ensures Shape() && Coalesced(blocks) && blocks == Shrunk(old(blocks), i, size)
      ensures used_mem == old(used_mem) - (Payload(old(blocks), heap_end, i) - size)
      ensures Kept(old(mem[..]), mem[..], old(blocks), heap_end, ptr)
      ensures SameBytes(old(mem[..]), ptr + HEADER, mem[..], ptr + HEADER, size)
    {
      ghost var bs, r := blocks, mem[..];
      var cut := ptr + HEADER + size;
      CutBlock(ptr, size, i);
      ghost var cs, s := blocks, mem[..];
      PlugHoles(cut, i + 1);
      ShrunkIs(bs, i, size, cut);
      LiveAfterCut(bs, heap_end, i, cut);
      KeptTwice(r, s, mem[..], bs, cs, heap_end, ptr, -1);
      KeptRange(s, mem[..], cs, heap_end, -1, ptr + HEADER, cut);
    }

    method CutBlock(ptr: nat, size: nat, ghost i: nat)
      requires Shape() && Coalesced(blocks) && i < |blocks| && blocks[i] == Block(ptr, true)
      requires size % ALIGN == 0 && size + HEADER <= Payload(blocks, heap_end, i)
      modifies this`lfree, this`used_mem, this`blocks, mem
      ensures Shape() && blocks == InsertFree(old(blocks), i + 1, ptr + HEADER + size)
      ensures CoalescedExceptAt(blocks, i + 1)
      ensures used_mem == old(used_mem) - (Payload(old(blocks), heap_end, i) - size)
      ensures Kept(old(mem[..]), mem[..], old(blocks), heap_end, ptr)
      ensures SameBytes(old(mem[..]), ptr + HEADER, mem[..], ptr + HEADER, size)
    {
      ghost var bs := blocks;
      HeaderFacts(i);
      used_mem := used_mem - (HeaderAt(mem, ptr).next - ptr - HEADER - size);
      var ptr2 := ptr + HEADER + size;
      AlignedSum(ptr, size);
      InsertBlock(mem, bs, heap_end, i, ptr, ptr2);
      LowestFreeInsertFree(bs, heap_end, i, ptr2);
      InsertFreeCoalesced(bs, i, ptr2);
      blocks := InsertFree(bs, i + 1, ptr2);
      if ptr2 < lfree {
        lfree := ptr2;
      }
    }

    /** rt_realloc. A pointer outside the heap is handed back; anything else must be live. */
    method Realloc(rmem: nat, newsize: nat) returns (p: nat)
      requires Valid() && newsize < WORD && ScanEnds(newsize)
      requires rmem == 0 || Live(rmem) || !(heap_ptr <= rmem < heap_ptr + heap_end)
      requires AlignUp(newsize) == 0 ==> rmem == 0 || Live(rmem)   // asserted by rt_free
      modifies this, mem
      ensures Valid()
      ensures AlignUp(newsize) > mem_size_aligned ==> p == 0 && unchanged(this) && unchanged(mem)
      ensures AlignUp(newsize) == 0 ==>
                p == 0 && blocks == if rmem == 0 then old(blocks) else FreedAt(old(blocks), rmem - heap_ptr - HEADER)
      ensures AlignUp(newsize) == 0 && rmem == 0 ==> unchanged(this) && unchanged(mem)
      ensures 0 < AlignUp(newsize) <= mem_size_aligned && rmem == 0 ==>
                var i := FirstFit(old(blocks), heap_end, Need(AlignUp(newsize)), 0);
                (p == 0 <==> i == |old(blocks)|) && (p == 0 ==> unchanged(this) && unchanged(mem)) &&
                (p != 0 ==>
                   blocks == Allocated(old(blocks), heap_end, i, Need(AlignUp(newsize))) && BlockOf(p) == i < |blocks| &&
                   p == heap_ptr + old(blocks)[i].off + HEADER && Payload(blocks, heap_end, i) >= Need(AlignUp(newsize)))
      ensures 0 < AlignUp(newsize) <= mem_size_aligned && rmem != 0 && !old(Live(rmem)) ==>
                p == rmem && unchanged(this) && unchanged(mem)
      ensures 0 < AlignUp(newsize) <= mem_size_aligned && old(Live(rmem)) ==>
                ResizedTo(heap_end, heap_ptr, rmem, AlignUp(newsize), old(blocks), old(mem[..]), blocks, mem[..], p)
      ensures Kept(old(mem[..]), mem[..], old(blocks), heap_end, rmem - heap_ptr - HEADER)
    {
      p := 0;
      var size := AlignUp(newsize);
      if size > mem_size_aligned {
        return;
      }
      if size == 0 {
        Free(rmem);
        return;
      }
      if rmem == 0 {
        AlignUpOfAligned(size);
        p := Malloc(size);
        return;
      }
      if rmem < heap_ptr || rmem >= heap_ptr + heap_end {
        return rmem;
      }
      p := Resize(rmem, size);
    }

    /** The size of a live block, from its header. */
    method PayloadOf(rmem: nat) returns (have: nat)
      requires Valid() && Live(rmem)
      ensures rmem >= heap_ptr + HEADER && have == Payload(blocks, heap_end, BlockOf(rmem))
      ensures rmem - heap_ptr + have <= mem.Length
    {
      var ptr := rmem - heap_ptr - HEADER;
      HeaderFacts(BlockOf(rmem));
      have := HeaderAt(mem, ptr).next - ptr - HEADER;
    }

    method ShrinkTo(rmem: nat, size: nat) returns (p: nat)
      requires Valid() && Live(rmem) && size % ALIGN == 0 && size + HEADER + MIN_SIZE < Payload(blocks, heap_end, BlockOf(rmem))
      modifies this, mem
      ensures Valid() && ResizedTo(heap_end, heap_ptr, rmem, size, old(blocks), old(mem[..]), blocks, mem[..], p)
      ensures Kept(old(mem[..]), mem[..], old(blocks), heap_end, rmem - heap_ptr - HEADER)
    {
      ghost var bs, r := blocks, mem[..];
      LiveFacts(rmem);
      Shrink(rmem - heap_ptr - HEADER, size, BlockOf(rmem));
      ShrinkResizes(heap_end, heap_ptr, rmem, size, bs, r, mem[..]);
      p := rmem;
    }

    /** rt_realloc of a live block to an aligned size. */
    method Resize(rmem: nat, size: nat) returns (p: nat)
      requires Valid() && Live(rmem) && 0 < size <= mem_size_aligned && size % ALIGN == 0 && mem_size_aligned >= MIN_SIZE
      modifies this, mem
      ensures Valid() && ResizedTo(heap_end, heap_ptr, rmem, size, old(blocks), old(mem[..]), blocks, mem[..], p)
      ensures Kept(old(mem[..]), mem[..], old(blocks), heap_end, rmem - heap_ptr - HEADER)
    {
      var have := PayloadOf(rmem);
      if have == size {
        NoResize(heap_end, heap_ptr, rmem, blocks, mem[..]);
        p := rmem;
      } else if size + HEADER + MIN_SIZE < have {
        p := ShrinkTo(rmem, size);
      } else {
        p := Move(rmem, have, size);
      }
    }

    lemma LiveHas(rmem: nat, have: nat)
      requires BlockOf(rmem) < |blocks| && have == Payload(blocks, heap_end, BlockOf(rmem))
      ensures Has(blocks, heap_end, rmem - heap_ptr - HEADER, have)
    {
    }

    /** The moving branch of rt_realloc. */
    method Move(rmem: nat, have: nat, size: nat) returns (p: nat)
      requires Valid() && Live(rmem) && 0 < size <= mem_size_aligned && size % ALIGN == 0 && mem_size_aligned >= MIN_SIZE
      requires have == Payload(blocks, heap_end, BlockOf(rmem)) && have != size && have <= size + HEADER + MIN_SIZE
      modifies this, mem
      ensures Valid() && ResizedTo(heap_end, heap_ptr, rmem, size, old(blocks), old(mem[..]), blocks, mem[..], p)
      ensures Kept(old(mem[..]), mem[..], old(blocks), heap_end, rmem - heap_ptr - HEADER)
    {
      ghost var bs, r := blocks, mem[..];
      LiveHas(rmem, have);
      p := Relocate(rmem, have, size);
      MoveResizes(heap_end, heap_ptr, rmem, have, size, bs, r, blocks, mem[..], p);
    }

    /** Allocate, copy, free. */
    method Relocate(rmem: nat, have: nat, size: nat) returns (p: nat)
      requires Valid() && Live(rmem) && 0 < size <= mem_size_aligned && size % ALIGN == 0 && mem_size_aligned >= MIN_SIZE
      requires have == Payload(blocks, heap_end, BlockOf(rmem))
      modifies this, mem
      ensures Valid() && RelocatedTo(heap_end, heap_ptr, rmem, Min(have, size), size, old(blocks), old(mem[..]), blocks, mem[..], p)
      ensures Kept(old(mem[..]), mem[..], old(blocks), heap_end, rmem - heap_ptr - HEADER)
    {
      ghost var bs, i, r := blocks, BlockOf(rmem), mem[..];
      assert PayloadAt(bs, heap_end, i, rmem - heap_ptr, Min(have, size));
      p := Duplicate(rmem, size, Min(have, size));
      if p != 0 {
        Retire(rmem, Min(have, size), size, bs, r, p);
      }
    }

    /** The second half of the move: free the old block. */
    method Retire(rmem: nat, ghost n: nat, ghost size: nat, ghost bs: seq<Block>, ghost r: seq<byte>, ghost p: nat)
      requires Valid() && Live(rmem) && n <= size && Chain(bs, heap_end)
      requires IndexOf(bs, rmem - heap_ptr - HEADER) < |bs| && bs[IndexOf(bs, rmem - heap_ptr - HEADER)].used
      requires PayloadAt(bs, heap_end, IndexOf(bs, rmem - heap_ptr - HEADER), rmem - heap_ptr, n)
      requires DuplicatedTo(heap_end, heap_ptr, rmem, n, size, bs, r, blocks, mem[..], p)
      requires Kept(r, mem[..], bs, heap_end, rmem - heap_ptr - HEADER)
      modifies this, mem
      ensures Valid() && RelocatedTo(heap_end, heap_ptr, rmem, n, size, bs, r, blocks, mem[..], p)
      ensures Kept(r, mem[..], bs, heap_end, rmem - heap_ptr - HEADER)
    {
      ghost var s, cs := mem[..], blocks;
      Free(rmem);
      FreeRelocates(heap_end, heap_ptr, rmem, n, size, bs, r, cs, s, blocks, mem[..], p);
    }

    /** The first half of the move: a new block that starts with the first `n` bytes of `rmem`. */
    method Duplicate(rmem: nat, size: nat, n: nat) returns (p: nat)
      requires Valid() && Live(rmem) && 0 < size <= mem_size_aligned && size % ALIGN == 0 && mem_size_aligned >= MIN_SIZE
      requires n <= size && n <= Payload(blocks, heap_end, BlockOf(rmem))
      modifies this, mem
      ensures Valid()
      ensures p == 0 ==> RelocatedTo(heap_end, heap_ptr, rmem, n, size, old(blocks), old(mem[..]), blocks, mem[..], p)
      ensures p != 0 ==> Live(rmem) && DuplicatedTo(heap_end, heap_ptr, rmem, n, size, old(blocks), old(mem[..]), blocks, mem[..], p)
      ensures Kept(old(mem[..]), mem[..], old(blocks), heap_end, rmem - heap_ptr - HEADER)
    {
      ghost var bs, i, r := blocks, BlockOf(rmem), mem[..];
      ghost var j := FirstFit(bs, heap_end, Need(size), 0);
      AlignUpOfAligned(size);
      p := Malloc(size);
      if p != 0 {
        AllocatedKeepsOffset(bs, heap_end, rmem - heap_ptr - HEADER, j, Need(size));
        CopyOut(rmem - heap_ptr, p - heap_ptr, n, Need(size), r, bs, i, j);
        IsDuplicated(heap_end, heap_ptr, rmem, n, size, bs, r, blocks, mem[..], p);
      } else {
        NotRelocated(heap_end, heap_ptr, rmem, n, size, bs, r);
      }
    }

    /** The copy of rt_realloc: from block `i` of the chain before the allocation into block `j`. */
    method CopyOut(src: nat, dst: nat, n: nat, ghost size: nat, ghost r: seq<byte>, ghost bs: seq<Block>, ghost i: nat, ghost j: nat)
      requires Valid() && Chain(bs, heap_end) && j < |bs| && blocks == Allocated(bs, heap_end, j, size)
      requires PayloadAt(bs, heap_end, i, src, n) && PayloadAt(bs, heap_end, j, dst, size) && n <= size
      requires bs[i].used && !bs[j].used && Kept(r, mem[..], bs, heap_end, -1)
      modifies mem
      ensures Valid() && SameBytes(r, src, mem[..], dst, n) && Kept(r, mem[..], bs, heap_end, src - HEADER)
    {
      ghost var s := mem[..];
      MoveRangesApart(bs, heap_end, i, j, src, dst, n);
      Extent(bs, heap_end, i);
      MemCpy(dst, src, n, j);
      CopyKeeps(r, s, mem[..], bs, heap_end, i, j, src, dst, n);
    }

    /** Writing inside the payload of a block never damages the heap. */
    method Poke(k: nat, b: byte, ghost i: nat)
      requires Valid() && InPayload(blocks, heap_end, i, k)
      modifies mem
      ensures Valid() && k < mem.Length && mem[k] == b
      ensures forall j :: 0 <= j < mem.Length && j != k ==> mem[j] == old(mem[j])
    {
      ghost var h := Headers(mem);
      Extent(blocks, heap_end, i);
      mem[k] := b;
      forall j: nat | j < |blocks| ensures Matches(Headers(mem), blocks, heap_end, j) {
        assert Matches(h, blocks, heap_end, j);
        HeaderApart(blocks, heap_end, j, i, k);
      }
      HeaderApart(blocks, heap_end, |blocks|, i, k);
    }

    /** Store a word inside the payload of block `i`. */
    method PokeWord(o: nat, v: nat, ghost i: nat)
      requires Valid() && InPayload(blocks, heap_end, i, o) && InPayload(blocks, heap_end, i, o + 3) && v < WORD
      modifies mem
      ensures Valid() && o + 4 <= mem.Length && Word(mem, o) == v
      ensures forall k :: 0 <= k < mem.Length && !(o <= k < o + 4) ==> mem[k] == old(mem[k])
    {
      Extent(blocks, heap_end, i);
      WordDigits(v);
      Poke(o, v % 256, i);
      Poke(o + 1, v / 256 % 256, i);
      Poke(o + 2, v / 65536 % 256, i);
      Poke(o + 3, v / 16777216, i);
    }

    /** rt_memcpy of `n` bytes into the payload of block `i`. */
    method MemCpy(dst: nat, src: nat, n: nat, ghost i: nat)
      requires Valid() && i < |blocks| && blocks[i].off + HEADER <= dst && dst + n <= NextOff(blocks, heap_end, i)
      requires src + n <= mem.Length && (src + n <= dst || dst + n <= src)
      modifies mem
      ensures Valid() && SameBytes(old(mem[..]), src, mem[..], dst, n)
      ensures forall k :: 0 <= k < mem.Length && !(dst <= k < dst + n) ==> mem[k] == old(mem[k])
    {
      Extent(blocks, heap_end, i);
      for k := 0 to n
        invariant Valid()
        invariant forall a :: dst <= a < dst + k ==> mem[a] == old(mem[a - dst + src])
        invariant forall j :: 0 <= j < mem.Length && !(dst <= j < dst + k) ==> mem[j] == old(mem[j])
      {
        assert mem[src + k] == old(mem[src + k]);
        Poke(dst + k, mem[src + k], i);
      }
    }

    /** Hand out free block `i` at `ptr` for `size` bytes: split it or take it whole. */
    method Take(ptr: nat, size: nat, ghost i: nat)
      requires Valid() && i < |blocks| && blocks[i] == Block(ptr, false)
      requires size % ALIGN == 0 && size <= Payload(blocks, heap_end, i)
      modifies this, mem
      ensures Valid() && blocks == Allocated(old(blocks), heap_end, i, size)
      ensures Kept(old(mem[..]), mem[..], old(blocks), heap_end, -1)
      ensures max_mem == (if old(max_mem) < used_mem then used_mem else old(max_mem))
    {
      ghost var bs := blocks;
      AllocatedKeepsChain(bs, heap_end, i, size);
      AllocatedCharges(bs, heap_end, i, size);
      if ptr != lfree {
        LowestFreeAllocated(bs, heap_end, i, size);
      }
      var charge := TakeBlock(mem, bs, heap_end, i, ptr, size);
      blocks := Allocated(bs, heap_end, i, size);
      used_mem := used_mem + charge;
      if max_mem < used_mem {
        max_mem := used_mem;
      }
      if ptr == lfree {
        ghost var low := LowestFreeIndex(bs, heap_end);
        Extent(bs, heap_end, i);
        if low < |bs| && low != i { Disjoint(bs, heap_end, low, i); }
        AdvanceLowestFree(i);
      }
    }
  }

  /** The header writes of rt_malloc on free block `i`; returns the bytes they charge to used_mem. */
  method TakeBlock(mem: array<byte>, ghost bs: seq<Block>, end: nat, ghost i: nat, ptr: nat, size: nat)
    returns (charge: int)
    requires Describes(mem, bs, end) && i < |bs| && bs[i] == Block(ptr, false)
    requires size % ALIGN == 0 && size <= Payload(bs, end, i)
    modifies mem
    ensures Describes(mem, Allocated(bs, end, i, size), end)
    ensures charge == NextOff(Allocated(bs, end, i, size), end, i) - ptr
    ensures Kept(old(mem[..]), mem[..], bs, end, -1)
  {
    Extent(bs, end, i);
    assert Matches(Headers(mem), bs, end, i);
    var next := HeaderAt(mem, ptr).next;
    Mark(mem, bs, end, i, ptr, true);
    if next - (ptr + HEADER) >= size + HEADER + MIN_SIZE {
      LiveAfterTake(bs, end, i);
      AlignedSum(ptr, size);
      InsertBlock(mem, SetUse(bs, i, true), end, i, ptr, ptr + HEADER + size);
      assert Allocated(bs, end, i, size) == InsertFree(SetUse(bs, i, true), i + 1, ptr + HEADER + size);
      charge := size + HEADER;
    } else {
      assert Allocated(bs, end, i, size) == SetUse(bs, i, true);
      charge := next - ptr;
    }
  }

  /** The headers of a fresh heap: one free block and the end. */
  method InitHeaders(mem: array<byte>, e: nat)
    requires mem.Length == e + HEADER < WORD && e >= HEADER && e % ALIGN == 0
    modifies mem
    ensures Describes(mem, [Block(0, false)], e)
  {
    WriteHeader(mem, 0, 0, e, 0);
    WriteHeader(mem, e, 1, e, e);
    assert Matches(Headers(mem), [Block(0, false)], e, 0);
  }
}
