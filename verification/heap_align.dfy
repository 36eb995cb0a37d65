/** rt_malloc_align and rt_free_align of kservice.c on top of the heap. */
module HeapAlign {
  import opened HeapMemory
  import opened HeapBlocks
  import opened HeapTheorems
  import opened HeapChain
  import opened Heap
  import opened RtDef

  const PTR_SIZE: nat := 4   // sizeof(void *)

  ghost predicate PowerOfTwo(n: nat) {
    n == 1 || (n > 1 && n % 2 == 0 && PowerOfTwo(n / 2))
  }

  lemma PowerOfTwoRounds(align: nat)
    requires PowerOfTwo(align) && align <= 0xffff_fffc
    ensures AlignUp(align) == if align > 2 then align else 4
    ensures AlignUp(align) % 4 == 0
  {
    RemainderIs(align + 3, WORD, 0, align + 3);
    if align > 2 {
      MultipleOfFour(align);
    }
  }

  lemma MultipleOfFour(align: nat)
    requires PowerOfTwo(align) && align > 2
    ensures align % 4 == 0 && (align + 3) / 4 * 4 == align
  {
    assert PowerOfTwo(align / 2);
    var q := align / 2 / 2;
    assert align == 4 * q;
    RemainderIs(align + 3, 4, q, 3);
    RemainderIs(align, 4, q, 0);
  }

  /** What rt_malloc_align asks rt_malloc for, in 32 bits: the size and the alignment, each rounded up to a pointer's. */
  function PaddedRequest(size: nat, align: nat): nat {
    (AlignUp(size) + AlignUp(align)) % WORD
  }

  /** The request has room for size and alignment if and only if neither the roundings nor their sum wrap around. */
  lemma PaddedCovers(size: nat, align: nat)
    requires size < WORD && align < WORD
    ensures PaddedRequest(size, align) >= size + align <==>
            size <= 0xffff_fffc && align <= 0xffff_fffc && AlignUp(size) + AlignUp(align) < WORD
    ensures PaddedRequest(size, align) >= size + align ==> PaddedRequest(size, align) == AlignUp(size) + AlignUp(align)
  {
    AlignUpCovers(size);
    AlignUpCovers(align);
    AlignUpBelow(size);
    AlignUpBelow(align);
    var sum := AlignUp(size) + AlignUp(align);
    if sum < WORD {
      RemainderIs(sum, WORD, 0, sum);
    } else {
      RemainderIs(sum, WORD, 1, sum - WORD);
    }
  }

  lemma RequestRounds(size: nat, align: nat)
    requires size < WORD && align < WORD && PowerOfTwo(align) && PaddedRequest(size, align) >= size + align
    ensures size <= AlignUp(size) && AlignUp(size) + AlignUp(align) < WORD && PaddedRequest(size, align) == AlignUp(size) + AlignUp(align)
    ensures AlignUp(align) % 4 == 0 && AlignUp(align) == if align > 2 then align else 4
  {
    PaddedCovers(size, align);
    AlignUpCovers(size);
    PowerOfTwoRounds(align);
  }

  /** Rounding up adds at most 3; where it wraps around it yields 0. */
  lemma AlignUpBelow(size: nat)
    requires size < WORD
    ensures size <= 0xffff_fffc ==> AlignUp(size) <= size + 3
    ensures size > 0xffff_fffc ==> AlignUp(size) == 0
  {
    RemainderIs(size + 3, WORD, if size <= 0xffff_fffc then 0 else 1, if size <= 0xffff_fffc then size + 3 else size + 3 - WORD);
  }

  ghost predicate Multiple(x: int, align: nat) {
    exists k :: x == k * align
  }

  lemma MultipleMod(k: int, align: nat)
    requires align > 0
    ensures k * align % align == 0
  {
    RemainderIs(k * align, align, k, 0);
  }

  /** The aligned address inside a block whose payload starts at `p`: the next multiple of `align`
      above `p`. For a power of two, `x & (align - 1)` is `x % align`, `x & ~(align - 1)` is `x / align * align`. */
  function AlignedAddress(p: nat, align: nat): (q: nat)
    requires align > 0
    ensures Multiple(q, align) && p < q <= p + align
  {
    if p % align == 0 then
      assert p + align == (p / align + 1) * align;
      p + align
    else
      var k := (p + align - 1) / align;
      assert p + align - 1 == k * align + (p + align - 1) % align;
      assert k * align != p by { MultipleMod(k, align); }
      k * align
  }

  lemma MultipleOfMultiple(x: nat, align: nat)
    requires Multiple(x, align) && align % 4 == 0
    ensures x % 4 == 0
  {
    var k :| x == k * align;
    assert x == k * (align / 4) * 4;
    MultipleMod(k * (align / 4), 4);
  }

  /** The word below the aligned address and the user's bytes lie inside the block that was asked for. */
  lemma AlignedInside(ptr: nat, size: nat, align: nat)
    requires ptr % 4 == 0 && align % 4 == 0 && align > 0 && size <= AlignUp(size)
    ensures var p := AlignedAddress(ptr, align);
            ptr + PTR_SIZE <= p && p + size <= ptr + AlignUp(size) + align && p % 4 == 0
  {
    MultipleOfMultiple(AlignedAddress(ptr, align), align);
  }

  /** Writing a word into the payload of block `i`, free in `bs`, touches no payload live in `bs`. */
  lemma WordKeeps(r: seq<byte>, s: seq<byte>, t: seq<byte>, bs: seq<Block>, end: nat, i: nat, o: nat)
    requires Tiled(bs, end) && i < |bs| && !bs[i].used && InPayload(bs, end, i, o) && InPayload(bs, end, i, o + 3)
    requires Kept(r, s, bs, end, -1) && |s| == |t|
    requires forall k :: 0 <= k < |t| && !(o <= k < o + 4) ==> t[k] == s[k]
    ensures Kept(r, t, bs, end, -1)
  {
    FreePayloadNotLive(bs, end, i);
    forall k: nat | k < |t| && LivePayload(bs, end, -1, k) ensures t[k] == r[k] {
      assert o <= k < o + 4 ==> InPayload(bs, end, i, k);
      assert s[k] == r[k];
    }
  }

  /** The word below `p` holds the address `block` of a live block. */
  ghost predicate LeadsTo(h: SmallMem, block: nat, p: nat)
    reads h, h.mem
  {
    && h.heap_ptr + PTR_SIZE <= p && p - h.heap_ptr <= h.mem.Length
    && Word(h.mem, p - PTR_SIZE - h.heap_ptr) == block && h.Live(block)
  }

  /** Besides, that word and the `size` bytes from `p` on lie in the block's payload. */
  ghost predicate Owns(h: SmallMem, block: nat, p: nat, size: nat)
    reads h, h.mem
  {
    && LeadsTo(h, block, p)
    && block + PTR_SIZE <= p && p + size <= h.heap_ptr + NextOff(h.blocks, h.heap_end, h.BlockOf(block))
  }

  /** rt_malloc has no block for `n` bytes, a positive multiple of four: the heap is smaller, or no block fits. */
  ghost predicate NoRoom(bs: seq<Block>, end: nat, n: nat) {
    n + HEADER > end || FirstFit(bs, end, Need(n), 0) == |bs|
  }

  /** rt_malloc_align, when its 32-bit request covers size and alignment. */
  method MallocAlign(h: SmallMem, size: nat, align: nat) returns (p: nat, ghost block: nat)
    requires h.Valid() && PowerOfTwo(align) && size < WORD && align < WORD && h.ScanEnds(PaddedRequest(size, align))
    requires PaddedRequest(size, align) >= size + align   // see PaddedCovers
    modifies h, h.mem
    ensures h.Valid()
    ensures p == 0 <==> NoRoom(old(h.blocks), h.heap_end, PaddedRequest(size, align))
    ensures p == 0 ==> unchanged(h) && unchanged(h.mem)
    ensures p != 0 ==> Owns(h, block, p, size) && Multiple(p, if align > 2 then align else 4)
    ensures p != 0 ==> FirstFitTaken(old(h.blocks), h.blocks, h.heap_end, block - h.heap_ptr - HEADER, PaddedRequest(size, align))
    ensures Kept(old(h.mem[..]), h.mem[..], old(h.blocks), h.heap_end, -1)
  {
    RequestRounds(size, align);
    p, block := MallocRounded(h, size, AlignUp(align));
  }

  /** The same once the alignment has been rounded up to a multiple of four. */
  method MallocRounded(h: SmallMem, size: nat, align: nat) returns (p: nat, ghost block: nat)
    requires h.Valid() && align % 4 == 0 && align > 0 && size <= AlignUp(size) && AlignUp(size) + align < WORD && h.ScanEnds(AlignUp(size) + align)
    modifies h, h.mem
    ensures h.Valid()
    ensures p == 0 <==> NoRoom(old(h.blocks), h.heap_end, AlignUp(size) + align)
    ensures p == 0 ==> unchanged(h) && unchanged(h.mem)
    ensures p != 0 ==> Owns(h, block, p, size) && Multiple(p, align)
    ensures p != 0 ==> FirstFitTaken(old(h.blocks), h.blocks, h.heap_end, block - h.heap_ptr - HEADER, AlignUp(size) + align)
    ensures Kept(old(h.mem[..]), h.mem[..], old(h.blocks), h.heap_end, -1)
  {
    ghost var bs, i, r := h.blocks, 0, h.mem[..];
    p, i := MallocTracked(h, AlignUp(size) + align);
    block := p;
    if p != 0 {
      p := PlaceInside(h, p, size, align, bs, i, r);
    }
  }

  /** rt_malloc, with the block it hands out. */
  method MallocTracked(h: SmallMem, n: nat) returns (ptr: nat, ghost i: nat)
    requires h.Valid() && 0 < n < WORD && n % 4 == 0 && h.ScanEnds(n)
    modifies h, h.mem
    ensures h.Valid()
    ensures ptr == 0 <==> NoRoom(old(h.blocks), h.heap_end, n)
    ensures ptr == 0 ==> unchanged(h) && unchanged(h.mem)
    ensures ptr != 0 ==> HandedOut(old(h.blocks), h.blocks, h.heap_end, h.heap_ptr, ptr, i, n)
    ensures ptr != 0 ==> FirstFitTaken(old(h.blocks), h.blocks, h.heap_end, ptr - h.heap_ptr - HEADER, n)
    ensures Kept(old(h.mem[..]), h.mem[..], old(h.blocks), h.heap_end, -1)
  {
    AlignUpOfAligned(n);
    ghost var bs := h.blocks;
    ptr := h.Malloc(n);
    i := FirstFit(bs, h.heap_end, Need(n), 0);
    if ptr != 0 {
      AllocatedIsUsed(bs, h.heap_end, i, Need(n));
      IsHandedOut(bs, h.blocks, h.heap_end, h.heap_ptr, ptr, i, n);
    }
  }

  lemma AllocatedIsUsed(bs: seq<Block>, end: nat, i: nat, size: nat)
    requires i < |bs|
    ensures i < |Allocated(bs, end, i, size)| && Allocated(bs, end, i, size)[i].used
  {
  }

  /** Chain `bs` became `cs` when block `i` was handed out with at least `n` bytes at `ptr`. */
  ghost predicate HandedOut(bs: seq<Block>, cs: seq<Block>, end: nat, base: nat, ptr: nat, i: nat, n: nat) {
    && PayloadAt(bs, end, i, ptr - base, n) && !bs[i].used
    && IndexOf(cs, ptr - base - HEADER) == i < |cs| && cs[i].used && Payload(cs, end, i) >= n && ptr < base + end
  }

  /** Chain `bs` became `cs` when the first block that fits `n` bytes, the one at offset `o`, was handed out. */
  ghost predicate FirstFitTaken(bs: seq<Block>, cs: seq<Block>, end: nat, o: int, n: nat) {
    var i := FirstFit(bs, end, Need(n), 0);
    i < |bs| && bs[i].off == o && cs == Allocated(bs, end, i, Need(n))
  }

  /** Freeing the block that rt_malloc_align took, as rt_free_align does, restores the exact chain. */
  lemma AlignedFreeRestores(bs: seq<Block>, cs: seq<Block>, end: nat, o: int, size: nat, align: nat)
    requires Chain(bs, end) && size < WORD && align < WORD && PowerOfTwo(align) && PaddedRequest(size, align) >= size + align
    requires FirstFitTaken(bs, cs, end, o, PaddedRequest(size, align))
    ensures FreedAt(cs, o) == bs
  {
    var n := PaddedRequest(size, align);
    RequestRounds(size, align);
    AlignUpCovers(size);
    RemainderIs(n, ALIGN, AlignUp(size) / ALIGN + AlignUp(align) / ALIGN, 0);
    MallocThenFreeAt(bs, end, FirstFit(bs, end, Need(n), 0), Need(n), o);
  }

  lemma IsHandedOut(bs: seq<Block>, cs: seq<Block>, end: nat, base: nat, ptr: nat, i: nat, n: nat)
    requires i == FirstFit(bs, end, Need(n), 0) < |bs| && i < |cs| && ptr == base + bs[i].off + HEADER
    ensures Tiled(cs, end) && IndexOf(cs, ptr - base - HEADER) == i && cs[i].used && Payload(cs, end, i) >= Need(n) ==>
              HandedOut(bs, cs, end, base, ptr, i, n)
  {
    if Tiled(cs, end) {
      Extent(cs, end, i);
    }
  }

  /** Pick the aligned address inside block `i`, just handed out at `ptr`, and store the way back. */
  method PlaceInside(h: SmallMem, ptr: nat, size: nat, align: nat, ghost bs: seq<Block>, ghost i: nat, ghost r: seq<byte>)
    returns (p: nat)
    requires h.Valid() && align % 4 == 0 && align > 0 && size <= AlignUp(size) && Tiled(bs, h.heap_end)
    requires HandedOut(bs, h.blocks, h.heap_end, h.heap_ptr, ptr, i, AlignUp(size) + align)
    requires Kept(r, h.mem[..], bs, h.heap_end, -1)
    modifies h.mem
    ensures h.Valid() && p != 0 && Owns(h, ptr, p, size) && Multiple(p, align)
    ensures Kept(r, h.mem[..], bs, h.heap_end, -1)
  {
    ghost var s := h.mem[..];
    Extent(h.blocks, h.heap_end, i);
    AlignedSum(h.blocks[i].off, h.heap_ptr);
    p := AlignedAddress(ptr, align);
    AlignedInside(ptr, size, align);
    var o := p - PTR_SIZE - h.heap_ptr;
    h.PokeWord(o, ptr, i);
    WordKeeps(r, s, h.mem[..], bs, h.heap_end, i, o);
  }

  /** Block `block` is freed, all other live payloads are unchanged. */
  twostate predicate FreedIn(h: SmallMem, block: int)
    reads h, h.mem
  {
    && h.blocks == FreedAt(old(h.blocks), block - h.heap_ptr - HEADER)
    && Kept(old(h.mem[..]), h.mem[..], old(h.blocks), h.heap_end, block - h.heap_ptr - HEADER)
  }

  /** rt_free_align: free the block whose address is stored below `p`. */
  method FreeAlign(h: SmallMem, p: nat, ghost block: nat)
    requires h.Valid() && LeadsTo(h, block, p)
    modifies h, h.mem
    ensures h.Valid() && FreedIn(h, block)
  {
    var real_ptr := BackPointer(h, p, block);
    FreeBlock(h, real_ptr);
  }

  /** rt_free of a live block. */
  method FreeBlock(h: SmallMem, real_ptr: nat)
    requires h.Valid() && h.Live(real_ptr) && real_ptr != 0
    modifies h, h.mem
    ensures h.Valid() && FreedIn(h, real_ptr)
  {
    h.Free(real_ptr);
  }

  /** The word that rt_malloc_align left below `p`. */
  method BackPointer(h: SmallMem, p: nat, ghost block: nat) returns (real_ptr: nat)
    requires h.Valid() && LeadsTo(h, block, p)
    ensures real_ptr == block != 0 && h.Live(block)
  {
    real_ptr := Word(h.mem, p - PTR_SIZE - h.heap_ptr);
    h.LiveFacts(block);
  }

  /** A write by the owner inside the aligned range keeps the back pointer. */
  method UserWrite(h: SmallMem, p: nat, ghost block: nat, size: nat, k: nat, b: byte)
    requires h.Valid() && Owns(h, block, p, size) && k < size
    modifies h.mem
    ensures h.Valid() && Owns(h, block, p, size)
  {
    h.Poke(p + k - h.heap_ptr, b, h.BlockOf(block));
  }
}
