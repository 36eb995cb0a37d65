/** What the headers of mem.c's heap describe: the sequence of blocks that tiles
    the heap from offset 0 up to `end` (the offset of `heap_end`). */
module HeapBlocks {
  import opened HeapMemory
  import opened RtDef

  const ALIGN: nat := 4       // RT_ALIGN_SIZE
  const MIN_SIZE: nat := 12   // MIN_SIZE and MIN_SIZE_ALIGNED

  datatype Block = Block(off: nat, used: bool)

  function NextOff(bs: seq<Block>, end: nat, i: nat): nat
    requires i < |bs|
  {
    if i + 1 < |bs| then bs[i + 1].off else end
  }

  /** The user data size of block `i`. */
  function Payload(bs: seq<Block>, end: nat, i: nat): int
    requires i < |bs|
  {
    NextOff(bs, end, i) - bs[i].off - HEADER
  }

  predicate Inside(bs: seq<Block>, end: nat, i: nat)
    requires i < |bs|
  {
    bs[i].off % ALIGN == 0 && bs[i].off + HEADER <= end
  }

  predicate Before(bs: seq<Block>, i: nat, j: nat)
    requires i < |bs| && j < |bs|
  {
    bs[i].off + HEADER <= bs[j].off
  }

  predicate FreePair(bs: seq<Block>, i: nat)
    requires i + 1 < |bs|
  {
    !bs[i].used && !bs[i + 1].used
  }

  ghost predicate Tiled(bs: seq<Block>, end: nat) {
    && |bs| > 0 && bs[0].off == 0 && end % ALIGN == 0
    && (forall i: nat {:trigger Inside(bs, end, i)} :: i < |bs| ==> Inside(bs, end, i))
    && (forall i: nat, j: nat {:trigger Before(bs, i, j)} :: i < j < |bs| ==> Before(bs, i, j))
  }

  /** No two neighbouring blocks are both free. */
  ghost predicate Coalesced(bs: seq<Block>) {
    forall i: nat {:trigger FreePair(bs, i)} :: i + 1 < |bs| ==> !FreePair(bs, i)
  }

  ghost predicate Chain(bs: seq<Block>, end: nat) {
    Tiled(bs, end) && Coalesced(bs)
  }

  /** `k` is an address inside the payload of block `i`. */
  predicate InPayload(bs: seq<Block>, end: nat, i: nat, k: int) {
    i < |bs| && bs[i].off + HEADER <= k < NextOff(bs, end, i)
  }

  /** `k` is an address inside a live payload, other than that of the block at offset `except`. */
  ghost predicate LivePayload(bs: seq<Block>, end: nat, except: int, k: int) {
    exists i: nat :: InPayload(bs, end, i, k) && bs[i].used && bs[i].off != except
  }

  function LowestFree(bs: seq<Block>, end: nat): nat {
    if bs == [] then end else if !bs[0].used then bs[0].off else LowestFree(bs[1..], end)
  }

  function UsedBytes(bs: seq<Block>, end: nat): int {
    if bs == [] then 0
    else (if bs[0].used then NextOff(bs, end, 0) - bs[0].off else 0) + UsedBytes(bs[1..], end)
  }

  /** The offsets of the blocks in use. */
  ghost function UsedOffsets(bs: seq<Block>): set<nat> {
    set b | b in bs && b.used :: b.off
  }

  lemma {:induction false} Extent(bs: seq<Block>, end: nat, i: nat)
    requires Tiled(bs, end) && i < |bs|
    ensures bs[i].off % ALIGN == 0 && NextOff(bs, end, i) % ALIGN == 0
    ensures bs[i].off + HEADER <= NextOff(bs, end, i) <= end
    ensures i + 1 < |bs| ==> NextOff(bs, end, i) + HEADER <= end
  {
    assert Inside(bs, end, i) && (i + 1 < |bs| ==> Inside(bs, end, i + 1) && Before(bs, i, i + 1));
  }

  lemma {:induction false} Order(bs: seq<Block>, end: nat, i: nat, j: nat)
    requires Tiled(bs, end) && i < j < |bs|
    ensures bs[i].off + HEADER <= NextOff(bs, end, i) <= bs[j].off
  {
    assert Before(bs, i, i + 1) && Before(bs, i, j) && (i + 1 < j ==> Before(bs, i + 1, j));
  }

  /** Blocks do not overlap. */
  lemma {:induction false} Disjoint(bs: seq<Block>, end: nat, i: nat, j: nat)
    requires Tiled(bs, end) && i < |bs| && j < |bs| && i != j
    ensures i < j ==> bs[i].off + HEADER <= NextOff(bs, end, i) <= bs[j].off
    ensures j < i ==> bs[j].off + HEADER <= NextOff(bs, end, j) <= bs[i].off
  {
    if i < j { Order(bs, end, i, j); } else { Order(bs, end, j, i); }
  }

  // ----- the block operations -----

  function SetUse(bs: seq<Block>, i: nat, used: bool): seq<Block>
    requires i < |bs|
  {
    bs[i := Block(bs[i].off, used)]
  }

  function InsertFree(bs: seq<Block>, i: nat, off: nat): seq<Block>
    requires i <= |bs|
  {
    bs[..i] + [Block(off, false)] + bs[i..]
  }

  function Drop(bs: seq<Block>, i: nat): seq<Block>
    requires i < |bs|
  {
    bs[..i] + bs[i + 1..]
  }

  /** The near-fit test of rt_malloc: is there room for the remainder's header and a minimal payload? */
  predicate Splits(bs: seq<Block>, end: nat, i: nat, size: nat)
    requires i < |bs|
  {
    Payload(bs, end, i) >= size + HEADER + MIN_SIZE
  }

  /** Hand out block `i` for `size` bytes, splitting off the remainder when it is worth it. */
  function Allocated(bs: seq<Block>, end: nat, i: nat, size: nat): seq<Block>
    requires i < |bs|
  {
    if Splits(bs, end, i, size)
    then InsertFree(SetUse(bs, i, true), i + 1, bs[i].off + HEADER + size)
    else SetUse(bs, i, true)
  }

  /** Merge free block `i` with the block after it, if that is free. */
  function MergeNext(bs: seq<Block>, i: nat): seq<Block>
    requires i < |bs|
  {
    if i + 1 < |bs| && !bs[i + 1].used then Drop(bs, i + 1) else bs
  }

  /** Merge free block `i` into the block before it, if that is free. */
  function MergePrev(bs: seq<Block>, i: nat): seq<Block>
    requires i < |bs|
  {
    if i > 0 && !bs[i - 1].used then Drop(bs, i) else bs
  }

  function PlugHoles(bs: seq<Block>, i: nat): seq<Block>
    requires i < |bs|
  {
    MergePrev(MergeNext(bs, i), i)
  }

  function Freed(bs: seq<Block>, i: nat): seq<Block>
    requires i < |bs|
  {
    PlugHoles(SetUse(bs, i, false), i)
  }

  /** Cut used block `i` down to `size` bytes and free the rest. */
  function Shrunk(bs: seq<Block>, i: nat, size: nat): seq<Block>
    requires i < |bs|
  {
    PlugHoles(InsertFree(bs, i + 1, bs[i].off + HEADER + size), i + 1)
  }

  lemma ShrunkIs(bs: seq<Block>, i: nat, size: nat, p: nat)
    requires i < |bs| && p == bs[i].off + HEADER + size
    ensures Shrunk(bs, i, size) == PlugHoles(InsertFree(bs, i + 1, p), i + 1)
  {
  }

  // ----- first fit -----

  /** Block `i` is what the scan of rt_malloc accepts; mem_size_aligned is `end - HEADER`. */
  predicate Fits(bs: seq<Block>, end: nat, size: nat, i: nat)
    requires i < |bs|
  {
    !bs[i].used && Payload(bs, end, i) >= size && bs[i].off < end - HEADER - size
  }

  /** The first block at or after index `from` that fits, |bs| if there is none. */
  function FirstFit(bs: seq<Block>, end: nat, size: nat, from: nat): (r: nat)
    requires from <= |bs|
    ensures from <= r <= |bs|
    ensures r < |bs| ==> Fits(bs, end, size, r)
    ensures forall j :: from <= j < r ==> !Fits(bs, end, size, j)
    decreases |bs| - from
  {
    if from == |bs| || Fits(bs, end, size, from) then from else FirstFit(bs, end, size, from + 1)
  }

  /** rt_malloc fails exactly when every free block that is large enough is the last
      block and has exactly the size asked for: an exact fit flush with the heap end
      is the one fit the scan's strict bound rejects. */
  lemma NoFitExactly(bs: seq<Block>, end: nat, size: nat)
    requires Chain(bs, end)
    ensures FirstFit(bs, end, size, 0) == |bs| <==>
            forall i :: 0 <= i < |bs| && !bs[i].used && Payload(bs, end, i) >= size ==>
              i == |bs| - 1 && Payload(bs, end, i) == size
  {
    forall i | 0 <= i < |bs|
      ensures Fits(bs, end, size, i) <==> !bs[i].used && Payload(bs, end, i) >= size &&
                                          !(i == |bs| - 1 && Payload(bs, end, i) == size)
    {
      Extent(bs, end, i);
    }
  }

  /** Starting the scan at the lowest free block finds the same block as starting at offset 0. */
  lemma {:induction false} ScanFromLowestFree(bs: seq<Block>, end: nat, size: nat, from: nat)
    requires from <= |bs| && forall j :: 0 <= j < from ==> bs[j].used
    ensures FirstFit(bs, end, size, 0) == FirstFit(bs, end, size, from)
  {
    var a, b := FirstFit(bs, end, size, 0), FirstFit(bs, end, size, from);
    assert a < |bs| ==> from <= a;
    assert b < |bs| ==> a <= b;
  }

  // ----- the running summaries -----

  lemma {:induction false} LowestFreeIs(bs: seq<Block>, end: nat, i: nat)
    requires i <= |bs| && forall j :: 0 <= j < i ==> bs[j].used
    requires i < |bs| ==> !bs[i].used
    ensures LowestFree(bs, end) == if i < |bs| then bs[i].off else end
  {
    if i > 0 {
      assert bs[0].used;
      LowestFreeIs(bs[1..], end, i - 1);
    }
  }

  /** The index of the lowest free block, |bs| if all are used. */
  function LowestFreeIndex(bs: seq<Block>, end: nat): (i: nat)
    ensures i <= |bs| && forall j :: 0 <= j < i ==> bs[j].used
    ensures i < |bs| ==> !bs[i].used
    ensures LowestFree(bs, end) == if i < |bs| then bs[i].off else end
  {
    if bs == [] || !bs[0].used then 0
    else
      var i := LowestFreeIndex(bs[1..], end);
      assert forall j :: 1 <= j < i + 1 ==> bs[j] == bs[1..][j - 1];
      i + 1
  }

  /** A free block above the lowest one does not matter to the lowest-free pointer. */
  lemma {:induction false} LowestFreeDrop(bs: seq<Block>, end: nat, i: nat)
    requires 0 < i < |bs| && !bs[i - 1].used
    ensures LowestFree(Drop(bs, i), end) == LowestFree(bs, end)
  {
    var k := LowestFreeIndex(bs, end);
    assert k <= i - 1;
    LowestFreeIs(Drop(bs, i), end, k);
  }

  /** Freeing block `i` makes it the lowest free block exactly when it lies below the old one. */
  lemma {:induction false} LowestFreeSetFree(bs: seq<Block>, end: nat, i: nat)
    requires Tiled(bs, end) && i < |bs| && bs[i].used
    ensures LowestFree(SetUse(bs, i, false), end) ==
            if bs[i].off < LowestFree(bs, end) then bs[i].off else LowestFree(bs, end)
  {
    var k := LowestFreeIndex(bs, end);
    LowestFreeIs(SetUse(bs, i, false), end, if i < k then i else k);
    Extent(bs, end, i);
    if k < |bs| { Disjoint(bs, end, i, k); }
  }

  lemma {:induction false} LowestFreeInsertFree(bs: seq<Block>, end: nat, i: nat, off: nat)
    requires Tiled(bs, end) && i < |bs| && bs[i].used && bs[i].off < off < NextOff(bs, end, i)
    ensures LowestFree(InsertFree(bs, i + 1, off), end) ==
            if off < LowestFree(bs, end) then off else LowestFree(bs, end)
  {
    var k := LowestFreeIndex(bs, end);
    Extent(bs, end, i);
    if k < |bs| { Disjoint(bs, end, i, k); }
    LowestFreeIs(InsertFree(bs, i + 1, off), end, if k <= i then k else i + 1);
  }

  /** Handing out a block above the lowest free one leaves the lowest-free pointer alone. */
  lemma {:induction false} LowestFreeAllocated(bs: seq<Block>, end: nat, i: nat, size: nat)
    requires Tiled(bs, end) && i < |bs| && !bs[i].used && bs[i].off != LowestFree(bs, end)
    ensures LowestFree(Allocated(bs, end, i, size), end) == LowestFree(bs, end)
  {
    var k := LowestFreeIndex(bs, end);
    assert k < i;
    LowestFreeIs(Allocated(bs, end, i, size), end, k);
  }

  lemma LowestFreeAtMost(bs: seq<Block>, end: nat, i: nat)
    requires Tiled(bs, end) && i < |bs| && !bs[i].used
    ensures LowestFree(bs, end) <= bs[i].off
  {
    var k := LowestFreeIndex(bs, end);
    if k < i { Order(bs, end, k, i); }
  }

  lemma {:induction false} UsedBytesSplit(a: seq<Block>, b: seq<Block>, end: nat)
    ensures UsedBytes(a + b, end) == UsedBytes(a, if b == [] then end else b[0].off) + UsedBytes(b, end)
  {
    if a == [] {
      assert a + b == b;
    } else {
      UsedBytesSplit(a[1..], b, end);
      assert (a + b)[1..] == a[1..] + b;
    }
  }

  lemma UsedBytesOf(bs: seq<Block>, end: nat, i: nat)
    requires i < |bs|
    ensures UsedBytes(bs, end) == UsedBytes(bs[..i], bs[i].off) +
            (if bs[i].used then NextOff(bs, end, i) - bs[i].off else 0) + UsedBytes(bs[i + 1..], end)
  {
    assert bs == bs[..i] + bs[i..];
    UsedBytesSplit(bs[..i], bs[i..], end);
    assert bs[i..][1..] == bs[i + 1..];
  }

  lemma UsedBytesSetUse(bs: seq<Block>, end: nat, i: nat, used: bool)
    requires i < |bs|
    ensures UsedBytes(SetUse(bs, i, used), end) - UsedBytes(bs, end) ==
            ((if used then 1 else 0) - (if bs[i].used then 1 else 0)) * (NextOff(bs, end, i) - bs[i].off)
  {
    var c := SetUse(bs, i, used);
    UsedBytesOf(bs, end, i);
    UsedBytesOf(c, end, i);
    assert c[..i] == bs[..i] && c[i + 1..] == bs[i + 1..];
  }

  lemma UsedBytesInsertFree(bs: seq<Block>, end: nat, i: nat, off: nat)
    requires 0 < i <= |bs|
    ensures UsedBytes(InsertFree(bs, i, off), end) ==
            UsedBytes(bs, end) - (if bs[i - 1].used then NextOff(bs, end, i - 1) - off else 0)
  {
    var c := InsertFree(bs, i, off);
    UsedBytesOf(bs, end, i - 1);
    UsedBytesOf(c, end, i - 1);
    assert c[..i - 1] == bs[..i - 1] && c[i - 1 + 1..] == [Block(off, false)] + bs[i..];
    assert ([Block(off, false)] + bs[i..])[1..] == bs[i..];
  }

  lemma UsedBytesDrop(bs: seq<Block>, end: nat, i: nat)
    requires 0 < i < |bs| && !bs[i].used && !bs[i - 1].used
    ensures UsedBytes(Drop(bs, i), end) == UsedBytes(bs, end)
  {
    var c := Drop(bs, i);
    UsedBytesOf(bs, end, i - 1);
    UsedBytesOf(c, end, i - 1);
    assert c[..i - 1] == bs[..i - 1] && c[i - 1 + 1..] == bs[i + 1..];
    assert bs[i - 1 + 1..][1..] == bs[i + 1..];
  }

  lemma UsedBytesPlugHoles(bs: seq<Block>, end: nat, i: nat)
    requires i < |bs| && !bs[i].used
    ensures UsedBytes(PlugHoles(bs, i), end) == UsedBytes(bs, end)
  {
    if i + 1 < |bs| && !bs[i + 1].used {
      UsedBytesDrop(bs, end, i + 1);
    }
    var c := MergeNext(bs, i);
    if i > 0 && !c[i - 1].used {
      UsedBytesDrop(c, end, i);
    }
  }

  // ----- the chain invariant is kept by every operation -----

  lemma AlignedSum(off: nat, size: nat)
    requires off % ALIGN == 0 && size % ALIGN == 0
    ensures (off + HEADER + size) % ALIGN == 0
  {
    RemainderIs(off + HEADER + size, ALIGN, off / ALIGN + HEADER / ALIGN + size / ALIGN, 0);
  }

  lemma {:induction false} TiledSetUse(bs: seq<Block>, end: nat, i: nat, used: bool)
    requires Tiled(bs, end) && i < |bs|
    ensures Tiled(SetUse(bs, i, used), end)
  {
    var c := SetUse(bs, i, used);
    forall j: nat | j < |c| ensures Inside(c, end, j) {
      assert Inside(bs, end, j);
    }
    forall j: nat, k: nat | j < k < |c| ensures Before(c, j, k) {
      assert Before(bs, j, k);
    }
  }

  lemma {:induction false} TiledInsertFree(bs: seq<Block>, end: nat, i: nat, off: nat)
    requires Tiled(bs, end) && 0 < i <= |bs| && off % ALIGN == 0
    requires bs[i - 1].off + HEADER <= off <= NextOff(bs, end, i - 1) - HEADER
    ensures Tiled(InsertFree(bs, i, off), end)
  {
    var c := InsertFree(bs, i, off);
    forall j: nat | j < |c| ensures Inside(c, end, j) {
      Extent(bs, end, i - 1);
      if j != i { assert Inside(bs, end, if j < i then j else j - 1); }
    }
    forall j: nat, k: nat | j < k < |c| ensures Before(c, j, k) {
      if k == i {
        if j < i - 1 { Order(bs, end, j, i - 1); }
      } else if j == i {
        if i < k - 1 { Order(bs, end, i, k - 1); }
      } else {
        assert Before(bs, if j < i then j else j - 1, if k < i then k else k - 1);
      }
    }
  }

  lemma {:induction false} TiledDrop(bs: seq<Block>, end: nat, i: nat)
    requires Tiled(bs, end) && 0 < i < |bs|
    ensures Tiled(Drop(bs, i), end)
  {
    var c := Drop(bs, i);
    forall j: nat | j < |c| ensures Inside(c, end, j) {
      assert Inside(bs, end, if j < i then j else j + 1);
    }
    forall j: nat, k: nat | j < k < |c| ensures Before(c, j, k) {
      assert Before(bs, if j < i then j else j + 1, if k < i then k else k + 1);
    }
  }

  /** The only neighbours that may both be free are those involving block `i`. */
  ghost predicate CoalescedExceptAt(bs: seq<Block>, i: nat) {
    forall j: nat {:trigger FreePair(bs, j)} :: j + 1 < |bs| && j != i && j + 1 != i ==> !FreePair(bs, j)
  }

  lemma {:induction false} PlugHolesCoalesces(bs: seq<Block>, i: nat)
    requires i < |bs| && !bs[i].used && CoalescedExceptAt(bs, i)
    ensures Coalesced(PlugHoles(bs, i))
  {
    var c := MergeNext(bs, i);
    forall j: nat | j + 1 < |c| && j != i && j + 1 != i ensures !FreePair(c, j) {
      var g := if c != bs && j > i then j + 1 else j;
      assert !FreePair(bs, g);
    }
    assert i + 1 < |c| ==> c[i + 1].used by {
      assert i + 2 < |bs| ==> !FreePair(bs, i + 1);
    }
    var d := MergePrev(c, i);
    forall j: nat | j + 1 < |d| ensures !FreePair(d, j) {
      var g := if i > 0 && !c[i - 1].used && j >= i then j + 1 else j;
      assert g != i && g + 1 != i ==> !FreePair(c, g);
    }
  }

  lemma {:induction false} PlugHolesKeepsChain(bs: seq<Block>, end: nat, i: nat)
    requires Tiled(bs, end) && i < |bs| && !bs[i].used && CoalescedExceptAt(bs, i)
    ensures Chain(PlugHoles(bs, i), end)
    ensures UsedOffsets(PlugHoles(bs, i)) == UsedOffsets(bs)
  {
    PlugHolesCoalesces(bs, i);
    if i + 1 < |bs| && !bs[i + 1].used {
      TiledDrop(bs, end, i + 1);
      DropKeepsUsed(bs, i + 1);
    }
    var c := MergeNext(bs, i);
    if i > 0 && !c[i - 1].used {
      TiledDrop(c, end, i);
      DropKeepsUsed(c, i);
    }
  }

  lemma {:induction false} DropKeepsUsed(bs: seq<Block>, i: nat)
    requires i < |bs| && !bs[i].used
    ensures UsedOffsets(Drop(bs, i)) == UsedOffsets(bs)
  {
    var c := Drop(bs, i);
    forall b | b in bs && b.used ensures b in c {
      var k :| 0 <= k < |bs| && bs[k] == b;
      assert if k < i then c[k] == b else c[k - 1] == b;
    }
  }

  lemma {:induction false} InsertFreeCoalesced(bs: seq<Block>, i: nat, off: nat)
    requires i < |bs| && Coalesced(bs)
    ensures CoalescedExceptAt(InsertFree(bs, i + 1, off), i + 1)
    ensures !bs[i].used ==> Coalesced(InsertFree(SetUse(bs, i, true), i + 1, off))
  {
    var c := InsertFree(bs, i + 1, off);
    forall j: nat | j + 1 < |c| && j != i + 1 && j != i ensures !FreePair(c, j) {
      assert !FreePair(bs, if j < i then j else j - 1);
    }
    if !bs[i].used {
      var d := InsertFree(SetUse(bs, i, true), i + 1, off);
      forall j: nat | j + 1 < |d| ensures !FreePair(d, j) {
        assert j > i + 1 ==> !FreePair(bs, j - 1);
        assert j + 1 < i ==> !FreePair(bs, j);
        assert i + 1 < |bs| ==> !FreePair(bs, i);
      }
    }
  }

  /** rt_malloc keeps the chain. */
  lemma {:induction false} AllocatedKeepsChain(bs: seq<Block>, end: nat, i: nat, size: nat)
    requires Chain(bs, end) && size % ALIGN == 0 && i < |bs| && !bs[i].used && Payload(bs, end, i) >= size
    ensures Chain(Allocated(bs, end, i, size), end)
  {
    var u := SetUse(bs, i, true);
    assert Tiled(u, end) by { TiledSetUse(bs, end, i, true); }
    if Splits(bs, end, i, size) {
      var p := bs[i].off + HEADER + size;
      var c := InsertFree(u, i + 1, p);
      assert Allocated(bs, end, i, size) == c;
      assert Tiled(c, end) by {
        Extent(bs, end, i);
        AlignedSum(bs[i].off, size);
        TiledInsertFree(u, end, i + 1, p);
      }
      InsertFreeCoalesced(bs, i, p);
    } else {
      assert Allocated(bs, end, i, size) == u;
      forall j: nat | j + 1 < |u| ensures !FreePair(u, j) {
        assert !FreePair(bs, j);
      }
    }
  }

  /** What rt_malloc makes of free block `i`. If a header and a minimal payload, 12 bytes each, have room behind the
      `size` bytes asked for, it hands out exactly these and leaves a free block that reaches to the old end;
      otherwise it hands out the block as it is. The other blocks stay. */
  lemma {:induction false} AllocatedExactly(bs: seq<Block>, end: nat, i: nat, size: nat)
    requires i < |bs| && !bs[i].used && Payload(bs, end, i) >= size
    ensures var c, have := Allocated(bs, end, i, size), Payload(bs, end, i);
            && |c| == |bs| + (if have < size + 24 then 0 else 1)
            && c[..i] == bs[..i] && c[i] == Block(bs[i].off, true) && Payload(c, end, i) == AllocatedPayload(have, size)
            && (have < size + 24 ==> c[i + 1..] == bs[i + 1..])
            && (have >= size + 24 ==>
                  && c[i + 1] == Block(bs[i].off + 12 + size, false) && NextOff(c, end, i + 1) == NextOff(bs, end, i)
                  && c[i + 2..] == bs[i + 1..])
  {
  }

  /** How many of the `have` bytes of a block are handed out to whom asks for `size`. */
  function AllocatedPayload(have: int, size: nat): int {
    if have < size + 24 then have else size
  }

  /** rt_malloc charges exactly the extent it hands out. */
  lemma {:induction false} AllocatedCharges(bs: seq<Block>, end: nat, i: nat, size: nat)
    requires i < |bs| && !bs[i].used && Payload(bs, end, i) >= size
    ensures var c := Allocated(bs, end, i, size);
            |c| > i && c[i] == Block(bs[i].off, true) && Payload(c, end, i) >= size &&
            UsedBytes(c, end) == UsedBytes(bs, end) + NextOff(c, end, i) - c[i].off
  {
    UsedBytesSetUse(bs, end, i, true);
    if Splits(bs, end, i, size) {
      UsedBytesInsertFree(SetUse(bs, i, true), end, i + 1, bs[i].off + HEADER + size);
    }
  }

  /** rt_free keeps the chain and releases only the block it is given. */
  lemma {:induction false} FreedKeepsChain(bs: seq<Block>, end: nat, i: nat)
    requires Chain(bs, end) && i < |bs| && bs[i].used
    ensures Chain(Freed(bs, i), end)
    ensures UsedOffsets(Freed(bs, i)) == UsedOffsets(bs) - {bs[i].off}
  {
    var c := SetUse(bs, i, false);
    TiledSetUse(bs, end, i, false);
    SetFreeCoalesced(bs, i);
    PlugHolesKeepsChain(c, end, i);
    SetFreeOffsets(bs, end, i);
  }

  lemma {:induction false} SetFreeCoalesced(bs: seq<Block>, i: nat)
    requires i < |bs| && Coalesced(bs)
    ensures CoalescedExceptAt(SetUse(bs, i, false), i)
  {
    forall j: nat | j + 1 < |bs| && j != i && j + 1 != i ensures !FreePair(SetUse(bs, i, false), j) {
      assert !FreePair(bs, j);
    }
  }

  lemma {:induction false} SetFreeOffsets(bs: seq<Block>, end: nat, i: nat)
    requires Tiled(bs, end) && i < |bs| && bs[i].used
    ensures UsedOffsets(SetUse(bs, i, false)) == UsedOffsets(bs) - {bs[i].off}
  {
    var c := SetUse(bs, i, false);
    forall b | b in bs && b.used && b.off != bs[i].off ensures b in c {
      var k :| 0 <= k < |bs| && bs[k] == b;
      assert c[k] == b;
    }
    forall b | b in c && b.used ensures b in bs && b.off != bs[i].off {
      var k :| 0 <= k < |c| && c[k] == b;
      Disjoint(bs, end, i, k);
      assert bs[k] == b;
    }
  }

  /** rt_free gives back exactly the block's extent. */
  lemma {:induction false} FreedReturns(bs: seq<Block>, end: nat, i: nat)
    requires i < |bs| && bs[i].used
    ensures UsedBytes(Freed(bs, i), end) == UsedBytes(bs, end) - (NextOff(bs, end, i) - bs[i].off)
  {
    UsedBytesSetUse(bs, end, i, false);
    UsedBytesPlugHoles(SetUse(bs, i, false), end, i);
  }

  /** The splitting branch of rt_realloc keeps the chain and the set of live blocks. */
  lemma {:induction false} ShrunkKeepsChain(bs: seq<Block>, end: nat, i: nat, size: nat)
    requires Chain(bs, end) && i < |bs| && bs[i].used && size % ALIGN == 0
    requires size + HEADER <= Payload(bs, end, i)
    ensures Chain(Shrunk(bs, i, size), end)
    ensures UsedOffsets(Shrunk(bs, i, size)) == UsedOffsets(bs)
  {
    var p := bs[i].off + HEADER + size;
    var c := InsertFree(bs, i + 1, p);
    Extent(bs, end, i);
    AlignedSum(bs[i].off, size);
    assert Shrunk(bs, i, size) == PlugHoles(c, i + 1);
    assert Tiled(c, end) by { TiledInsertFree(bs, end, i + 1, p); }
    assert CoalescedExceptAt(c, i + 1) by { InsertFreeCoalesced(bs, i, p); }
    assert UsedOffsets(c) == UsedOffsets(bs) by { InsertFreeKeepsUsed(bs, i + 1, p); }
    assert c[i + 1] == Block(p, false);
    PlugHolesKeepsChain(c, end, i + 1);
  }

  lemma {:induction false} InsertFreeKeepsUsed(bs: seq<Block>, i: nat, off: nat)
    requires i <= |bs|
    ensures UsedOffsets(InsertFree(bs, i, off)) == UsedOffsets(bs)
  {
    var c := InsertFree(bs, i, off);
    assert Drop(c, i) == bs;
    DropKeepsUsed(c, i);
  }

  /** ... and returns exactly the bytes it cuts off. */
  lemma {:induction false} ShrunkReturns(bs: seq<Block>, end: nat, i: nat, size: nat)
    requires i < |bs| && bs[i].used && size + HEADER <= Payload(bs, end, i)
    ensures UsedBytes(Shrunk(bs, i, size), end) == UsedBytes(bs, end) - (Payload(bs, end, i) - size)
  {
    var p := bs[i].off + HEADER + size;
    UsedBytesInsertFree(bs, end, i + 1, p);
    UsedBytesPlugHoles(InsertFree(bs, i + 1, p), end, i + 1);
  }

  // ----- live payloads stay live payloads under every operation on other blocks -----

  lemma {:induction false} LiveSetUse(bs: seq<Block>, end: nat, i: nat, used: bool, k: int)
    requires i < |bs| && LivePayload(bs, end, bs[i].off, k)
    ensures LivePayload(SetUse(bs, i, used), end, bs[i].off, k)
  {
    var j: nat :| InPayload(bs, end, j, k) && bs[j].used && bs[j].off != bs[i].off;
    assert InPayload(SetUse(bs, i, used), end, j, k);
  }

  lemma {:induction false} LiveInsertFree(bs: seq<Block>, end: nat, i: nat, off: nat, k: int)
    requires i < |bs| && LivePayload(bs, end, bs[i].off, k)
    ensures LivePayload(InsertFree(bs, i + 1, off), end, bs[i].off, k)
  {
    var j: nat :| InPayload(bs, end, j, k) && bs[j].used && bs[j].off != bs[i].off;
    assert InPayload(InsertFree(bs, i + 1, off), end, if j < i then j else j + 1, k);
  }

  /** Cutting block `i` at `off` leaves every other live payload and the part below `off` live. */
  lemma {:induction false} LiveAfterCut(bs: seq<Block>, end: nat, i: nat, off: nat)
    requires i < |bs| && bs[i].used
    ensures var c := InsertFree(bs, i + 1, off);
            (forall k :: LivePayload(bs, end, bs[i].off, k) ==> LivePayload(c, end, -1, k)) &&
            (forall k :: bs[i].off + HEADER <= k < off ==> LivePayload(c, end, -1, k))
  {
    var c := InsertFree(bs, i + 1, off);
    forall k | LivePayload(bs, end, bs[i].off, k) ensures LivePayload(c, end, -1, k) {
      LiveInsertFree(bs, end, i, off, k);
    }
    forall k | bs[i].off + HEADER <= k < off ensures LivePayload(c, end, -1, k) {
      assert InPayload(c, end, i, k);
    }
  }

  lemma {:induction false} LiveDrop(bs: seq<Block>, end: nat, i: nat, except: int, k: int)
    requires 0 < i < |bs| && !bs[i].used && !bs[i - 1].used && LivePayload(bs, end, except, k)
    ensures LivePayload(Drop(bs, i), end, except, k)
  {
    var j: nat :| InPayload(bs, end, j, k) && bs[j].used && bs[j].off != except;
    assert InPayload(Drop(bs, i), end, if j < i then j else j - 1, k);
  }

  /** Handing out a free block leaves every live payload live. */
  lemma {:induction false} LiveAfterTake(bs: seq<Block>, end: nat, i: nat)
    requires Tiled(bs, end) && i < |bs| && !bs[i].used
    ensures forall k :: LivePayload(bs, end, -1, k) ==> LivePayload(SetUse(bs, i, true), end, bs[i].off, k)
  {
    forall k | LivePayload(bs, end, -1, k) ensures LivePayload(SetUse(bs, i, true), end, bs[i].off, k) {
      var j: nat :| InPayload(bs, end, j, k) && bs[j].used;
      Disjoint(bs, end, i, j);
      LiveSetUse(bs, end, i, true, k);
    }
  }

  lemma {:induction false} LiveAllocated(bs: seq<Block>, end: nat, i: nat, size: nat, except: int, k: int)
    requires i < |bs| && !bs[i].used && LivePayload(bs, end, except, k)
    ensures LivePayload(Allocated(bs, end, i, size), end, except, k)
  {
    var j: nat :| InPayload(bs, end, j, k) && bs[j].used && bs[j].off != except;
    var cs := Allocated(bs, end, i, size);
    if Splits(bs, end, i, size) && j > i {
      assert cs[j + 1] == bs[j];
      assert InPayload(cs, end, j + 1, k);
    } else {
      assert j != i;
      assert cs[j] == bs[j];
      assert InPayload(cs, end, j, k);
    }
  }

  /** Handing out free block `i` moves no block in use. */
  lemma {:induction false} AllocatedKeepsBlock(bs: seq<Block>, end: nat, i: nat, size: nat, j: nat) returns (k: nat)
    requires i < |bs| && !bs[i].used && j < |bs| && bs[j].used
    ensures var c := Allocated(bs, end, i, size);
            k < |c| && c[k] == bs[j] && NextOff(c, end, k) == NextOff(bs, end, j)
  {
    k := if Splits(bs, end, i, size) && j > i then j + 1 else j;
  }

  /** Handing out free block `i` adds its offset to those in use. */
  lemma {:induction false} AllocatedOffsets(bs: seq<Block>, end: nat, i: nat, size: nat)
    requires i < |bs| && !bs[i].used && Payload(bs, end, i) >= size
    ensures UsedOffsets(Allocated(bs, end, i, size)) == UsedOffsets(bs) + {bs[i].off}
  {
    var u := SetUse(bs, i, true);
    assert u[i] in u;
    forall b | b in bs && b.used ensures b in u {
      var k :| 0 <= k < |bs| && bs[k] == b;
      assert u[k] == b;
    }
    forall b | b in u && b.used ensures b in bs || b.off == bs[i].off {
      var k :| 0 <= k < |u| && u[k] == b;
      assert k != i ==> bs[k] == b;
    }
    if Splits(bs, end, i, size) {
      InsertFreeKeepsUsed(u, i + 1, bs[i].off + HEADER + size);
    }
  }

  /** Freeing block `i` neither moves nor resizes another block in use. */
  lemma {:induction false} FreedKeepsBlock(bs: seq<Block>, end: nat, i: nat, j: nat) returns (k: nat)
    requires i < |bs| && j < |bs| && bs[j].used && j != i
    ensures var c := Freed(bs, i);
            k < |c| && c[k] == bs[j] && NextOff(c, end, k) == NextOff(bs, end, j)
  {
    var c := SetUse(bs, i, false);
    k := j;
    if i + 1 < |c| && !c[i + 1].used {
      k := DropKeepsBlock(c, end, i + 1, k);
    }
    var d := MergeNext(c, i);
    if i > 0 && !d[i - 1].used {
      k := DropKeepsBlock(d, end, i, k);
    }
  }

  /** Merging free block `i` into the free one before it neither moves nor resizes a block in use. */
  lemma {:induction false} DropKeepsBlock(bs: seq<Block>, end: nat, i: nat, j: nat) returns (k: nat)
    requires 0 < i < |bs| && !bs[i].used && !bs[i - 1].used && j < |bs| && bs[j].used
    ensures var c := Drop(bs, i);
            k < |c| && c[k] == bs[j] && NextOff(c, end, k) == NextOff(bs, end, j)
  {
    k := if j < i then j else j - 1;
  }

  /** Cutting block `i` in place leaves it exactly `size` bytes. */
  lemma {:induction false} ShrunkExactly(bs: seq<Block>, end: nat, i: nat, size: nat)
    requires i < |bs| && bs[i].used
    ensures var c := Shrunk(bs, i, size); i < |c| && c[i] == bs[i] && Payload(c, end, i) == size
  {
  }

  lemma {:induction false} FreePayloadNotLive(bs: seq<Block>, end: nat, i: nat)
    requires Tiled(bs, end) && i < |bs| && !bs[i].used
    ensures forall k: int :: InPayload(bs, end, i, k) ==> !LivePayload(bs, end, -1, k)
  {
    forall k: int, j: nat | InPayload(bs, end, i, k) && j < |bs| && bs[j].used ensures !InPayload(bs, end, j, k) {
      Disjoint(bs, end, i, j);
    }
  }
}
