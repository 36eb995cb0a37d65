/** In-place updates of the header chain of mem.c, each proved against the block
    operation it performs. */
module HeapChain {
  import opened HeapMemory
  import opened HeapBlocks
  import opened RtDef

  /** What the header of block `i` holds; the first block is its own predecessor. */
  function HeaderOf(bs: seq<Block>, end: nat, i: nat): Header
    requires i < |bs|
  {
    Header(MAGIC, if bs[i].used then 1 else 0, NextOff(bs, end, i), if i == 0 then 0 else bs[i - 1].off)
  }

  /** The header at block `i` is the one the chain calls for. */
  ghost predicate Matches(h: seq<Header>, bs: seq<Block>, end: nat, i: nat) {
    i < |bs| && bs[i].off < |h| && h[bs[i].off] == HeaderOf(bs, end, i)
  }

  /** The headers `h` (one per offset) describe `bs`. The `prev` of heap_end is not maintained. */
  ghost predicate Describe(h: seq<Header>, bs: seq<Block>, end: nat) {
    && Tiled(bs, end) && |h| == end + 1
    && h[end].magic == MAGIC && h[end].used == 1 && h[end].next == end
    && forall i: nat {:trigger Matches(h, bs, end, i)} :: i < |bs| ==> Matches(h, bs, end, i)
  }

  /** The headers agree at every offset that overlaps none of `a`, `b`, `c`. */
  ghost predicate AgreeExcept(h: seq<Header>, g: seq<Header>, a: nat, b: nat, c: nat) {
    |h| == |g| && forall o {:trigger g[o]} :: 0 <= o < |g| && Apart(o, a) && Apart(o, b) && Apart(o, c) ==> g[o] == h[o]
  }

  predicate Apart(o: nat, p: nat) {
    o + HEADER <= p || p + HEADER <= o
  }

  lemma {:induction false} DescribeSetUse(h: seq<Header>, g: seq<Header>, bs: seq<Block>, end: nat, i: nat, used: bool)
    requires Describe(h, bs, end) && Matches(h, bs, end, i) && |g| == |h|
    requires AgreeExcept(h, g, bs[i].off, bs[i].off, bs[i].off)
    requires g[bs[i].off] == h[bs[i].off].(magic := MAGIC, used := if used then 1 else 0)
    ensures Describe(g, SetUse(bs, i, used), end)
  {
    var c := SetUse(bs, i, used);
    TiledSetUse(bs, end, i, used);
    Extent(bs, end, i);
    forall j: nat | j < |c| ensures Matches(g, c, end, j) {
      assert Matches(h, bs, end, j);
      if j != i { Disjoint(bs, end, i, j); }
    }
  }

  /** The headers `g` result from `h` by linking a free block at `p` between those at `o` and `next`. */
  ghost predicate Linked(h: seq<Header>, g: seq<Header>, o: nat, p: nat, next: nat, end: nat) {
    && |h| == |g| == end + 1 && o < p < next <= end
    && AgreeExcept(h, g, o, p, next)
    && g[p] == Header(MAGIC, 0, next, o) && g[o] == h[o].(next := p)
    && g[next] == if next == end then h[end] else h[next].(prev := p)
  }

  lemma {:induction false} DescribeInsertFree(h: seq<Header>, g: seq<Header>, bs: seq<Block>, end: nat, i: nat, p: nat)
    requires Describe(h, bs, end) && i < |bs| && p % ALIGN == 0
    requires bs[i].off + HEADER <= p <= NextOff(bs, end, i) - HEADER
    requires Linked(h, g, bs[i].off, p, NextOff(bs, end, i), end)
    ensures Describe(g, InsertFree(bs, i + 1, p), end)
  {
    var c := InsertFree(bs, i + 1, p);
    TiledInsertFree(bs, end, i + 1, p);
    Extent(bs, end, i);
    forall j: nat | j < |c| ensures Matches(g, c, end, j) {
      if j != i + 1 {
        var k := if j <= i then j else j - 1;
        assert Matches(h, bs, end, k);
        if k != i { Disjoint(bs, end, i, k); }
        if k > i + 1 { Disjoint(bs, end, i + 1, k); }
      }
    }
  }

  /** The headers `g` result from `h` by pointing the block at `o` past its successor to `next`. */
  ghost predicate Unlinked(h: seq<Header>, g: seq<Header>, o: nat, next: nat, end: nat) {
    && |h| == |g| == end + 1 && o < next <= end
    && AgreeExcept(h, g, o, o, next)
    && g[o] == h[o].(next := next) && g[next] == h[next].(prev := o)
  }

  /** Dropping block `i + 1` from the chain, as plug_holes does. */
  lemma {:induction false} DescribeDrop(h: seq<Header>, g: seq<Header>, bs: seq<Block>, end: nat, i: nat)
    requires Describe(h, bs, end) && i + 1 < |bs|
    requires Unlinked(h, g, bs[i].off, NextOff(bs, end, i + 1), end)
    ensures Describe(g, Drop(bs, i + 1), end)
  {
    var c := Drop(bs, i + 1);
    TiledDrop(bs, end, i + 1);
    Extent(bs, end, i);
    Extent(bs, end, i + 1);
    forall j: nat | j < |c| ensures Matches(g, c, end, j) {
      var k := if j <= i then j else j + 1;
      assert Matches(h, bs, end, k);
      if k != i { Disjoint(bs, end, i, k); Disjoint(bs, end, i + 1, k); }
      if k > i + 2 { Disjoint(bs, end, i + 2, k); }
    }
  }

  // ----- the same on the memory itself -----

  /** All headers one could read from memory, indexed by offset. */
  ghost function Headers(mem: array<byte>): (h: seq<Header>)
    requires mem.Length >= HEADER
    reads mem
    ensures |h| == mem.Length - HEADER + 1
    ensures forall o: nat {:trigger h[o]} {:trigger HeaderAt(mem, o)} :: o < |h| ==> h[o] == HeaderAt(mem, o)
  {
    seq(mem.Length - HEADER + 1, o requires 0 <= o <= mem.Length - HEADER reads mem => HeaderAt(mem, o))
  }

  /** The headers in memory describe `bs`. */
  ghost predicate Describes(mem: array<byte>, bs: seq<Block>, end: nat)
    reads mem
  {
    mem.Length == end + HEADER < WORD && Describe(Headers(mem), bs, end)
  }

  /** No byte of a live payload differs between `s` and `t`, except in the block at offset `except`. */
  ghost predicate Kept(s: seq<byte>, t: seq<byte>, bs: seq<Block>, end: nat, except: int) {
    |s| == |t| && forall k: nat {:trigger t[k]} :: k < |t| && LivePayload(bs, end, except, k) ==> t[k] == s[k]
  }

  /** The `n` bytes of `t` at `dst` are those of `s` at `src`. */
  ghost predicate SameBytes(s: seq<byte>, src: int, t: seq<byte>, dst: int, n: int) {
    && 0 <= src <= src + n <= |s| && 0 <= dst <= dst + n <= |t|
    && forall k {:trigger t[k]} :: dst <= k < dst + n ==> t[k] == s[k - dst + src]
  }

  lemma {:induction false} KeptTwice(r: seq<byte>, s: seq<byte>, t: seq<byte>,
                                     bs: seq<Block>, cs: seq<Block>, end: nat, e: int, f: int)
    requires Kept(r, s, bs, end, e) && Kept(s, t, cs, end, f)
    requires forall k: nat :: LivePayload(bs, end, e, k) ==> LivePayload(cs, end, f, k)
    ensures Kept(r, t, bs, end, e)
  {
  }

  lemma {:induction false} KeptRange(s: seq<byte>, t: seq<byte>, bs: seq<Block>, end: nat, e: int, lo: nat, hi: nat)
    requires Kept(s, t, bs, end, e) && lo <= hi <= |s|
    requires forall k: nat :: lo <= k < hi ==> LivePayload(bs, end, e, k)
    ensures SameBytes(s, lo, t, lo, hi - lo)
  {
  }

  /** An address in a payload lies outside every header, that of heap_end (index |bs|) included. */
  lemma {:induction false} HeaderApart(bs: seq<Block>, end: nat, i: nat, j: nat, k: nat)
    requires Tiled(bs, end) && i <= |bs| && InPayload(bs, end, j, k)
    ensures k < HeaderOffset(bs, end, i) || HeaderOffset(bs, end, i) + HEADER <= k
  {
    Extent(bs, end, j);
    if i < |bs| && i != j { Disjoint(bs, end, i, j); }
  }

  /** The offset of header `i`; that of heap_end is header |bs|. */
  function HeaderOffset(bs: seq<Block>, end: nat, i: nat): nat {
    if i < |bs| then bs[i].off else end
  }

  /** Overwriting headers `i` and `j` touches no live payload. */
  lemma {:induction false} HeaderWritesKeep(s: seq<byte>, t: seq<byte>, bs: seq<Block>, end: nat, i: nat, j: nat)
    requires Tiled(bs, end) && i <= |bs| && j <= |bs| && |s| == |t|
    requires forall k {:trigger t[k]} ::
               0 <= k < |t| && !(HeaderOffset(bs, end, i) <= k < HeaderOffset(bs, end, i) + HEADER) &&
               !(HeaderOffset(bs, end, j) <= k < HeaderOffset(bs, end, j) + HEADER) ==>
                 t[k] == s[k]
    ensures Kept(s, t, bs, end, -1)
  {
    forall k: nat | k < |t| && LivePayload(bs, end, -1, k) ensures t[k] == s[k] {
      var l: nat :| InPayload(bs, end, l, k);
      HeaderApart(bs, end, i, l, k);
      HeaderApart(bs, end, j, l, k);
    }
  }

  /** Set the used flag of block `i`. */
  method Mark(mem: array<byte>, ghost bs: seq<Block>, end: nat, ghost i: nat, ptr: nat, used: bool)
    requires Describes(mem, bs, end) && i < |bs| && ptr == bs[i].off
    modifies mem
    ensures Describes(mem, SetUse(bs, i, used), end)
    ensures Kept(old(mem[..]), mem[..], bs, end, -1)
  {
    ghost var h := Headers(mem);
    Extent(bs, end, i);
    assert Matches(h, bs, end, i);
    SetUsed(mem, ptr, if used then 1 else 0);
    SetMagic(mem, ptr);
    DescribeSetUse(h, Headers(mem), bs, end, i, used);
    HeaderWritesKeep(old(mem[..]), mem[..], bs, end, i, i);
  }

  /** The writes that create a free block at `ptr2` between those at `ptr` and `next`. */
  method LinkBlock(mem: array<byte>, end: nat, ptr: nat, ptr2: nat, next: nat)
    requires mem.Length == end + HEADER < WORD && ptr + HEADER <= ptr2 && ptr2 + HEADER <= next <= end
    requires HeaderAt(mem, ptr).next == next
    modifies mem
    ensures Linked(old(Headers(mem)), Headers(mem), ptr, ptr2, next, end)
    ensures forall k {:trigger mem[k]} ::
              0 <= k < mem.Length && !(ptr <= k < ptr + HEADER) &&
              !(ptr2 <= k < ptr2 + HEADER) && !(next <= k < next + HEADER) ==>
                mem[k] == old(mem[k])
  {
    WriteHeader(mem, ptr2, 0, next, ptr);
    SetNext(mem, ptr, ptr2);
    if next != end {
      SetPrev(mem, next, ptr2);
    }
  }

  /** Split block `i` at `ptr2`, as rt_malloc and rt_realloc do. */
  method InsertBlock(mem: array<byte>, ghost bs: seq<Block>, end: nat, ghost i: nat, ptr: nat, ptr2: nat)
    requires Describes(mem, bs, end) && i < |bs| && ptr == bs[i].off
    requires ptr2 % ALIGN == 0 && ptr + HEADER <= ptr2 <= NextOff(bs, end, i) - HEADER
    modifies mem
    ensures Describes(mem, InsertFree(bs, i + 1, ptr2), end)
    ensures Kept(old(mem[..]), mem[..], bs, end, ptr)
    ensures forall k :: ptr + HEADER <= k < ptr2 && k < mem.Length ==> mem[k] == old(mem[k])
  {
    ghost var h := Headers(mem);
    Extent(bs, end, i);
    assert Matches(h, bs, end, i);
    var next := HeaderAt(mem, ptr).next;
    LinkBlock(mem, end, ptr, ptr2, next);
    DescribeInsertFree(h, Headers(mem), bs, end, i, ptr2);
    LinkKeeps(old(mem[..]), mem[..], bs, end, i, ptr2);
  }

  /** Overwriting the headers of blocks `i` and `i + 1` and 12 bytes at `p` inside block `i`
      touches no live payload but that of block `i`. */
  lemma {:induction false} LinkKeeps(s: seq<byte>, t: seq<byte>, bs: seq<Block>, end: nat, i: nat, p: nat)
    requires Tiled(bs, end) && i < |bs| && bs[i].off + HEADER <= p <= NextOff(bs, end, i) - HEADER
    requires |s| == |t|
    requires forall k {:trigger t[k]} ::
               0 <= k < |t| && !(bs[i].off <= k < bs[i].off + HEADER) && !(p <= k < p + HEADER) &&
               !(NextOff(bs, end, i) <= k < NextOff(bs, end, i) + HEADER) ==>
                 t[k] == s[k]
    ensures Kept(s, t, bs, end, bs[i].off)
  {
    forall k: nat | k < |t| && LivePayload(bs, end, bs[i].off, k) ensures t[k] == s[k] {
      var j: nat :| InPayload(bs, end, j, k) && bs[j].off != bs[i].off;
      HeaderApart(bs, end, i, j, k);
      HeaderApart(bs, end, i + 1, j, k);
      Disjoint(bs, end, i, j);
    }
  }

  /** The writes that let the block at `ptr` reach up to `next`. */
  method UnlinkBlock(mem: array<byte>, end: nat, ptr: nat, next: nat)
    requires mem.Length == end + HEADER < WORD && ptr + HEADER <= next <= end
    modifies mem
    ensures Unlinked(old(Headers(mem)), Headers(mem), ptr, next, end)
    ensures forall k {:trigger mem[k]} ::
              0 <= k < mem.Length && !(ptr <= k < ptr + HEADER) && !(next <= k < next + HEADER) ==>
                mem[k] == old(mem[k])
  {
    SetNext(mem, ptr, next);
    SetPrev(mem, next, ptr);
  }

  /** Merge block `i + 1`, which starts at `ptr2`, into block `i`. */
  method MergeBlock(mem: array<byte>, ghost bs: seq<Block>, end: nat, ghost i: nat, ptr: nat, ptr2: nat)
    requires Describes(mem, bs, end) && i + 1 < |bs| && ptr == bs[i].off && ptr2 == bs[i + 1].off
    modifies mem
    ensures Describes(mem, Drop(bs, i + 1), end)
    ensures Kept(old(mem[..]), mem[..], bs, end, -1)
  {
    ghost var h := Headers(mem);
    Extent(bs, end, i);
    Extent(bs, end, i + 1);
    assert Matches(h, bs, end, i + 1);
    var next := HeaderAt(mem, ptr2).next;
    UnlinkBlock(mem, end, ptr, next);
    DescribeDrop(h, Headers(mem), bs, end, i);
    HeaderWritesKeep(old(mem[..]), mem[..], bs, end, i, i + 2);
  }

  // ----- the moving branch of rt_realloc -----

  /** `o` is the offset of the payload of block `i`, which has at least `n` bytes. */
  ghost predicate PayloadAt(bs: seq<Block>, end: nat, i: nat, o: int, n: nat) {
    i < |bs| && o == bs[i].off + HEADER && n <= Payload(bs, end, i)
  }

  lemma {:induction false} MoveRangesApart(bs: seq<Block>, end: nat, i: nat, j: nat, src: int, dst: int, n: nat)
    requires Tiled(bs, end) && i != j && PayloadAt(bs, end, i, src, n) && PayloadAt(bs, end, j, dst, n)
    ensures src + n <= dst || dst + n <= src
  {
    Disjoint(bs, end, i, j);
  }

  /** Allocating block `j` (r to s) and copying `n` bytes of block `i` into it (s to t). */
  lemma {:induction false} CopyKeeps(r: seq<byte>, s: seq<byte>, t: seq<byte>,
                                     bs: seq<Block>, end: nat, i: nat, j: nat, src: int, dst: int, n: nat)
    requires Tiled(bs, end) && PayloadAt(bs, end, i, src, n) && PayloadAt(bs, end, j, dst, n)
    requires bs[i].used && !bs[j].used && |r| >= end
    requires Kept(r, s, bs, end, -1) && |s| == |t| && SameBytes(s, src, t, dst, n)
    requires forall k :: 0 <= k < |t| && !(dst <= k < dst + n) ==> t[k] == s[k]
    ensures SameBytes(r, src, t, dst, n) && Kept(r, t, bs, end, src - HEADER)
  {
    forall k: nat | src <= k < src + n ensures LivePayload(bs, end, -1, k) {
      assert InPayload(bs, end, i, k);
    }
    KeptRange(r, s, bs, end, -1, src, src + n);
    FreePayloadNotLive(bs, end, j);
    forall k: nat | k < |t| && LivePayload(bs, end, src - HEADER, k) ensures t[k] == r[k] {
      assert dst <= k < dst + n ==> InPayload(bs, end, j, k);
      assert s[k] == r[k];
    }
  }

  /** ... and then freeing block `i` (s to t, where s is the memory after the copy). */
  lemma {:induction false} MoveKeeps(r: seq<byte>, s: seq<byte>, t: seq<byte>, bs: seq<Block>, cs: seq<Block>,
                                     end: nat, i: nat, j: nat, size: nat, src: int, dst: int, n: nat)
    requires Tiled(bs, end) && PayloadAt(bs, end, i, src, n) && PayloadAt(bs, end, j, dst, size)
    requires bs[i].used && !bs[j].used && n <= size && cs == Allocated(bs, end, j, size)
    requires Kept(r, s, bs, end, src - HEADER) && Kept(s, t, cs, end, src - HEADER)
    requires SameBytes(r, src, s, dst, n)
    ensures Kept(r, t, bs, end, src - HEADER) && SameBytes(r, src, t, dst, n)
  {
    var e := src - HEADER;
    forall k: nat | LivePayload(bs, end, e, k) ensures LivePayload(cs, end, e, k) {
      LiveAllocated(bs, end, j, size, e, k);
    }
    KeptTwice(r, s, t, bs, cs, end, e, e);
    forall k: nat | dst <= k < dst + n ensures LivePayload(cs, end, e, k) {
      Disjoint(bs, end, i, j);
      assert InPayload(cs, end, j, k);
    }
    KeptRange(s, t, cs, end, e, dst, dst + n);
  }
}
