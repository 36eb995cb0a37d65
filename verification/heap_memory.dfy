/** Raw heap memory of mem.c: a byte array with block headers stored in it.

    A header (struct heap_mem on the 32-bit target) takes 12 bytes:
    magic:16, used:16, next:32, prev:32, little endian. */
module HeapMemory {
  import opened RtDef

  type byte = b: int | 0 <= b < 256

  const HEADER: nat := 12           // SIZEOF_STRUCT_MEM
  const MAGIC: nat := 0x1ea0        // HEAP_MAGIC

  datatype Header = Header(magic: nat, used: nat, next: nat, prev: nat)

  function Half(mem: array<byte>, o: nat): nat
    requires o + 2 <= mem.Length
    reads mem
  {
    (mem[o] as int) + 256 * (mem[o + 1] as int)
  }

  function Word(mem: array<byte>, o: nat): nat
    requires o + 4 <= mem.Length
    reads mem
  {
    (mem[o] as int) + 256 * (mem[o + 1] as int) + 65536 * (mem[o + 2] as int) + 16777216 * (mem[o + 3] as int)
  }

  /** The header stored at offset `o`. */
  function HeaderAt(mem: array<byte>, o: nat): Header
    requires o + HEADER <= mem.Length
    reads mem
  {
    Header(Half(mem, o), Half(mem, o + 2), Word(mem, o + 4), Word(mem, o + 8))
  }

  /** Every header that does not overlap the one at `o` is what it was. */
  twostate predicate OtherHeadersKept(mem: array<byte>, o: nat)
    reads mem
  {
    forall p: nat {:trigger HeaderAt(mem, p)} ::
      p + HEADER <= mem.Length && (p + HEADER <= o || o + HEADER <= p) ==>
        HeaderAt(mem, p) == old(HeaderAt(mem, p))
  }

  /** Every byte outside [lo, hi) is what it was. */
  twostate predicate BytesKept(mem: array<byte>, lo: int, hi: int)
    reads mem
  {
    forall k {:trigger mem[k]} :: 0 <= k < mem.Length && !(lo <= k < hi) ==> mem[k] == old(mem[k])
  }

  lemma WordDigits(v: nat)
    requires v < WORD
    ensures v / 16777216 < 256
    ensures v == v % 256 + 256 * (v / 256 % 256) + 65536 * (v / 65536 % 256) + 16777216 * (v / 16777216)
  {
    assert v / 65536 == v / 256 / 256;
    assert v / 16777216 == v / 256 / 256 / 256;
  }

  method WriteWord(mem: array<byte>, o: nat, v: nat)
    requires o + 4 <= mem.Length && v < WORD
    modifies mem
    ensures Word(mem, o) == v
    ensures BytesKept(mem, o, o + 4)
  {
    WordDigits(v);
    mem[o], mem[o + 1], mem[o + 2], mem[o + 3] := v % 256, v / 256 % 256, v / 65536 % 256, v / 16777216;
  }

  method WriteHalf(mem: array<byte>, o: nat, v: nat)
    requires o + 2 <= mem.Length && v < 65536
    modifies mem
    ensures Half(mem, o) == v
    ensures BytesKept(mem, o, o + 2)
  {
    mem[o], mem[o + 1] := v % 256, v / 256;
  }

  method SetNext(mem: array<byte>, o: nat, v: nat)
    requires o + HEADER <= mem.Length && v < WORD
    modifies mem
    ensures HeaderAt(mem, o) == old(HeaderAt(mem, o)).(next := v)
    ensures OtherHeadersKept(mem, o) && BytesKept(mem, o, o + HEADER)
  {
    WriteWord(mem, o + 4, v);
  }

  method SetPrev(mem: array<byte>, o: nat, v: nat)
    requires o + HEADER <= mem.Length && v < WORD
    modifies mem
    ensures HeaderAt(mem, o) == old(HeaderAt(mem, o)).(prev := v)
    ensures OtherHeadersKept(mem, o) && BytesKept(mem, o, o + HEADER)
  {
    WriteWord(mem, o + 8, v);
  }

  method SetUsed(mem: array<byte>, o: nat, v: nat)
    requires o + HEADER <= mem.Length && v < 65536
    modifies mem
    ensures HeaderAt(mem, o) == old(HeaderAt(mem, o)).(used := v)
    ensures OtherHeadersKept(mem, o) && BytesKept(mem, o, o + HEADER)
  {
    WriteHalf(mem, o + 2, v);
  }

  method SetMagic(mem: array<byte>, o: nat)
    requires o + HEADER <= mem.Length
    modifies mem
    ensures HeaderAt(mem, o) == old(HeaderAt(mem, o)).(magic := MAGIC)
    ensures OtherHeadersKept(mem, o) && BytesKept(mem, o, o + HEADER)
  {
    WriteHalf(mem, o, MAGIC);
  }

  /** Fill in a whole header. */
  method WriteHeader(mem: array<byte>, o: nat, used: nat, next: nat, prev: nat)
    requires o + HEADER <= mem.Length && used < 65536 && next < WORD && prev < WORD
    modifies mem
    ensures HeaderAt(mem, o) == Header(MAGIC, used, next, prev)
    ensures OtherHeadersKept(mem, o) && BytesKept(mem, o, o + HEADER)
  {
    SetMagic(mem, o);
    SetUsed(mem, o, used);
    SetNext(mem, o, next);
    SetPrev(mem, o, prev);
  }
}
