/** Definitions shared by the kernel modules. */
module RtDef {
  datatype Option<+T> = None | Some(value: T)

  function Min(a: int, b: int): int {
    if a < b then a else b
  }

  function Max(a: int, b: int): int {
    if a < b then b else a
  }

  const WORD: nat := 0x1_0000_0000

  /** RT_ALIGN(size, RT_ALIGN_SIZE) on a 32-bit rt_size_t. */
  function AlignUp(size: nat): nat {
    (size + 3) % WORD / 4 * 4
  }

  lemma NonzeroMultiple(d: int, n: int)
    ensures n > 0 && d >= 1 ==> d * n >= n
    ensures n > 0 && d <= -1 ==> d * n <= -n
  {
    if d <= -1 {
      assert d * n == -((-d) * n);
    }
  }

  /** The remainder of a division is unique. */
  lemma RemainderIs(x: int, n: int, q: int, r: int)
    requires n > 0 && x == q * n + r && 0 <= r < n
    ensures x % n == r && x / n == q
  {
    var d := q - x / n;
    assert d * n == x % n - r;
    NonzeroMultiple(d, n);
  }

  lemma RemainderAtMost(x: nat, n: nat)
    requires n > 0
    ensures x % n <= x
  {
  }

  lemma NextUnit(i: nat, j: nat, unit: nat)
    requires i < j
    ensures i * unit + unit <= j * unit
  {
    assert j * unit == i * unit + unit + (j - i - 1) * unit;
  }

  lemma UnitsFit(total: nat, unit: nat, n: nat)
    requires unit > 0
    ensures n <= total / unit <==> n * unit <= total
  {
    if n <= total / unit {
      assert (total / unit - n) * unit >= 0;
    } else {
      NextUnit(total / unit, n, unit);
    }
  }

  /** Units laid out one after the other in `total` bytes do not overlap and lie inside. */
  lemma UnitsApart(unit: nat, total: nat, i: nat, j: nat)
    requires unit > 0 && i < j < total / unit
    ensures i * unit + unit <= j * unit && j * unit + unit <= total
  {
    NextUnit(i, j, unit);
    NextUnit(j, total / unit, unit);
  }
}
