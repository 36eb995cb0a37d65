/** What print_number of kservice.c prints, and how to read it back. */
module Numerals {
  import opened RtDef

  datatype Flags = Flags(left: bool, plus: bool, space: bool, zeropad: bool, large: bool, signed: bool)

  function Repeat(c: char, n: int): string {
    seq(Max(0, n), _ => c)
  }

  function DigitChar(d: nat, large: bool): char
    requires d < 16
  {
    if large then "0123456789ABCDEF"[d] else "0123456789abcdef"[d]
  }

  /** The value of a digit, 99 for any other character. */
  function DigitOf(c: char): nat {
    if '0' <= c <= '9' then c as int - '0' as int
    else if 'a' <= c <= 'f' then c as int - 'a' as int + 10
    else if 'A' <= c <= 'F' then c as int - 'A' as int + 10
    else 99
  }

  /** The shortest numeral of `n`. */
  function Numeral(n: nat, base: nat, large: bool): string
    requires 2 <= base <= 16
    decreases n
  {
    if n < base then [DigitChar(n, large)] else Numeral(n / base, base, large) + [DigitChar(n % base, large)]
  }

  /** The radix `divide` works with; it knows no octal. */
  function Radix(base: nat): nat {
    if base == 10 then 10 else 16
  }

  /** The sign character of `num`, if it gets one. */
  function SignOf(num: int, f: Flags): string {
    if !f.signed then "" else if num < 0 then "-" else if f.plus then "+" else if f.space then " " else ""
  }

  /** A 32-bit long as the digits show it. */
  function Magnitude(num: int, f: Flags): nat {
    if f.signed && num < 0 then -num else num % WORD
  }

  function Body(num: int, base: nat, precision: int, f: Flags): string {
    if precision == 0 then "" else Numeral(Magnitude(num, f), Radix(base), f.large)
  }

  /** The zeros that bring the digits up to the precision. */
  function Zeros(num: int, base: nat, precision: int, f: Flags): string {
    Repeat('0', precision - |Numeral(Magnitude(num, f), Radix(base), f.large)|)
  }

  /** The padding to a width of `width`. It is computed as if a precision of 0 still printed the digits. */
  function Fill(num: int, base: nat, width: int, precision: int, f: Flags): int {
    width - Max(precision, |Numeral(Magnitude(num, f), Radix(base), f.large)|) - |SignOf(num, f)|
  }

  /** Where the padding goes. */
  function Field(sign: string, fill: int, digits: string, f: Flags): string {
    if f.left then sign + digits + Repeat(' ', fill)
    else if f.zeropad then sign + Repeat('0', fill) + digits
    else Repeat(' ', fill) + sign + digits
  }

  function NumberText(num: int, base: nat, width: int, precision: int, f: Flags): string {
    Field(SignOf(num, f), Fill(num, base, width, precision, f),
          Zeros(num, base, precision, f) + Body(num, base, precision, f), f)
  }

  /** The field is as wide as asked, or as its contents need. */
  lemma NumberLength(num: int, base: nat, width: int, precision: int, f: Flags)
    ensures var n := |Numeral(Magnitude(num, f), Radix(base), f.large)|;
            |NumberText(num, base, width, precision, f)| ==
              if precision != 0 then Max(width, |SignOf(num, f)| + Max(n, precision))
              else Max(width - n, |SignOf(num, f)|)
  {
  }

  // ----- reading -----

  /** The value of the digits `text` starts with, after a value `acc` read before them. */
  function ReadFrom(acc: nat, text: string, base: nat): nat
    decreases |text|
  {
    if text == "" || DigitOf(text[0]) >= base then acc else ReadFrom(acc * base + DigitOf(text[0]), text[1..], base)
  }

  /** How many digits `text` starts with. */
  function DigitRun(text: string, base: nat): (k: nat)
    ensures k <= |text| && (k < |text| ==> DigitOf(text[k]) >= base)
    ensures AllDigits(text[..k], base)
  {
    if text == "" || DigitOf(text[0]) >= base then 0 else 1 + DigitRun(text[1..], base)
  }

  ghost predicate AllDigits(text: string, base: nat) {
    forall i :: 0 <= i < |text| ==> DigitOf(text[i]) < base
  }

  function SkipSpaces(text: string): string {
    if text != "" && text[0] == ' ' then SkipSpaces(text[1..]) else text
  }

  /** Blanks, a sign, digits: the integer a text stands for, 0 without digits. */
  function Parse(text: string, base: nat): int {
    var t := SkipSpaces(text);
    if t != "" && t[0] == '-' then -(ReadFrom(0, t[1..], base) as int)
    else if t != "" && t[0] == '+' then ReadFrom(0, t[1..], base)
    else ReadFrom(0, t, base)
  }

  lemma DigitCharReads(d: nat, large: bool)
    requires d < 16
    ensures DigitOf(DigitChar(d, large)) == d
  {
    if large {
      assert "0123456789ABCDEF"[d] == DigitChar(d, large);
    }
  }

  lemma {:induction false} ReadAppend(acc: nat, a: string, b: string, base: nat)
    requires AllDigits(a, base)
    ensures ReadFrom(acc, a + b, base) == ReadFrom(ReadFrom(acc, a, base), b, base)
    decreases |a|
  {
    if a == "" {
      assert a + b == b;
    } else {
      assert (a + b)[1..] == a[1..] + b;
      ReadAppend(acc * base + DigitOf(a[0]), a[1..], b, base);
    }
  }

  lemma {:induction false} NumeralReads(n: nat, base: nat, large: bool)
    requires 2 <= base <= 16
    ensures AllDigits(Numeral(n, base, large), base) && ReadFrom(0, Numeral(n, base, large), base) == n
    decreases n
  {
    if n < base {
      DigitReads(0, n, base, large);
    } else {
      NumeralReads(n / base, base, large);
      AppendReads(Numeral(n / base, base, large), n % base, base, large);
      DivMod(n, base);
    }
  }

  lemma DivMod(n: nat, base: nat)
    requires base > 0
    ensures n / base * base + n % base == n
  {
  }

  lemma AppendReads(text: string, d: nat, base: nat, large: bool)
    requires d < base <= 16 && AllDigits(text, base)
    ensures AllDigits(text + [DigitChar(d, large)], base)
    ensures ReadFrom(0, text + [DigitChar(d, large)], base) == ReadFrom(0, text, base) * base + d
  {
    DigitReads(ReadFrom(0, text, base), d, base, large);
    ReadAppend(0, text, [DigitChar(d, large)], base);
  }

  lemma DigitReads(acc: nat, d: nat, base: nat, large: bool)
    requires d < base <= 16
    ensures DigitOf(DigitChar(d, large)) == d && ReadFrom(acc, [DigitChar(d, large)], base) == acc * base + d
  {
    DigitCharReads(d, large);
    assert ReadFrom(acc * base + d, "", base) == acc * base + d;
  }

  lemma {:induction false} ReadZeros(n: int, rest: string, base: nat)
    requires base >= 2
    ensures ReadFrom(0, Repeat('0', n) + rest, base) == ReadFrom(0, rest, base)
  {
    if n <= 0 {
      assert Repeat('0', n) + rest == rest;
    } else {
      assert (Repeat('0', n) + rest)[1..] == Repeat('0', n - 1) + rest;
      ReadZeros(n - 1, rest, base);
    }
  }

  lemma {:induction false} SkipBlanks(n: int, rest: string)
    ensures SkipSpaces(Repeat(' ', n) + rest) == SkipSpaces(rest)
  {
    if n <= 0 {
      assert Repeat(' ', n) + rest == rest;
    } else {
      assert (Repeat(' ', n) + rest)[1..] == Repeat(' ', n - 1) + rest;
      SkipBlanks(n - 1, rest);
    }
  }

  /** Reading stops at a character that is no digit. */
  lemma {:induction false} ReadStops(acc: nat, a: string, b: string, base: nat)
    requires b == "" || DigitOf(b[0]) >= base
    ensures ReadFrom(acc, a + b, base) == ReadFrom(acc, a, base)
    decreases |a|
  {
    if a == "" {
      assert a + b == b;
    } else if DigitOf(a[0]) < base {
      assert (a + b)[1..] == a[1..] + b;
      ReadStops(acc * base + DigitOf(a[0]), a[1..], b, base);
    }
  }

  lemma {:induction false} ParseField(blanks: int, sign: string, digits: string, trail: int, base: nat)
    requires sign in {"", "-", "+", " "} && AllDigits(digits, 16) && base <= 16
    ensures Parse(Repeat(' ', blanks) + (sign + (digits + Repeat(' ', trail))), base)
         == if sign == "-" then -(ReadFrom(0, digits, base) as int) else ReadFrom(0, digits, base)
  {
    var rest := digits + Repeat(' ', trail);
    SkipBlanks(blanks, sign + rest);
    ReadStops(0, digits, Repeat(' ', trail), base);
    if sign == "-" || sign == "+" {
      assert (sign + rest)[1..] == rest;
    } else {
      assert sign == " " ==> (sign + rest)[1..] == rest;
      assert sign == "" ==> sign + rest == rest;
      if digits == "" {
        assert rest == Repeat(' ', trail) + "";
        SkipBlanks(trail, "");
      } else {
        assert rest[0] == digits[0];
      }
    }
  }

  lemma {:induction false} ReadPadded(pad: int, zeros: int, body: string, base: nat)
    requires 2 <= base <= 16 && AllDigits(body, 16)
    ensures AllDigits(Repeat('0', pad) + (Repeat('0', zeros) + body), 16)
    ensures ReadFrom(0, Repeat('0', pad) + (Repeat('0', zeros) + body), base) == ReadFrom(0, body, base)
  {
    ReadZeros(pad, Repeat('0', zeros) + body, base);
    ReadZeros(zeros, body, base);
  }

  /** The number a 32-bit word stands for under a conversion. */
  function Value(num: int, f: Flags): int {
    if f.signed then num else num % WORD
  }

  /** What is printed reads back as the number, for every width, flag and precision except 0,
      where the digits are left out: then only a zero survives. */
  lemma {:induction false} NumberReadsBack(num: int, base: nat, width: int, precision: int, f: Flags)
    requires base in {10, 16} && -0x8000_0000 <= num < 0x8000_0000
    ensures Parse(NumberText(num, base, width, precision, f), base) == Value(num, f) <==> precision != 0 || Value(num, f) == 0
  {
    ReadsAs(num, base, width, precision, f, base);
    NumeralReads(Magnitude(num, f), base, f.large);
    MagnitudeIs(num, f);
    assert Radix(base) == base && ReadFrom(0, "", base) == 0;
  }

  /** A conversion to octal prints hexadecimal digits, which read back in octal only for a single octal digit. */
  lemma {:induction false} OctalReadsBack(num: int, width: int, precision: int, f: Flags)
    requires -0x8000_0000 <= num < 0x8000_0000
    ensures Parse(NumberText(num, 8, width, precision, f), 8) == Value(num, f) <==>
            if precision == 0 then Value(num, f) == 0 else -8 < Value(num, f) < 8
  {
    ReadsAs(num, 8, width, precision, f, 8);
    OctalReadsLess(Magnitude(num, f), f.large);
    MagnitudeIs(num, f);
    assert ReadFrom(0, "", 8) == 0;
  }

  lemma MagnitudeIs(num: int, f: Flags)
    requires -0x8000_0000 <= num < 0x8000_0000
    ensures Value(num, f) == if SignOf(num, f) == "-" then -(Magnitude(num, f) as int) else Magnitude(num, f)
    ensures f.signed || SignOf(num, f) != "-"
  {
  }

  /** Reading what was printed with one base in another one gives what the bare digits give. */
  lemma {:induction false} ReadsAs(num: int, base: nat, width: int, precision: int, f: Flags, reading: nat)
    requires 2 <= reading <= 16
    ensures var v := ReadFrom(0, Body(num, base, precision, f), reading) as int;
            Parse(NumberText(num, base, width, precision, f), reading) == if SignOf(num, f) == "-" then -v else v
  {
    var radix, fill := Radix(base), Fill(num, base, width, precision, f);
    var sign, body := SignOf(num, f), Body(num, base, precision, f);
    var z := precision - |Numeral(Magnitude(num, f), radix, f.large)|;
    NumeralReads(Magnitude(num, f), radix, f.large);
    FieldReads(sign, fill, z, body, reading, f);
  }

  lemma {:induction false} FieldReads(sign: string, fill: int, z: int, body: string, base: nat, f: Flags)
    requires sign in {"", "-", "+", " "} && AllDigits(body, 16) && 2 <= base <= 16
    ensures var v := ReadFrom(0, body, base) as int;
            Parse(Field(sign, fill, Repeat('0', z) + body, f), base) == if sign == "-" then -v else v
  {
    var blanks := if f.left || f.zeropad then 0 else fill;
    var pad := if !f.left && f.zeropad then fill else 0;
    var trail := if f.left then fill else 0;
    ReadPadded(pad, z, body, base);
    ParseField(blanks, sign, Repeat('0', pad) + (Repeat('0', z) + body), trail, base);
    FieldLayout(sign, fill, Repeat('0', z) + body, f);
  }

  /** Every layout is blanks, sign, digits, blanks. */
  lemma FieldLayout(sign: string, fill: int, digits: string, f: Flags)
    ensures Field(sign, fill, digits, f) ==
              Repeat(' ', if f.left || f.zeropad then 0 else fill)
              + (sign + (Repeat('0', if !f.left && f.zeropad then fill else 0) + digits + Repeat(' ', if f.left then fill else 0)))
  {
  }

  // ----- sign, letters and padding -----

  /** How many characters stand before the digits of an unpadded number: its sign, if it has one. */
  function SignLength(core: string): nat {
    if core != "" && DigitOf(core[0]) >= 16 then 1 else 0
  }

  /** Letters are upper case or lower case, never the other one. */
  ghost predicate InCase(text: string, large: bool) {
    forall c :: c in text ==> if large then !('a' <= c <= 'f') else !('A' <= c <= 'F')
  }

  /** The digits of a number with the zeros before them. */
  function Digits(num: int, base: nat, precision: int, f: Flags): string {
    Zeros(num, base, precision, f) + Body(num, base, precision, f)
  }

  lemma DigitsAre(num: int, base: nat, precision: int, f: Flags)
    ensures AllDigits(Digits(num, base, precision, f), 16) && InCase(Digits(num, base, precision, f), f.large)
  {
    NumeralReads(Magnitude(num, f), Radix(base), f.large);
    NumeralCase(Magnitude(num, f), Radix(base), f.large);
  }

  /** Without a width there is no padding. */
  lemma CoreIs(num: int, base: nat, precision: int, f: Flags)
    ensures NumberText(num, base, -1, precision, f) == SignOf(num, f) + Digits(num, base, precision, f)
  {
    FieldBare(SignOf(num, f), Fill(num, base, -1, precision, f), Digits(num, base, precision, f), f);
  }

  lemma FieldBare(sign: string, fill: int, digits: string, f: Flags)
    requires fill <= 0
    ensures Field(sign, fill, digits, f) == sign + digits
  {
  }

  lemma SignIsFirst(sign: string, digits: string)
    requires sign in {"", "-", "+", " "} && AllDigits(digits, 16)
    ensures SignLength(sign + digits) == |sign| && (sign + digits)[|sign|..] == digits && (sign + digits)[..|sign|] == sign
  {
    assert sign == "" ==> sign + digits == digits;
  }

  /** `core` is the sign of a number, if it is to have one, and digits with letters of one case. */
  ghost predicate Shows(core: string, signed: bool, negative: bool, large: bool, f: Flags) {
    var k := SignLength(core);
    && (k == 1 <==> signed && (negative || f.plus || f.space))
    && (k == 1 ==> core[0] == if negative then '-' else if f.plus then '+' else ' ')
    && AllDigits(core[k..], 16) && InCase(core, large)
  }

  /** A signed number begins with `-` if it is negative, otherwise with `+` or a blank if that is asked for, `+` going
      first; an unsigned one has no sign. All that follows is digits, and their letters are upper case if and only
      if that is asked for. */
  lemma {:induction false} SignAndDigits(num: int, base: nat, precision: int, f: Flags)
    ensures Shows(NumberText(num, base, -1, precision, f), f.signed, num < 0, f.large, f)
  {
    CoreIs(num, base, precision, f);
    DigitsAre(num, base, precision, f);
    SignIsFirst(SignOf(num, f), Digits(num, base, precision, f));
  }

  lemma {:induction false} NumeralCase(n: nat, base: nat, large: bool)
    requires 2 <= base <= 16
    ensures InCase(Numeral(n, base, large), large)
    decreases n
  {
    DigitCase(n % base, large);
    if n >= base {
      NumeralCase(n / base, base, large);
    }
  }

  lemma DigitCase(d: nat, large: bool)
    requires d < 16
    ensures InCase([DigitChar(d, large)], large)
  {
    assert large ==> DigitChar(d, large) == "0123456789ABCDEF"[d];
  }

  lemma FieldPads(sign: string, fill: int, digits: string, f: Flags)
    ensures var text := Field(sign, fill, digits, f);
            && |text| == |sign| + |digits| + Max(0, fill)
            && text == (if f.left then sign + digits + Repeat(' ', Max(0, fill))
                        else if f.zeropad then sign + Repeat('0', Max(0, fill)) + digits
                        else Repeat(' ', Max(0, fill)) + (sign + digits))
  {
  }

  /** `text` is `core` with padding: behind, after its sign, or before. */
  ghost predicate Padded(core: string, text: string, f: Flags) {
    var k, pad := SignLength(core), |text| - |core|;
    pad >= 0 && text == (if f.left then core + Repeat(' ', pad)
                         else if f.zeropad then core[..k] + Repeat('0', pad) + core[k..]
                         else Repeat(' ', pad) + core)
  }

  /** A width only pads: with blanks behind for `-`, else with zeros between sign and digits for `0`, else with
      blanks before. */
  lemma {:induction false} WidthPads(num: int, base: nat, width: int, precision: int, f: Flags)
    ensures Padded(NumberText(num, base, -1, precision, f), NumberText(num, base, width, precision, f), f)
  {
    CoreIs(num, base, precision, f);
    DigitsAre(num, base, precision, f);
    SignIsFirst(SignOf(num, f), Digits(num, base, precision, f));
    FieldPads(SignOf(num, f), Fill(num, base, width, precision, f), Digits(num, base, precision, f), f);
  }

  // ----- the digit buffer -----

  function Power(base: nat, k: nat): nat {
    if k == 0 then 1 else base * Power(base, k - 1)
  }

  lemma {:induction false} NumeralShort(n: nat, base: nat, large: bool, k: nat)
    requires 2 <= base <= 16 && k >= 1 && n < Power(base, k)
    ensures |Numeral(n, base, large)| <= k
    decreases k
  {
    assert Power(base, k) == base * Power(base, k - 1);
    if n >= base && k >= 2 {
      QuotientBelow(n, base, Power(base, k - 1));
      NumeralShort(n / base, base, large, k - 1);
    }
  }

  lemma QuotientBelow(n: nat, base: nat, p: nat)
    requires base > 0 && n < base * p
    ensures n / base < p
  {
    var d := n / base - p + 1;
    assert d * base == n / base * base - p * base + base;
    NonzeroMultiple(d, base);
  }

  /** A 32-bit number needs at most ten digits, so the sixteen of the buffer do. */
  lemma NumeralFits(n: nat, base: nat, large: bool)
    requires base in {10, 16} && n < WORD
    ensures |Numeral(n, base, large)| <= 10
  {
    if base == 10 {
      assert Power(10, 5) == 100_000;
      assert Power(10, 10) == 10_000_000_000;
      NumeralShort(n, 10, large, 10);
    } else {
      assert Power(16, 4) == 65536;
      assert Power(16, 8) == WORD;
      NumeralShort(n, 16, large, 8);
    }
  }

  // ----- octal -----

  /** Hexadecimal digits read in octal. */
  lemma {:induction false} OctalReadsLess(n: nat, large: bool)
    ensures ReadFrom(0, Numeral(n, 16, large), 8) <= n
    ensures n < 8 ==> ReadFrom(0, Numeral(n, 16, large), 8) == n
    ensures n >= 8 ==> ReadFrom(0, Numeral(n, 16, large), 8) < n
    decreases n
  {
    if n < 16 {
      ReadOctal(0, n, large);
    } else {
      OctalReadsLess(n / 16, large);
      ReadThen(0, Numeral(n / 16, 16, large), n % 16, large);
    }
  }

  lemma ReadOctal(acc: nat, d: nat, large: bool)
    requires d < 16
    ensures ReadFrom(acc, [DigitChar(d, large)], 8) == if d < 8 then acc * 8 + d else acc
  {
    DigitCharReads(d, large);
    assert ReadFrom(acc * 8 + d, "", 8) == acc * 8 + d;
  }

  /** One more digit behind `a` adds at most one octal place. */
  lemma {:induction false} ReadThen(acc: nat, a: string, d: nat, large: bool)
    requires d < 16
    ensures ReadFrom(acc, a + [DigitChar(d, large)], 8) <= ReadFrom(acc, a, 8) * 8 + (if d < 8 then d else 0)
    ensures d >= 8 ==> ReadFrom(acc, a + [DigitChar(d, large)], 8) <= ReadFrom(acc, a, 8)
    decreases |a|
  {
    var last := [DigitChar(d, large)];
    if a == "" {
      assert a + last == last;
      ReadOctal(acc, d, large);
    } else if DigitOf(a[0]) < 8 {
      assert (a + last)[1..] == a[1..] + last;
      ReadThen(acc * 8 + DigitOf(a[0]), a[1..], d, large);
    }
  }
}
