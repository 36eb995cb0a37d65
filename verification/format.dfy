/** The full output of rt_vsnprintf (kservice.c), whatever the size of the buffer. */
module FormatSpec {
  import opened RtDef
  import opened Numerals

  /** A variable argument: a 32-bit word, and the string it points to when it is a pointer to one. */
  datatype Arg = Arg(word: nat, text: Option<string>)

  const NUL: char := '\0'

  /** What a C string pointer reads, and where it points after an increment. */
  function Head(s: string): char {
    if s == "" then NUL else s[0]
  }

  function Tail(s: string): string {
    if s == "" then "" else s[1..]
  }

  /** va_arg; what it yields beyond the last argument is not defined in C, here it is a zero. */
  function NextArg(args: seq<Arg>): Arg {
    if args == [] then Arg(0, None) else args[0]
  }

  function DropArg(args: seq<Arg>): seq<Arg> {
    if args == [] then [] else args[1..]
  }

  /** The conversion of a word to a signed 32-bit integer. */
  function Signed(word: nat): int {
    var w := word % WORD;
    if w < 0x8000_0000 then w else w - WORD
  }

  /** The number an integer conversion prints. */
  function NumberArg(word: nat, qualifier: char, signed: bool): int {
    if qualifier != 'h' then Signed(word)
    else
      var h := word % 0x10000;
      if signed && h >= 0x8000 then h - 0x10000 else h
  }

  // ----- parsing a directive -----

  /** A directive after its `%`: flags, field width (-1: none), precision (-1: none), qualifier and
      conversion (NUL: the format ends here). */
  datatype Directive = Directive(flags: Flags, width: int, precision: int, qualifier: char, conversion: char)

  const NO_FLAGS := Flags(false, false, false, false, false, false)

  function WithFlag(f: Flags, c: char): Flags {
    match c
    case '-' => f.(left := true)
    case '+' => f.(plus := true)
    case ' ' => f.(space := true)
    case '0' => f.(zeropad := true)
    case _ => f   // `#` sets RT_PRINTF_SPECIAL's flag, which is not configured
  }

  predicate IsFlag(c: char) {
    c in {'-', '+', ' ', '#', '0'}
  }

  function ReadFlags(f: Flags, s: string): (Flags, string)
    decreases |s|
  {
    if IsFlag(Head(s)) then ReadFlags(WithFlag(f, s[0]), s[1..]) else (f, s)
  }

  /** skip_atoi. */
  function ReadNumber(s: string): (nat, string) {
    (ReadFrom(0, s, 10), s[DigitRun(s, 10)..])
  }

  function ReadWidth(f: Flags, s: string, args: seq<Arg>): (Flags, int, string, seq<Arg>) {
    if DigitOf(Head(s)) < 10 then var (n, rest) := ReadNumber(s); (f, n, rest, args)
    else if Head(s) == '*' then
      var w := Signed(NextArg(args).word);
      (if w < 0 then f.(left := true) else f, if w < 0 then -w else w, Tail(s), DropArg(args))
    else (f, -1, s, args)
  }

  function ReadPrecision(s: string, args: seq<Arg>): (int, string, seq<Arg>) {
    if Head(s) != '.' then (-1, s, args)
    else if DigitOf(Head(Tail(s))) < 10 then var (n, rest) := ReadNumber(Tail(s)); (n, rest, args)
    else if Head(Tail(s)) == '*' then (Max(0, Signed(NextArg(args).word)), Tail(Tail(s)), DropArg(args))
    else (0, Tail(s), args)
  }

  function ReadQualifier(s: string): (char, string) {
    if Head(s) in {'h', 'l'} then (Head(s), Tail(s)) else (NUL, s)
  }

  function ReadDirective(s: string, args: seq<Arg>): (Directive, string, seq<Arg>) {
    var (f, s1) := ReadFlags(NO_FLAGS, s);
    var (f', width, s2, args') := ReadWidth(f, s1, args);
    var (precision, s3, args'') := ReadPrecision(s2, args');
    var (qualifier, s4) := ReadQualifier(s3);
    (Directive(f', width, precision, qualifier, Head(s4)), if Head(s4) == NUL then s4 else Tail(s4), args'')
  }

  // ----- what a directive prints -----

  function CharText(c: char, d: Directive): string {
    if d.flags.left then [c] + Repeat(' ', d.width - 1) else Repeat(' ', d.width - 1) + [c]
  }

  /** The length of a C string. */
  function StrLen(s: string): (n: nat)
    ensures n <= |s| && NUL !in s[..n] && (n < |s| ==> s[n] == NUL)
  {
    if Head(s) == NUL then 0 else 1 + StrLen(s[1..])
  }

  /** How many characters of `s` a string conversion prints: the width limits them as the precision does. */
  function StringLength(s: string, d: Directive): (n: nat)
    ensures n == Min(StrLen(s), Min(if d.width >= 0 then d.width else |s|, if d.precision > 0 then d.precision else |s|))
  {
    var n := if 0 <= d.width < StrLen(s) then d.width else StrLen(s);
    if 0 < d.precision < n then d.precision else n
  }

  function StringText(s: string, d: Directive): string {
    var n := StringLength(s, d);
    if d.flags.left then s[..n] + Repeat(' ', d.width - n) else Repeat(' ', d.width - n) + s[..n]
  }

  function BaseOf(conversion: char): nat {
    match conversion
    case 'o' => 8
    case 'x' => 16
    case 'X' => 16
    case _ => 10
  }

  predicate IsInteger(conversion: char) {
    conversion in {'o', 'x', 'X', 'd', 'i', 'u'}
  }

  function IntegerFlags(d: Directive): Flags {
    d.flags.(large := d.conversion == 'X', signed := d.conversion in {'d', 'i'})
  }

  function IntegerText(word: nat, d: Directive): string {
    NumberText(NumberArg(word, d.qualifier, IntegerFlags(d).signed), BaseOf(d.conversion), d.width, d.precision, IntegerFlags(d))
  }

  function PointerText(word: nat, d: Directive): string {
    if d.width == -1 then NumberText(Signed(word), 16, 8, d.precision, d.flags.(zeropad := true))
    else NumberText(Signed(word), 16, d.width, d.precision, d.flags)
  }

  /** What directive `d` prints of the arguments, and those left over. */
  function Print(d: Directive, args: seq<Arg>): (string, seq<Arg>) {
    var arg, rest := NextArg(args), DropArg(args);
    if d.conversion == 'c' then (CharText((arg.word % 0x100) as char, d), rest)
    else if d.conversion == 's' then
      (StringText(match arg.text case Some(s) => s case None => "(NULL)", d), rest)
    else if d.conversion == 'p' then (PointerText(arg.word, d), rest)
    else if IsInteger(d.conversion) then (IntegerText(arg.word, d), rest)
    else if d.conversion in {'%', NUL} then ("%", args)
    else (['%', d.conversion], args)
  }

  /** The output for a whole format. */
  function Format(fmt: string, args: seq<Arg>): string
    decreases |fmt|
  {
    if Head(fmt) == NUL then ""
    else if fmt[0] != '%' then [fmt[0]] + Format(fmt[1..], args)
    else
      var (d, rest, args') := ReadDirective(fmt[1..], args);
      var (text, args'') := Print(d, args');
      DirectiveIsShorter(fmt[1..], args);
      text + Format(rest, args'')
  }

  lemma DirectiveIsShorter(s: string, args: seq<Arg>)
    ensures |ReadDirective(s, args).1| <= |s|
  {
    FlagsAreShorter(NO_FLAGS, s);
  }

  lemma {:induction false} FlagsAreShorter(f: Flags, s: string)
    ensures |ReadFlags(f, s).1| <= |s|
    decreases |s|
  {
    if IsFlag(Head(s)) {
      FlagsAreShorter(WithFlag(f, s[0]), s[1..]);
    }
  }

  // ----- writing a directive -----

  function When(b: bool, s: string): string {
    if b then s else ""
  }

  /** A directive a format can name without `*`. */
  predicate Writable(d: Directive) {
    && !d.flags.large && !d.flags.signed
    && (d.width == -1 || d.width > 0) && d.precision >= -1
    && d.qualifier in {NUL, 'h', 'l'}
    && d.conversion !in {NUL, '*', '.', 'h', 'l', '-', '+', ' ', '#'} && DigitOf(d.conversion) >= 10
  }

  function WriteFlags(f: Flags): string {
    When(f.left, "-") + When(f.plus, "+") + When(f.space, " ") + When(f.zeropad, "0")
  }

  function WriteNumber(prefix: string, n: int): string {
    if n < 0 then "" else prefix + Numeral(n, 10, false)
  }

  /** A directive in the order its parts have in a format. */
  function WriteDirective(d: Directive): string {
    WriteFlags(d.flags) + (WriteNumber("", d.width)
      + (WriteNumber(".", d.precision) + (When(d.qualifier != NUL, [d.qualifier]) + [d.conversion])))
  }

  lemma {:induction false} ReadWritten(n: nat, rest: string)
    requires DigitOf(Head(rest)) >= 10
    ensures ReadNumber(Numeral(n, 10, false) + rest) == (n, rest)
    ensures DigitOf((Numeral(n, 10, false) + rest)[0]) < 10
    ensures n > 0 ==> Numeral(n, 10, false)[0] != '0'
  {
    var text := Numeral(n, 10, false);
    NumeralReads(n, 10, false);
    ReadAppend(0, text, rest, 10);
    RunOf(text, rest);
    if n > 0 {
      LeadingDigit(n);
    }
  }

  lemma {:induction false} RunOf(digits: string, rest: string)
    requires AllDigits(digits, 10) && DigitOf(Head(rest)) >= 10
    ensures DigitRun(digits + rest, 10) == |digits|
  {
    if digits == "" {
      assert digits + rest == rest;
    } else {
      assert (digits + rest)[1..] == digits[1..] + rest;
      RunOf(digits[1..], rest);
    }
  }

  lemma {:induction false} LeadingDigit(n: nat)
    requires n > 0
    ensures Numeral(n, 10, false)[0] != '0'
    decreases n
  {
    if n >= 10 {
      LeadingDigit(n / 10);
    }
  }

  lemma ReadNoFlag(f: Flags, s: string)
    requires !IsFlag(Head(s))
    ensures ReadFlags(f, s) == (f, s)
  {
  }

  lemma ReadFlag(f: Flags, b: bool, c: char, s: string)
    requires IsFlag(c)
    ensures ReadFlags(f, When(b, [c]) + s) == ReadFlags(if b then WithFlag(f, c) else f, s)
  {
    assert (When(b, [c]) + s) == if b then [c] + s else s;
    assert b ==> ([c] + s)[1..] == s;
  }

  lemma FlagsReadBack(f: Flags, s: string)
    requires !f.large && !f.signed && !IsFlag(Head(s))
    ensures ReadFlags(NO_FLAGS, WriteFlags(f) + s) == (f, s)
  {
    var f1 := NO_FLAGS.(left := f.left);
    var f2 := f1.(plus := f.plus);
    var f3 := f2.(space := f.space);
    var s4 := When(f.zeropad, "0") + s;
    var s3 := When(f.space, " ") + s4;
    var s2 := When(f.plus, "+") + s3;
    assert WriteFlags(f) + s == When(f.left, "-") + s2;
    ReadFlag(NO_FLAGS, f.left, '-', s2);
    ReadFlag(f1, f.plus, '+', s3);
    ReadFlag(f2, f.space, ' ', s4);
    ReadFlag(f3, f.zeropad, '0', s);
    ReadNoFlag(f, s);
  }

  lemma WidthReadsBack(f: Flags, width: int, s: string, args: seq<Arg>)
    requires (width == -1 || width > 0) && DigitOf(Head(s)) >= 10 && Head(s) != '*'
    ensures ReadWidth(f, WriteNumber("", width) + s, args) == (f, width, s, args)
    ensures !IsFlag(Head(s)) ==> !IsFlag(Head(WriteNumber("", width) + s))
  {
    if width > 0 {
      ReadWritten(width, s);
      assert WriteNumber("", width) == Numeral(width, 10, false);
    } else {
      assert WriteNumber("", width) + s == s;
    }
  }

  lemma PrecisionReadsBack(precision: int, s: string, args: seq<Arg>)
    requires precision >= -1 && DigitOf(Head(s)) >= 10 && Head(s) != '.'
    ensures ReadPrecision(WriteNumber(".", precision) + s, args) == (precision, s, args)
    ensures Head(WriteNumber(".", precision) + s) == if precision >= 0 then '.' else Head(s)
  {
    if precision >= 0 {
      ReadWritten(precision, s);
      assert WriteNumber(".", precision) + s == "." + (Numeral(precision, 10, false) + s);
    } else {
      assert WriteNumber(".", precision) + s == s;
    }
  }

  lemma QualifierReadsBack(q: char, s: string)
    requires q in {NUL, 'h', 'l'} && Head(s) !in {'h', 'l'}
    ensures ReadQualifier(When(q != NUL, [q]) + s) == (q, s)
    ensures Head(When(q != NUL, [q]) + s) == if q != NUL then q else Head(s)
  {
    if q == NUL {
      assert When(q != NUL, [q]) + s == s;
    } else {
      assert ([q] + s)[1..] == s;
    }
  }

  /** Flags in any combination, width, precision, qualifier and conversion are read as they were written. */
  lemma DirectiveReadsBack(d: Directive, rest: string, args: seq<Arg>)
    requires Writable(d)
    ensures ReadDirective(WriteDirective(d) + rest, args) == (d, rest, args)
  {
    var s4 := [d.conversion] + rest;
    var s3 := When(d.qualifier != NUL, [d.qualifier]) + s4;
    var s2 := WriteNumber(".", d.precision) + s3;
    var s1 := WriteNumber("", d.width) + s2;
    QualifierReadsBack(d.qualifier, s4);
    PrecisionReadsBack(d.precision, s3, args);
    WidthReadsBack(d.flags, d.width, s2, args);
    FlagsReadBack(d.flags, s1);
    DirectiveText(d, rest);
    DirectiveParts(WriteFlags(d.flags) + s1, args, d.flags, s1, d, s2, args, s3, args, s4);
    assert s4[1..] == rest;
  }

  lemma DirectiveText(d: Directive, rest: string)
    ensures WriteDirective(d) + rest ==
              WriteFlags(d.flags) + (WriteNumber("", d.width)
                + (WriteNumber(".", d.precision) + (When(d.qualifier != NUL, [d.qualifier]) + ([d.conversion] + rest))))
  {
    PartsInOrder(WriteFlags(d.flags), WriteNumber("", d.width), WriteNumber(".", d.precision),
                 When(d.qualifier != NUL, [d.qualifier]), [d.conversion], rest);
  }

  lemma DirectiveParts(s: string, args: seq<Arg>, f: Flags, s1: string, d: Directive, s2: string, args1: seq<Arg>, s3: string, args2: seq<Arg>, s4: string)
    requires ReadFlags(NO_FLAGS, s) == (f, s1) && ReadWidth(f, s1, args) == (d.flags, d.width, s2, args1)
    requires ReadPrecision(s2, args1) == (d.precision, s3, args2) && ReadQualifier(s3) == (d.qualifier, s4)
    requires Head(s4) == d.conversion != NUL
    ensures ReadDirective(s, args) == (d, s4[1..], args2)
  {
  }

  lemma PartsInOrder(a: string, b: string, c: string, d: string, e: string, rest: string)
    ensures (a + (b + (c + (d + e)))) + rest == a + (b + (c + (d + (e + rest))))
  {
  }

  // ----- what a format prints -----

  /** A written directive prints first, then the rest of the format with the arguments left over. */
  lemma DirectivePrints(d: Directive, rest: string, args: seq<Arg>)
    requires Writable(d)
    ensures Format("%" + WriteDirective(d) + rest, args) == Print(d, args).0 + Format(rest, Print(d, args).1)
  {
    var s := WriteDirective(d);
    Behind('%', s, rest);
    DirectiveReadsBack(d, rest, args);
    FormatDirective("%" + s + rest, args, d, rest);
  }

  lemma Behind(c: char, s: string, rest: string)
    ensures ([c] + s + rest)[0] == c && ([c] + s + rest)[1..] == s + rest
  {
  }

  lemma FormatDirective(fmt: string, args: seq<Arg>, d: Directive, rest: string)
    requires fmt != "" && fmt[0] == '%' && ReadDirective(fmt[1..], args) == (d, rest, args)
    ensures Format(fmt, args) == Print(d, args).0 + Format(rest, Print(d, args).1)
  {
    DirectiveIsShorter(fmt[1..], args);
  }

  lemma OneDirective(d: Directive, arg: Arg)
    requires Writable(d)
    ensures Format("%" + WriteDirective(d), [arg]) == Print(d, [arg]).0
  {
    DirectivePrints(d, "", [arg]);
    assert "%" + WriteDirective(d) + "" == "%" + WriteDirective(d);
    assert Format("", Print(d, [arg]).1) == "";
  }

  lemma IntegerPrints(d: Directive, arg: Arg)
    requires Writable(d) && IsInteger(d.conversion)
    ensures Format("%" + WriteDirective(d), [arg]) == IntegerText(arg.word, d)
  {
    OneDirective(d, arg);
    PrintsInteger(d, arg);
  }

  lemma PrintsInteger(d: Directive, arg: Arg)
    requires IsInteger(d.conversion)
    ensures Print(d, [arg]).0 == IntegerText(arg.word, d)
  {
    assert NextArg([arg]) == arg;
  }

  /** The conversions that print an argument. */
  predicate TakesArgument(conversion: char) {
    conversion in {'c', 's', 'p', 'o', 'x', 'X', 'd', 'i', 'u'}
  }

  /** A format prints its parts one after the other, each directive its own argument; an unknown conversion prints
      itself with its `%`, and neither that nor `%%` uses up an argument. */
  lemma {:induction false} FormatIsPiecewise(d: Directive, rest: string, arg: Arg, args: seq<Arg>)
    requires Writable(d)
    ensures Format("%" + WriteDirective(d) + rest, [arg] + args) ==
              if TakesArgument(d.conversion) then Format("%" + WriteDirective(d), [arg]) + Format(rest, args)
              else (if d.conversion == '%' then "%" else ['%', d.conversion]) + Format(rest, [arg] + args)
  {
    DirectivePrints(d, rest, [arg] + args);
    OneDirective(d, arg);
    PrintsOwn(d, arg, args);
  }

  lemma PrintsOwn(d: Directive, arg: Arg, args: seq<Arg>)
    requires d.conversion != NUL
    ensures Print(d, [arg] + args) ==
              if TakesArgument(d.conversion) then (Print(d, [arg]).0, args)
              else (if d.conversion == '%' then "%" else ['%', d.conversion], [arg] + args)
  {
    assert DropArg([arg] + args) == args && NextArg([arg] + args) == arg == NextArg([arg]);
  }

  /** Text without `%` is printed as it is. */
  lemma {:induction false} TextIsLiteral(text: string, rest: string, args: seq<Arg>)
    requires '%' !in text && NUL !in text
    ensures Format(text + rest, args) == text + Format(rest, args)
  {
    if text == "" {
      assert text + rest == rest;
    } else {
      var c, more := text[0], text[1..];
      TextIsLiteral(more, rest, args);
      Behind(c, more, rest);
      assert text == [c] + more;
      Literal(c, more + rest, text + rest, args);
      assert [c] + (more + Format(rest, args)) == text + Format(rest, args);
    }
  }

  lemma Literal(c: char, s: string, fmt: string, args: seq<Arg>)
    requires c != '%' && c != NUL && fmt != "" && fmt[0] == c && fmt[1..] == s
    ensures Format(fmt, args) == [c] + Format(s, args)
  {
  }

  /** A NUL ends the format, and a format that ends within a directive prints its `%`. */
  lemma {:induction false} FormatEnds(text: string, rest: string, args: seq<Arg>)
    requires '%' !in text && NUL !in text
    ensures Format(text + ([NUL] + rest), args) == text
    ensures Format(text + "%", args) == text + "%"
  {
    TextIsLiteral(text, [NUL] + rest, args);
    TextIsLiteral(text, "%", args);
    LonePercent(args);
    assert Format([NUL] + rest, args) == "";
    assert text + "" == text;
  }

  lemma LonePercent(args: seq<Arg>)
    ensures Format("%", args) == "%"
  {
    assert "%"[1..] == "";
    ReadNoFlag(NO_FLAGS, "");
    FormatDirective("%", args, Directive(NO_FLAGS, -1, -1, NUL, NUL), "");
    assert Format("", args) == "";
  }

  /** `v` is what a word means under an integer conversion: for `d` and `i` a signed number, for the others an
      unsigned one, of 32 bits, or of 16 with the qualifier `h`. */
  ghost predicate Means(word: nat, qualifier: char, conversion: char, v: int) {
    var n := if qualifier == 'h' then 0x10000 else 0x1_0000_0000;
    && (word - v) % n == 0
    && if conversion in {'d', 'i'} then -(n / 2) <= v < n / 2 else 0 <= v < n
  }

  /** From format and argument to text and back: an integer directive prints a text that reads as what its argument
      means, except that a precision of 0 leaves nothing but zeros, and that octal is right for a single digit only. */
  lemma {:induction false} IntegerRoundTrip(d: Directive, arg: Arg, v: int)
    requires Writable(d) && d.conversion in {'d', 'i', 'u', 'x', 'X', 'o'} && Means(arg.word, d.qualifier, d.conversion, v)
    ensures var base := if d.conversion in {'x', 'X'} then 16 else if d.conversion == 'o' then 8 else 10;
            Parse(Format("%" + WriteDirective(d), [arg]), base) == v <==>
              if d.precision == 0 then v == 0 else d.conversion == 'o' ==> v < 8
  {
    IntegerPrints(d, arg);
    IntegerReadsBack(arg.word, d, v);
  }

  lemma IntegerReadsBack(word: nat, d: Directive, v: int)
    requires IsInteger(d.conversion) && Means(word, d.qualifier, d.conversion, v)
    ensures Parse(IntegerText(word, d), BaseOf(d.conversion)) == v <==>
              if d.precision == 0 then v == 0 else d.conversion == 'o' ==> v < 8
  {
    var f := IntegerFlags(d);
    var num := NumberArg(word, d.qualifier, f.signed);
    NumberArgInRange(word, d.qualifier, f.signed);
    ValueMeans(word, d.qualifier, d.conversion, v, f);
    if d.conversion == 'o' {
      OctalReadsBack(num, d.width, d.precision, f);
    } else {
      NumberReadsBack(num, BaseOf(d.conversion), d.width, d.precision, f);
    }
  }

  lemma ValueMeans(word: nat, qualifier: char, conversion: char, v: int, f: Flags)
    requires Means(word, qualifier, conversion, v) && (f.signed <==> conversion in {'d', 'i'})
    ensures Value(NumberArg(word, qualifier, f.signed), f) == v
  {
    var n := if qualifier == 'h' then 0x10000 else WORD;
    var q := (word - v) / n;
    RemainderIs(word, n, if v >= 0 then q else q - 1, if v >= 0 then v else v + n);
    if qualifier == 'h' {
      var h := word % 0x10000;
      RemainderIs(h, WORD, 0, h);
    } else {
      var w := word % WORD;
      RemainderIs(Signed(word), WORD, if w < 0x8000_0000 then 0 else -1, w);
    }
  }

  /** The layout of an integer directive: a sign for `d` and `i` alone, `-` for negative numbers, otherwise `+` or a
      blank by the flags; then digits, with upper case letters for `X` alone. A width only pads this: with blanks
      behind for `-`, else with zeros behind the sign for `0`, else with blanks before. */
  lemma {:induction false} IntegerLayout(d: Directive, arg: Arg, v: int)
    requires Writable(d) && d.conversion in {'d', 'i', 'u', 'x', 'X', 'o'} && Means(arg.word, d.qualifier, d.conversion, v)
    ensures var core := Format("%" + WriteDirective(d.(width := -1)), [arg]);
            && Shows(core, d.conversion in {'d', 'i'}, v < 0, d.conversion == 'X', d.flags)
            && Padded(core, Format("%" + WriteDirective(d), [arg]), d.flags)
  {
    IntegerPrints(d, arg);
    IntegerPrints(d.(width := -1), arg);
    TextOfInteger(arg.word, d, v);
  }

  lemma TextOfInteger(word: nat, d: Directive, v: int)
    requires IsInteger(d.conversion) && Means(word, d.qualifier, d.conversion, v)
    ensures var core := IntegerText(word, d.(width := -1));
            && Shows(core, d.conversion in {'d', 'i'}, v < 0, d.conversion == 'X', d.flags)
            && Padded(core, IntegerText(word, d), d.flags)
  {
    var f := IntegerFlags(d);
    var num, base := NumberArg(word, d.qualifier, f.signed), BaseOf(d.conversion);
    ValueMeans(word, d.qualifier, d.conversion, v, f);
    SignAndDigits(num, base, d.precision, f);
    WidthPads(num, base, d.width, d.precision, f);
    SameLayout(NumberText(num, base, -1, d.precision, f), NumberText(num, base, d.width, d.precision, f), num < 0, v < 0, f, d.flags);
  }

  /** Only some of the flags matter to the layout. */
  lemma SameLayout(core: string, text: string, negative: bool, below: bool, f: Flags, g: Flags)
    requires f == g.(large := f.large, signed := f.signed) && (f.signed ==> (negative <==> below))
    requires Shows(core, f.signed, negative, f.large, f) && Padded(core, text, f)
    ensures Shows(core, f.signed, below, f.large, g) && Padded(core, text, g)
  {
  }

  /** A character is the low byte of its argument, a string prints up to its NUL, limited by width and precision;
      both are padded with blanks up to the width, behind for `-`, otherwise before, whatever the other flags. */
  lemma {:induction false} TextLayout(d: Directive, arg: Arg)
    requires Writable(d) && d.conversion in {'c', 's'}
    ensures var text := Format("%" + WriteDirective(d), [arg]);
            var s := if arg.text == None then "(NULL)" else arg.text.value;
            var core := if d.conversion == 'c' then [(arg.word % 0x100) as char] else s[..StringLength(s, d)];
            |text| == Max(d.width, |core|) && Padded(core, text, d.flags.(zeropad := false))
  {
    OneDirective(d, arg);
  }

  /** A pointer prints as the hexadecimal number its word is, except with precision 0, as with integers. */
  lemma {:induction false} PointerRoundTrip(d: Directive, arg: Arg)
    requires Writable(d) && d.conversion == 'p'
    ensures var v := arg.word % 0x1_0000_0000;
            Parse(Format("%" + WriteDirective(d), [arg]), 16) == v <==> d.precision != 0 || v == 0
  {
    var num, width := Signed(arg.word), if d.width == -1 then 8 else d.width;
    var f := if d.width == -1 then d.flags.(zeropad := true) else d.flags;
    OneDirective(d, arg);
    assert Print(d, [arg]).0 == NumberText(num, 16, width, d.precision, f);
    NumberReadsBack(num, 16, width, d.precision, f);
    SignedWord(arg.word);
  }

  lemma SignedWord(word: nat)
    ensures Signed(word) % WORD == word % WORD && -0x8000_0000 <= Signed(word) < 0x8000_0000
  {
    var w := word % WORD;
    RemainderIs(Signed(word), WORD, if w < 0x8000_0000 then 0 else -1, w);
  }

  /** Without width and precision it is eight digits in lower case, but with `-` blanks instead of leading zeros. */
  lemma {:induction false} PointerLayout(f: Flags, arg: Arg)
    requires !f.large && !f.signed
    ensures var text := Format("%" + WriteDirective(Directive(f, -1, -1, NUL, 'p')), [arg]);
            |text| == 8 && (!f.left ==> AllDigits(text, 16) && InCase(text, false))
  {
    var num, g := Signed(arg.word), f.(zeropad := true);
    OneDirective(Directive(f, -1, -1, NUL, 'p'), arg);
    assert Print(Directive(f, -1, -1, NUL, 'p'), [arg]).0 == NumberText(num, 16, 8, -1, g);
    SignedWord(arg.word);
    HexFits(arg.word % WORD, g.large);
    NumberLength(num, 16, 8, -1, g);
    if !f.left { PointerDigits(num, 8, g); }
  }

  lemma HexFits(n: nat, large: bool)
    requires n < WORD
    ensures |Numeral(n, 16, large)| <= 8
  {
    assert Power(16, 4) == 65536;
    assert Power(16, 8) == WORD;
    NumeralShort(n, 16, large, 8);
  }

  lemma PointerDigits(num: int, width: int, f: Flags)
    requires !f.signed && !f.left && f.zeropad && !f.large
    ensures AllDigits(NumberText(num, 16, width, -1, f), 16) && InCase(NumberText(num, 16, width, -1, f), false)
  {
    SignAndDigits(num, 16, -1, f);
    WidthPads(num, 16, width, -1, f);
    ZerosPad(NumberText(num, 16, -1, -1, f), NumberText(num, 16, width, -1, f), num < 0, f);
  }

  lemma ZerosPad(core: string, text: string, negative: bool, f: Flags)
    requires Shows(core, false, negative, false, f) && Padded(core, text, f) && !f.left && f.zeropad
    ensures AllDigits(text, 16) && InCase(text, false)
  {
    assert SignLength(core) == 0 && core[..0] == "" && core[0..] == core;
    assert text == Repeat('0', |text| - |core|) + core;
  }

  // ----- flags, and widths and precisions from the arguments -----

  /** Flags may come in any order and number; each one sets its own and no other, and `#` sets none. */
  lemma {:induction false} FlagReads(f: Flags, c: char, s: string)
    requires c in {'-', '+', ' ', '#', '0'}
    ensures ReadFlags(f, [c] + s) ==
              ReadFlags(Flags(f.left || c == '-', f.plus || c == '+', f.space || c == ' ', f.zeropad || c == '0', f.large, f.signed), s)
  {
    ReadFlag(f, true, c, s);
  }

  /** A `*` takes the next argument as a signed number: a negative width means `-` and its size, a negative
      precision means 0. */
  lemma {:induction false} StarReads(f: Flags, width: Arg, precision: Arg, w: int, p: int, conversion: char, rest: string, args: seq<Arg>)
    requires !f.large && !f.signed && Means(width.word, NUL, 'd', w) && Means(precision.word, NUL, 'd', p)
    requires conversion !in {NUL, 'h', 'l'}
    ensures ReadDirective(WriteFlags(f) + ("*" + (".*" + ([conversion] + rest))), [width] + ([precision] + args)) ==
              (Directive(f.(left := f.left || w < 0), if w < 0 then -w else w, if p < 0 then 0 else p, NUL, conversion), rest, args)
  {
    var s4, more := [conversion] + rest, [precision] + args;
    var s2 := ".*" + s4;
    var d := Directive(f.(left := f.left || w < 0), if w < 0 then -w else w, if p < 0 then 0 else p, NUL, conversion);
    FlagsReadBack(f, "*" + s2);
    SignedMeans(width.word, w);
    SignedMeans(precision.word, p);
    StarWidth(f, s2, width, more, w);
    StarPrecision(s4, precision, args, p);
    NoQualifier(conversion, rest);
    DirectiveParts(WriteFlags(f) + ("*" + s2), [width] + more, f, "*" + s2, d, s2, more, s4, args, s4);
  }

  lemma StarWidth(f: Flags, s: string, arg: Arg, args: seq<Arg>, w: int)
    requires Signed(arg.word) == w
    ensures ReadWidth(f, "*" + s, [arg] + args) == (f.(left := f.left || w < 0), if w < 0 then -w else w, s, args)
  {
    assert ("*" + s)[1..] == s && ([arg] + args)[1..] == args;
  }

  lemma StarPrecision(s: string, arg: Arg, args: seq<Arg>, p: int)
    requires Signed(arg.word) == p
    ensures ReadPrecision(".*" + s, [arg] + args) == (if p < 0 then 0 else p, s, args)
  {
    assert (".*" + s)[1..] == "*" + s && ("*" + s)[1..] == s && ([arg] + args)[1..] == args;
  }

  lemma NoQualifier(conversion: char, rest: string)
    requires conversion !in {'h', 'l'}
    ensures ReadQualifier([conversion] + rest) == (NUL, [conversion] + rest)
    ensures Head([conversion] + rest) == conversion && ([conversion] + rest)[1..] == rest
  {
  }

  /** A lone dot means precision 0. */
  lemma {:induction false} DotReads(f: Flags, conversion: char, rest: string, args: seq<Arg>)
    requires !f.large && !f.signed && conversion !in {NUL, 'h', 'l', '*'} && DigitOf(conversion) >= 10
    ensures ReadDirective(WriteFlags(f) + ("." + ([conversion] + rest)), args) == (Directive(f, -1, 0, NUL, conversion), rest, args)
  {
    var s4 := [conversion] + rest;
    var s2 := "." + s4;
    FlagsReadBack(f, s2);
    assert s2[1..] == s4 && s4[1..] == rest;
    assert ReadPrecision(s2, args) == (0, s4, args);
  }

  lemma SignedMeans(word: nat, v: int)
    requires Means(word, NUL, 'd', v)
    ensures Signed(word) == v
  {
    ValueMeans(word, NUL, 'd', v, NO_FLAGS.(signed := true));
  }

  lemma NumberArgInRange(word: nat, qualifier: char, signed: bool)
    ensures -0x8000_0000 <= NumberArg(word, qualifier, signed) < 0x8000_0000
  {
  }
}

/** rt_vsnprintf and print_number with their buffer. */
module Formatter {
  import opened RtDef
  import opened Numerals
  import opened FormatSpec

  /** What is left of a 32-bit numeral without its last digit. */
  function Front(u: nat, base: nat, large: bool): string {
    if u == 0 then "" else Numeral(u, Radix(base), large)
  }

  lemma LastDigit(u: nat, base: nat, large: bool)
    requires 0 < u < WORD
    ensures var r := Radix(base);
            Front(u, base, large) == Front(u / r, base, large) + [DigitChar(u % r, large)] && u / r < u && u / r < 0x8000_0000
  {
  }

  /** Character `i - 1` of `text`, counted from the left, is the last one cut off into `tmp`. */
  ghost predicate Reversed(tmp: seq<char>, i: nat, text: string, n: nat) {
    i + n == |text| && i <= |tmp| && forall k :: 0 <= k < i ==> tmp[k] == text[|text| - 1 - k]
  }

  lemma ReverseMore(tmp: seq<char>, i: nat, text: string, front: string, c: char)
    requires Reversed(tmp, i, text, |front| + 1) && front + [c] <= text && i < |tmp|
    ensures Reversed(tmp[i := c], i + 1, text, |front|) && front <= text
  {
  }

  lemma AlreadyUnsigned(n: int)
    requires 0 <= n < WORD
    ensures n % WORD == n
  {
  }

  lemma UnsignedIsZero(n: int)
    requires -0x8000_0000 <= n < 0x8000_0000
    ensures 0 <= n % WORD < WORD && (n % WORD == 0 <==> n == 0)
  {
  }

  /** What stands before the digits of a number. */
  function Lead(fill: int, sign: string, f: Flags): string {
    if f.left then sign
    else if f.zeropad then sign + Repeat('0', fill)
    else Repeat(' ', fill) + sign
  }

  lemma Layout(start: string, num: int, base: nat, width: int, precision: int, f: Flags)
    ensures var fill := Fill(num, base, width, precision, f);
            start + NumberText(num, base, width, precision, f) ==
              start + Lead(fill, SignOf(num, f), f) + Zeros(num, base, precision, f) + Body(num, base, precision, f)
              + Repeat(' ', if f.left then fill else 0)
  {
    var fill := Fill(num, base, width, precision, f);
    FieldIs(start, SignOf(num, f), fill, Zeros(num, base, precision, f), Body(num, base, precision, f), f);
  }

  lemma FieldIs(start: string, sign: string, fill: int, zeros: string, body: string, f: Flags)
    ensures start + Field(sign, fill, zeros + body, f) ==
              start + Lead(fill, sign, f) + zeros + body + Repeat(' ', if f.left then fill else 0)
  {
  }

  /** The pointer `str` that walks through memory from `buf`, with the guard `str < end` on every store. */
  class Sink {
    const memory: array<char>
    const buf: nat
    const end: nat
    var str: nat
    ghost const before: seq<char>
    ghost var out: string

    /** Memory holds what was written, as far as it is below `end`, and is otherwise as before. */
    ghost predicate Valid()
      reads this, memory
    {
      && buf <= end <= memory.Length == |before| && str == buf + |out|
      && (forall i :: 0 <= i < memory.Length ==> memory[i] == if buf <= i < end && i < str then out[i - buf] else before[i])
    }

    constructor (memory: array<char>, buf: nat, end: nat)
      requires buf <= end <= memory.Length
      ensures Valid() && out == "" && before == memory[..]
      ensures this.memory == memory && this.buf == buf && this.end == end
    {
      this.memory, this.buf, this.end := memory, buf, end;
      str, before, out := buf, memory[..], "";
    }

    method Put(c: char)
      requires Valid()
      modifies this, memory
      ensures Valid() && out == old(out) + [c]
    {
      if str < end {
        memory[str] := c;
      }
      str, out := str + 1, out + [c];
    }

    /** `while (size-- > 0)` a character. */
    method Pad(c: char, n: int) returns (size: int)
      requires Valid()
      modifies this, memory
      ensures Valid() && out == old(out) + Repeat(c, n) && size == Min(n, 0) - 1
    {
      size := n;
      while size > 0
        invariant Valid() && size <= n && (n > 0 ==> size >= 0) && (n <= 0 ==> size == n)
        invariant out == old(out) + Repeat(c, n - Max(size, 0))
      {
        Put(c);
        size := size - 1;
      }
      size := size - 1;
    }

    /** `divide`: the last digit of a long taken as unsigned, and what is left. */
    method Divide(n: int, base: nat) returns (res: nat, rest: int)
      ensures res == n % WORD % Radix(base) && rest == n % WORD / Radix(base)
    {
      if base == 10 {
        res, rest := n % WORD % 10, n % WORD / 10;
      } else {
        res, rest := n % WORD % 16, n % WORD / 16;
      }
    }

    /** The digits of `num` in the order they fall off, never more than the buffer holds. */
    method CutDigits(num: int, base: nat, large: bool) returns (tmp: array<char>, i: nat)
      requires -0x8000_0000 <= num < 0x8000_0000
      ensures fresh(tmp) && tmp.Length == 16 && i <= 10
      ensures Reversed(tmp[..], i, Numeral(num % WORD, Radix(base), large), 0)
    {
      tmp := new char[16];
      ghost var text := Numeral(num % WORD, Radix(base), large);
      NumeralFits(num % WORD, Radix(base), large);
      i := 0;
      if num == 0 {
        tmp[0], i := '0', 1;
        return;
      }
      var n := num;
      ghost var u := num % WORD;
      UnsignedIsZero(n);
      while n != 0
        invariant u == n % WORD < WORD && (u == 0 <==> n == 0)
        invariant Front(u, base, large) <= text && Reversed(tmp[..], i, text, |Front(u, base, large)|)
        decreases u
      {
        LastDigit(u, base, large);
        var d, rest := Divide(n, base);
        ReverseMore(tmp[..], i, text, Front(rest, base, large), DigitChar(d, large));
        AlreadyUnsigned(rest);
        ghost var was := tmp[..];
        tmp[i] := DigitChar(d, large);
        assert tmp[..] == was[i := DigitChar(d, large)];
        i, n, u := i + 1, rest, rest;
      }
    }

    /** `while (i-- > 0 && precision != 0)`: the digits, most significant first. */
    method PutDigits(tmp: array<char>, i: nat, precision: int, ghost text: string)
      requires Valid() && tmp != memory && Reversed(tmp[..], i, text, 0)
      modifies this, memory
      ensures Valid() && out == old(out) + When(precision != 0, text)
    {
      var n: nat := i;
      while n > 0 && precision != 0
        invariant n <= i && (precision == 0 ==> n == i) && Reversed(tmp[..], i, text, 0)
        invariant Valid() && out == old(out) + text[..i - n]
      {
        n := n - 1;
        Put(tmp[n]);
        assert text[..i - n] == text[..i - n - 1] + [text[i - n - 1]];
      }
    }

    /** print_number. */
    method PrintNumber(number: int, base: nat, s: int, precision: int, flags: Flags)
      requires Valid() && -0x8000_0000 <= number < 0x8000_0000
      modifies this, memory
      ensures Valid() && out == old(out) + NumberText(number, base, s, precision, flags)
    {
      var sign, num := SignAndSize(number, flags);
      var tmp, i := CutDigits(num, base, flags.large);
      ghost var text := Numeral(Magnitude(number, flags), Radix(base), flags.large);
      var least := if i > precision then i else precision;
      var size := s - least;
      ghost var start, fill := out, Fill(number, base, s, precision, flags);
      size := PutLead(size, sign, flags);
      ghost var lead := Lead(fill, SignOf(number, flags), flags);
      assert out == start + lead;
      var _ := Pad('0', least - i);
      assert Repeat('0', least - i) == Zeros(number, base, precision, flags);
      PutDigits(tmp, i, precision, text);
      assert out == start + lead + Zeros(number, base, precision, flags) + Body(number, base, precision, flags);
      assert Repeat(' ', size) == Repeat(' ', if flags.left then fill else 0);
      var _ := Pad(' ', size);
      Layout(start, number, base, s, precision, flags);
    }

    /** The padding and the sign before the digits; what is returned is the padding still due behind them. */
    method PutLead(n: int, sign: char, flags: Flags) returns (size: int)
      requires Valid()
      modifies this, memory
      ensures Valid() && out == old(out) + Lead(n - |When(sign != NUL, [sign])|, When(sign != NUL, [sign]), flags)
      ensures Max(size, 0) == Max(0, if flags.left then n - |When(sign != NUL, [sign])| else 0)
    {
      var zeropad := flags.zeropad && !flags.left;
      size := n;
      if !zeropad && !flags.left {
        if sign != NUL && size > 0 {
          size := size - 1;
        }
        size := Pad(' ', size);
      }
      if sign != NUL {
        Put(sign);
        size := size - 1;
      }
      if !flags.left {
        size := Pad(if zeropad then '0' else ' ', size);
      }
    }

    /** The sign character, NUL for none, and the number that is left to print. */
    method SignAndSize(number: int, flags: Flags) returns (sign: char, num: int)
      requires -0x8000_0000 <= number < 0x8000_0000
      ensures -0x8000_0000 <= num < 0x8000_0000 && num % WORD == Magnitude(number, flags)
      ensures SignOf(number, flags) == When(sign != NUL, [sign])
    {
      sign, num := NUL, number;
      if flags.signed {
        if num < 0 {
          sign, num := '-', Signed(-num);   // the most negative number stays
        } else if flags.plus {
          sign := '+';
        } else if flags.space {
          sign := ' ';
        }
      }
    }

    /** The case for `c`. */
    method PrintChar(c: char, d: Directive)
      requires Valid()
      modifies this, memory
      ensures Valid() && out == old(out) + CharText(c, d)
    {
      var field_width := d.width;
      if !d.flags.left {
        field_width := Pad(' ', field_width - 1);
      }
      Put(c);
      var _ := Pad(' ', field_width - 1);
    }

    /** The case for `s`. */
    method PrintString(s: string, d: Directive)
      requires Valid() && d.width >= -1
      modifies this, memory
      ensures Valid() && out == old(out) + StringText(s, d)
    {
      var len := CountChars(s, d);
      var rest := d.width - len;
      if !d.flags.left {
        rest := Pad(' ', rest);
      }
      ghost var start := out;
      for i := 0 to len
        invariant Valid() && out == start + s[..i]
      {
        Put(s[i]);
        assert s[..i + 1] == s[..i] + [s[i]];
      }
      var _ := Pad(' ', rest);
    }

    /** How much of `s` is to be printed. */
    method CountChars(s: string, d: Directive) returns (len: nat)
      requires d.width >= -1
      ensures len == StringLength(s, d)
    {
      len := 0;
      BeforeNul(s, len);
      while len != d.width && Head(s[len..]) != NUL
        invariant len <= StrLen(s) && (d.width >= 0 ==> len <= d.width)
        invariant Head(s[len..]) == NUL <==> len == StrLen(s)
        decreases |s| - len
      {
        len := len + 1;
        BeforeNul(s, len);
      }
      if d.precision > 0 && len > d.precision {
        len := d.precision;
      }
    }

    /** The switch over the conversion character. */
    method Convert(d: Directive, args: seq<Arg>) returns (rest: seq<Arg>)
      requires Valid() && d.width >= -1
      modifies this, memory
      ensures Valid() && out == old(out) + Print(d, args).0 && rest == Print(d, args).1
    {
      var arg := NextArg(args);
      rest := DropArg(args);
      match d.conversion
      case 'c' =>
        PrintChar((arg.word % 0x100) as char, d);
      case 's' =>
        PrintString(match arg.text case Some(s) => s case None => "(NULL)", d);
      case 'p' =>
        var field_width, flags := d.width, d.flags;
        if field_width == -1 {
          field_width, flags := 8, flags.(zeropad := true);
        }
        PrintNumber(Signed(arg.word), 16, field_width, d.precision, flags);
      case '%' =>
        Put('%');
        rest := args;
      case _ =>
        var flags := d.flags.(large := d.conversion == 'X', signed := d.conversion in {'d', 'i'});
        match d.conversion {
          case 'o' => PrintInteger(arg.word, 8, d, flags);
          case 'x' => PrintInteger(arg.word, 16, d, flags);
          case 'X' => PrintInteger(arg.word, 16, d, flags);
          case 'd' => PrintInteger(arg.word, 10, d, flags);
          case 'i' => PrintInteger(arg.word, 10, d, flags);
          case 'u' => PrintInteger(arg.word, 10, d, flags);
          case _ =>
            Put('%');
            if d.conversion != NUL {
              Put(d.conversion);
            }
            rest := args;
        }
    }

    /** The loop over the format. */
    method PrintFormat(fmt: string, args: seq<Arg>)
      requires Valid()
      modifies this, memory
      ensures Valid() && out == old(out) + Format(fmt, args)
    {
      var f, rest := fmt, args;
      while Head(f) != NUL
        invariant Valid() && old(out) + Format(fmt, args) == out + Format(f, rest)
        decreases |f|
      {
        FormatStep(out, f, rest);
        if f[0] != '%' {
          Put(f[0]);
          f := f[1..];
        } else {
          var d, f', args' := ParseDirective(f[1..], rest);
          rest := Convert(d, args');
          f := f';
        }
      }
    }

    /** The NUL behind the text, or in the last byte. */
    method Terminate(room: nat)
      requires Valid() && end == buf + room
      modifies memory
      ensures memory[..] == Filled(before, buf, room, out)
    {
      ghost var written := memory[..];
      if room > 0 {
        if str < end {
          memory[str] := NUL;
        } else {
          memory[end - 1] := NUL;
        }
        assert memory[..] == written[buf + (if |out| < room then |out| else room - 1) := NUL];
        Terminated(before, written, memory[..], buf, room, out);
      } else {
        assert memory[..] == before;
      }
    }

    method PrintInteger(word: nat, base: nat, d: Directive, flags: Flags)
      requires Valid()
      modifies this, memory
      ensures Valid() && out == old(out) + NumberText(NumberArg(word, d.qualifier, flags.signed), base, d.width, d.precision, flags)
    {
      var num := Signed(word);
      if d.qualifier == 'h' {
        num := word % 0x10000;
        if flags.signed && num >= 0x8000 {
          num := num - 0x10000;
        }
      }
      PrintNumber(num, base, d.width, d.precision, flags);
    }
  }

  lemma FormatStep(start: string, f: string, args: seq<Arg>)
    requires Head(f) != NUL
    ensures f[0] != '%' ==> start + Format(f, args) == start + [f[0]] + Format(f[1..], args)
    ensures f[0] == '%' ==>
              var (d, rest, args') := ReadDirective(f[1..], args);
              && |rest| < |f|
              && start + Format(f, args) == start + Print(d, args').0 + Format(rest, Print(d, args').1)
  {
    DirectiveIsShorter(f[1..], args);
  }

  /** What a string is before position `n`, where its end has not been seen yet. */
  lemma {:induction false} BeforeNul(s: string, n: nat)
    requires n <= StrLen(s)
    ensures Head(s[n..]) == NUL <==> n == StrLen(s)
  {
    if n > 0 {
      BeforeNul(s[1..], n - 1);
      assert s[1..][n - 1..] == s[n..];
    }
  }

  /** skip_atoi: the number at `s` and the pointer behind it. */
  method SkipAtoi(s: string) returns (i: nat, rest: string)
    ensures (i, rest) == ReadNumber(s)
  {
    i, rest := 0, s;
    while DigitOf(Head(rest)) < 10
      invariant ReadFrom(i, rest, 10) == ReadFrom(0, s, 10)
      invariant rest[DigitRun(rest, 10)..] == s[DigitRun(s, 10)..]
      decreases |rest|
    {
      i, rest := i * 10 + DigitOf(rest[0]), rest[1..];
    }
  }

  method ParseFlags(s: string) returns (flags: Flags, fmt: string)
    ensures (flags, fmt) == ReadFlags(NO_FLAGS, s)
  {
    flags, fmt := NO_FLAGS, s;
    while IsFlag(Head(fmt))
      invariant ReadFlags(flags, fmt) == ReadFlags(NO_FLAGS, s)
      decreases |fmt|
    {
      flags, fmt := WithFlag(flags, fmt[0]), fmt[1..];
    }
  }

  method ParseWidth(f: Flags, s: string, args: seq<Arg>) returns (flags: Flags, field_width: int, fmt: string, args': seq<Arg>)
    ensures (flags, field_width, fmt, args') == ReadWidth(f, s, args) && field_width >= -1
  {
    flags, field_width, fmt, args' := f, -1, s, args;
    if DigitOf(Head(fmt)) < 10 {
      field_width, fmt := SkipAtoi(fmt);
    } else if Head(fmt) == '*' {
      fmt := Tail(fmt);
      field_width, args' := Signed(NextArg(args').word), DropArg(args');
      if field_width < 0 {
        field_width, flags := -field_width, flags.(left := true);
      }
    }
  }

  method ParsePrecision(s: string, args: seq<Arg>) returns (precision: int, fmt: string, args': seq<Arg>)
    ensures (precision, fmt, args') == ReadPrecision(s, args)
  {
    precision, fmt, args' := -1, s, args;
    if Head(fmt) == '.' {
      fmt := Tail(fmt);
      if DigitOf(Head(fmt)) < 10 {
        precision, fmt := SkipAtoi(fmt);
      } else if Head(fmt) == '*' {
        fmt := Tail(fmt);
        precision, args' := Signed(NextArg(args').word), DropArg(args');
      }
      if precision < 0 {
        precision := 0;
      }
    }
  }

  /** The pointer walk over the flags, the width, the precision and the qualifier. */
  method ParseDirective(s: string, args: seq<Arg>) returns (d: Directive, rest: string, args': seq<Arg>)
    ensures (d, rest, args') == ReadDirective(s, args) && d.width >= -1
  {
    var flags, fmt := ParseFlags(s);
    var field_width, precision, qualifier;
    flags, field_width, fmt, args' := ParseWidth(flags, fmt, args);
    precision, fmt, args' := ParsePrecision(fmt, args');
    qualifier := NUL;
    if Head(fmt) == 'h' || Head(fmt) == 'l' {
      qualifier, fmt := Head(fmt), Tail(fmt);
    }
    d := Directive(flags, field_width, precision, qualifier, Head(fmt));
    rest := if Head(fmt) == NUL then fmt else Tail(fmt);
  }

  /** How many bytes of a buffer of `size` bytes at address `buf` are used: it ends below the last address. */
  function Room(buf: nat, size: nat): (room: nat)
    requires buf < WORD
    ensures buf + room == Min(buf + size, 0xffff_ffff)
  {
    if buf + size < WORD then size else WORD - 1 - buf
  }

  /** Memory `m` with as much of `text` at `buf` as fits into `room` bytes with the NUL that ends it. */
  function Filled(m: seq<char>, buf: nat, room: nat, text: string): seq<char>
    requires buf + room <= |m|
  {
    if room == 0 then m
    else
      var k := if |text| < room then |text| else room - 1;
      m[..buf] + text[..k] + [NUL] + m[buf + k + 1..]
  }

  /** The buffer holds the longest beginning of the text that leaves room for a NUL, and that NUL; every other
      character of memory is as before. */
  lemma {:induction false} FilledIs(m: seq<char>, buf: nat, room: nat, text: string)
    requires buf + room <= |m|
    ensures var f, k := Filled(m, buf, room, text), Min(|text|, room - 1);
            |f| == |m| && forall i :: 0 <= i < |m| ==>
              f[i] == if buf <= i < buf + k then text[i - buf] else if i == buf + k && room > 0 then NUL else m[i]
  {
  }

  /** rt_vsnprintf: the number returned is that of the full output, whatever the size; the buffer
      gets the part of it that fits, and nothing else in memory changes. */
  method VsnPrintf(memory: array<char>, buf: nat, size: nat, fmt: string, args: seq<Arg>) returns (n: int)
    requires buf < WORD && size < WORD && buf + Room(buf, size) <= memory.Length
    modifies memory
    ensures n == |Format(fmt, args)|
    ensures memory[..] == Filled(old(memory[..]), buf, Room(buf, size), Format(fmt, args))
  {
    var end, room := buf + size, size;
    if end >= WORD {   // end < buf
      end := WORD - 1;
      room := end - buf;
    }
    var sink := new Sink(memory, buf, end);
    sink.PrintFormat(fmt, args);
    assert sink.out == Format(fmt, args);
    sink.Terminate(room);
    n := sink.str - buf;
  }

  lemma Terminated(before: seq<char>, written: seq<char>, after: seq<char>, buf: nat, room: nat, text: string)
    requires buf + room <= |before| == |written| && room > 0
    requires forall i :: 0 <= i < |before| ==> written[i] == if buf <= i < buf + room && i < buf + |text| then text[i - buf] else before[i]
    requires after == written[buf + (if |text| < room then |text| else room - 1) := NUL]
    ensures after == Filled(before, buf, room, text)
  {
    var k := if |text| < room then |text| else room - 1;
    var f := Filled(before, buf, room, text);
    forall i | 0 <= i < |f| ensures f[i] == after[i] {}
  }
}
