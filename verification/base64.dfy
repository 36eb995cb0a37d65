/** The Base64 codec of wifi_config.c (section 4 of RFC 4648). Shifts and masks of bytes are written as
    division and remainder. */
module Base64Spec {
  import opened RtDef

  type Byte = n: nat | n < 0x100
  type Sextet = n: nat | n < 0x40

  /** base64_table: upper case, lower case, digits, `+` and `/`. */
  function Symbol(n: Sextet): char {
    if n < 26 then (n + 'A' as int) as char
    else if n < 52 then (n - 26 + 'a' as int) as char
    else if n < 62 then (n - 52 + '0' as int) as char
    else if n == 62 then '+'
    else '/'
  }

  /** base64_decode_table: 0 for every character that is not in base64_table. */
  function Lookup(c: char): Sextet {
    if 'A' <= c <= 'Z' then c as int - 'A' as int
    else if 'a' <= c <= 'z' then c as int - 'a' as int + 26
    else if '0' <= c <= '9' then c as int - '0' as int + 52
    else if c == '+' then 62
    else if c == '/' then 63
    else 0
  }

  predicate InTable(c: char) {
    'A' <= c <= 'Z' || 'a' <= c <= 'z' || '0' <= c <= '9' || c == '+' || c == '/'
  }

  function Quad(a: Byte, b: Byte, c: Byte): string {
    [Symbol(a / 4), Symbol(a % 4 * 16 + b / 16), Symbol(b % 16 * 4 + c / 64), Symbol(c % 64)]
  }

  /** The last group, of one or two bytes. */
  function Padded(b: seq<Byte>): string
    requires 1 <= |b| <= 2
  {
    if |b| == 1 then [Symbol(b[0] / 4), Symbol(b[0] % 4 * 16), '=', '=']
    else [Symbol(b[0] / 4), Symbol(b[0] % 4 * 16 + b[1] / 16), Symbol(b[1] % 16 * 4), '=']
  }

  function Encode(b: seq<Byte>): string {
    if |b| >= 3 then Quad(b[0], b[1], b[2]) + Encode(b[3..])
    else if b == [] then ""
    else Padded(b)
  }

  function Sextets(c: char): Sextet {
    if c == '=' then 0 else Lookup(c)
  }

  /** The three bytes of four characters. */
  function Triple(q: string): (t: seq<Byte>)
    requires |q| >= 4
    ensures |t| == 3
  {
    var (a, b, c) := Cut(Join(Sextets(q[0]), Sextets(q[1]), Sextets(q[2]), Sextets(q[3])));
    [a, b, c]
  }

  function Triples(s: string): (b: seq<Byte>)
    ensures |b| == |s| / 4 * 3
  {
    if |s| < 4 then []
    else
      assert |s| / 4 == 1 + |s[4..]| / 4;
      Triple(s) + Triples(s[4..])
  }

  /** The length str_base64_decode returns: a padding character takes a byte off, wherever the other one is. */
  function DecodedLength(s: string): nat
    requires s != ""
  {
    if |s| % 4 != 0 then 0
    else |s| / 4 * 3 - (if s[|s| - 1] == '=' then 1 else 0) - (if s[|s| - 2] == '=' then 1 else 0)
  }

  /** The padding at the end of a group. */
  function Pads(q: string): nat
    requires |q| == 4
  {
    if q[3] != '=' then 0 else if q[2] != '=' then 1 else if q[1] != '=' then 2 else if q[0] != '=' then 3 else 4
  }

  /** How many bytes a text carries: three in every group but the last, and there as many as fit into the six bits
      of each character before the padding. */
  function BytesCarried(s: string): nat
    requires s != "" && |s| % 4 == 0
  {
    |s| / 4 * 3 - 3 + (4 - Pads(s[|s| - 4..])) * 6 / 8
  }

  /** The length returned is that of the bytes carried unless the last but one character is padding and
      the last one is not, or the one before is, too. */
  lemma DecodedLengthExactly(s: string)
    requires s != "" && |s| % 4 == 0
    ensures DecodedLength(s) == BytesCarried(s) <==>
            (s[|s| - 2] == '=' ==> s[|s| - 1] == '=' && s[|s| - 3] != '=')
  {
    var q, n := s[|s| - 4..], |s| / 4 * 3;
    assert q[1] == s[|s| - 3] && q[2] == s[|s| - 2] && q[3] == s[|s| - 1];
  }

  /** For example, a lone padding character before the last one costs a byte. */
  lemma LonePaddingShortens()
    ensures DecodedLength("AA=A") == 2 && BytesCarried("AA=A") == 3
  {
  }

  function Decode(s: string): (b: seq<Byte>)
    requires s != ""
    ensures |b| == DecodedLength(s)
  {
    Triples(s)[..DecodedLength(s)]
  }

  lemma SymbolLookup(n: Sextet)
    ensures Sextets(Symbol(n)) == n && InTable(Symbol(n)) && Symbol(n) != '='
  {
  }

  lemma LookupSymbol(c: char)
    requires InTable(c)
    ensures Symbol(Lookup(c)) == c && Sextets(c) == Lookup(c)
  {
  }

  /** The characters of RFC 4648 in their order. */
  const TABLE: string := "ABCDEFGHIJKLMNOPQRSTUVWXYZ" + "abcdefghijklmnopqrstuvwxyz" + "0123456789" + "+/"

  lemma UpperCase(n: nat)
    requires n < 26
    ensures "ABCDEFGHIJKLMNOPQRSTUVWXYZ"[n] as int == n + 'A' as int
  {
  }

  lemma LowerCase(n: nat)
    requires n < 26
    ensures "abcdefghijklmnopqrstuvwxyz"[n] as int == n + 'a' as int
  {
  }

  lemma TableIs(n: Sextet)
    ensures |TABLE| == 64 && Symbol(n) == TABLE[n]
  {
    if n < 26 {
      UpperCase(n);
    } else if n < 52 {
      LowerCase(n - 26);
    }
  }

  /** Both tables are that of the standard; characters that are not in it read as 0. */
  lemma {:induction false} TablesAgree(n: Sextet, c: char)
    ensures |TABLE| == 64 && Symbol(n) == TABLE[n] && Lookup(TABLE[n]) == n
    ensures InTable(c) <==> c in TABLE
    ensures c !in TABLE ==> Lookup(c) == 0
  {
    TableIs(n);
    SymbolLookup(n);
    forall m: Sextet ensures TABLE[m] == Symbol(m) && InTable(TABLE[m]) {
      TableIs(m);
      SymbolLookup(m);
    }
    if InTable(c) {
      LookupSymbol(c);
      assert TABLE[Lookup(c)] == c;
    }
  }

  // ----- bits -----

  function Join(a: Sextet, b: Sextet, c: Sextet, d: Sextet): nat {
    a * 0x4_0000 + b * 0x1000 + c * 0x40 + d
  }

  function Cut(t: nat): (Byte, Byte, Byte) {
    (t / 0x1_0000 % 0x100, t / 0x100 % 0x100, t % 0x100)
  }

  /** Three bytes, regrouped into sextets and back. */
  lemma Regroup(a: Byte, b: Byte, c: Byte)
    ensures Cut(Join(a / 4, a % 4 * 16 + b / 16, b % 16 * 4 + c / 64, c % 64)) == (a, b, c)
  {
    var t := a * 0x1_0000 + b * 0x100 + c;
    assert Join(a / 4, a % 4 * 16 + b / 16, b % 16 * 4 + c / 64, c % 64) == t;
    CutOf(t, a, b, c);
  }

  lemma CutOf(t: nat, a: Byte, b: Byte, c: Byte)
    requires t == a * 0x1_0000 + b * 0x100 + c
    ensures Cut(t) == (a, b, c)
  {
    RemainderIs(t, 0x1_0000, a, b * 0x100 + c);
    RemainderIs(a, 0x100, 0, a);
    RemainderIs(t, 0x100, a * 0x100 + b, c);
    RemainderIs(a * 0x100 + b, 0x100, a, b);
  }

  /** Four sextets, regrouped into bytes and back. */
  lemma RegroupBack(a: Sextet, b: Sextet, c: Sextet, d: Sextet)
    ensures var (x, y, z) := Cut(Join(a, b, c, d));
            x / 4 == a && x % 4 * 16 + y / 16 == b && y % 16 * 4 + z / 64 == c && z % 64 == d
            && (c % 4 == 0 && d == 0 ==> z == 0) && (b % 16 == 0 && c == 0 ==> y == 0)
  {
    var x, y, z := a * 4 + b / 16, b % 16 * 16 + c / 4, c % 4 * 64 + d;
    CutOf(Join(a, b, c, d), x, y, z);
    RemainderIs(x, 4, a, b / 16);
    RemainderIs(y, 16, b % 16, c / 4);
    RemainderIs(z, 64, c % 4, d);
  }

  lemma TripleOfQuad(a: Byte, b: Byte, c: Byte, rest: string)
    ensures Triple(Quad(a, b, c) + rest) == [a, b, c]
  {
    Regroup(a, b, c);
    SymbolLookup(a / 4);
    SymbolLookup(a % 4 * 16 + b / 16);
    SymbolLookup(b % 16 * 4 + c / 64);
    SymbolLookup(c % 64);
  }

  lemma TripleOfPadded(b: seq<Byte>)
    requires 1 <= |b| <= 2
    ensures Triple(Padded(b)) == if |b| == 1 then [b[0], 0, 0] else [b[0], b[1], 0]
  {
    var y := if |b| == 1 then 0 else b[1];
    Regroup(b[0], y, 0);
    SymbolLookup(b[0] / 4);
    SymbolLookup(b[0] % 4 * 16 + y / 16);
    SymbolLookup(y % 16 * 4);
  }

  // ----- what the groups say -----

  /** Group `k` of the text holds bytes 3k to 3k + 2. */
  ghost predicate GroupAt(s: string, all: seq<Byte>, k: nat) {
    4 * k + 4 <= |s| && Holds(all, 3 * k, Triple(s[4 * k..4 * k + 4]))
  }

  ghost predicate Holds(all: seq<Byte>, at: nat, triple: seq<Byte>) {
    |triple| == 3 && at + 3 <= |all| && all[at] == triple[0] && all[at + 1] == triple[1] && all[at + 2] == triple[2]
  }

  lemma {:induction false} TripleAt(s: string, k: nat)
    requires 4 * k + 4 <= |s|
    ensures GroupAt(s, Triples(s), k)
  {
    if k == 0 {
      assert s[0..4] == s[..4];
      TripleOfPrefix(s);
    } else {
      TripleAt(s[4..], k - 1);
      SameSlice(s, k);
      HoldsBehind(Triple(s), Triples(s[4..]), 3 * (k - 1), Triple(s[4 * k..4 * k + 4]));
    }
  }

  lemma TripleOfPrefix(s: string)
    requires |s| >= 4
    ensures Triple(s[..4]) == Triple(s)
  {
  }

  lemma SameSlice(s: string, k: nat)
    requires k > 0 && 4 * k + 4 <= |s|
    ensures s[4..][4 * (k - 1)..4 * (k - 1) + 4] == s[4 * k..4 * k + 4]
  {
  }

  lemma HoldsBehind(first: seq<Byte>, rest: seq<Byte>, at: nat, triple: seq<Byte>)
    requires |first| == 3 && Holds(rest, at, triple)
    ensures Holds(first + rest, at + 3, triple)
  {
  }

  /** Every group of an encoding is in table characters the number that its bytes are; a last group of one or two
      bytes has zero bits behind them and is padded. */
  lemma {:induction false} EncodesBits(b: seq<Byte>, k: nat)
    requires 3 * k < |b|
    ensures 4 * k + 4 <= |Encode(b)| && Encodes(b[3 * k..], Encode(b)[4 * k..4 * k + 4])
  {
    EncodedLength(b);
    var s := Encode(b);
    if k == 0 {
      assert b[0..] == b;
      FirstGroup(b);
    } else {
      EncodesBits(b[3..], k - 1);
      assert b[3..][3 * (k - 1)..] == b[3 * k..];
      assert s[4..] == Encode(b[3..]);
      SameSlice(s, k);
    }
  }

  /** The bytes `b` begins with are encoded by the group `q`. */
  ghost predicate Encodes(b: seq<Byte>, q: string)
    requires b != [] && |q| == 4
  {
    && InTable(q[0]) && InTable(q[1])
    && if |b| == 1 then
         q[2] == '=' && q[3] == '=' && Lookup(q[0]) * 64 + Lookup(q[1]) == BytesNumber(b) * 16
       else if |b| == 2 then
         InTable(q[2]) && q[3] == '=' && (Lookup(q[0]) * 64 + Lookup(q[1])) * 64 + Lookup(q[2]) == BytesNumber(b) * 4
       else
         InTable(q[2]) && InTable(q[3]) && GroupNumber(q) == BytesNumber(b[..3])
  }

  /** The number that bytes are, the first one most significant. */
  function BytesNumber(b: seq<nat>): nat {
    if b == [] then 0 else BytesNumber(b[..|b| - 1]) * 256 + b[|b| - 1]
  }

  lemma BytesNumberIs(b: seq<nat>)
    ensures |b| == 1 ==> BytesNumber(b) == b[0]
    ensures |b| == 2 ==> BytesNumber(b) == b[0] * 256 + b[1]
    ensures |b| == 3 ==> BytesNumber(b) == (b[0] * 256 + b[1]) * 256 + b[2]
  {
    if |b| > 1 {
      BytesNumberIs(b[..|b| - 1]);
    }
  }

  /** The number a group of four digits of base 64 is. */
  function GroupNumber(q: string): nat
    requires |q| == 4
  {
    ((Lookup(q[0]) * 64 + Lookup(q[1])) * 64 + Lookup(q[2])) * 64 + Lookup(q[3])
  }

  lemma {:induction false} FirstGroup(b: seq<Byte>)
    requires b != []
    ensures |Encode(b)| >= 4 && Encodes(b, Encode(b)[..4])
  {
    if |b| >= 3 {
      assert Encode(b)[..4] == Quad(b[0], b[1], b[2]);
      QuadEncodes(b);
    } else {
      assert Encode(b)[..4] == Padded(b);
      PaddedEncodes(b);
    }
  }

  lemma QuadEncodes(b: seq<Byte>)
    requires |b| >= 3
    ensures Encodes(b, Quad(b[0], b[1], b[2]))
  {
    QuadNumber(b[0], b[1], b[2]);
    BytesNumberIs(b[..3]);
  }

  lemma QuadNumber(a: Byte, b: Byte, c: Byte)
    ensures Group(Quad(a, b, c)) && GroupNumber(Quad(a, b, c)) == a * 65536 + b * 256 + c
  {
    SymbolLookup(a / 4);
    SymbolLookup(a % 4 * 16 + b / 16);
    SymbolLookup(b % 16 * 4 + c / 64);
    SymbolLookup(c % 64);
  }

  lemma PaddedEncodes(b: seq<Byte>)
    requires 1 <= |b| <= 2
    ensures Encodes(b, Padded(b))
  {
    BytesNumberIs(b);
    var y := if |b| == 1 then 0 else b[1];
    SymbolLookup(b[0] / 4);
    SymbolLookup(b[0] % 4 * 16 + y / 16);
    SymbolLookup(y % 16 * 4);
  }

  /** Every byte of a decoding is one of the three bytes of the number its group is, whatever characters are in it;
      a text that does not consist of groups decodes to nothing. */
  lemma {:induction false} DecodesBits(s: string, k: nat, i: nat)
    requires s != "" && i < 3 && 3 * k + i < |Decode(s)|
    ensures |s| % 4 == 0 && 4 * k + 4 <= |s|
    ensures Decode(s)[3 * k + i] == GroupByte(GroupNumber(s[4 * k..4 * k + 4]), i)
  {
    GroupOf(|s|, k, i);
    TripleAt(s, k);
    TripleNumber(s[4 * k..4 * k + 4]);
    assert Decode(s)[3 * k + i] == Triples(s)[3 * k + i];
    HeldByte(Triples(s), 3 * k, Triple(s[4 * k..4 * k + 4]), i);
  }

  /** Byte `i` of a number of three bytes, the first one most significant. */
  function GroupByte(n: nat, i: nat): nat {
    (if i == 0 then n / 65536 else if i == 1 then n / 256 else n) % 256
  }

  lemma GroupOf(n: nat, k: nat, i: nat)
    requires 3 * k + i < n / 4 * 3
    ensures 4 * k + 4 <= n
  {
  }

  lemma HeldByte(all: seq<Byte>, at: nat, triple: seq<Byte>, i: nat)
    requires Holds(all, at, triple) && i < 3
    ensures all[at + i] == triple[i]
  {
  }

  lemma TripleNumber(q: string)
    requires |q| == 4
    ensures var n := GroupNumber(q); Triple(q) == [n / 65536 % 256, n / 256 % 256, n % 256]
  {
    forall c ensures Sextets(c) == Lookup(c) {}
  }

  // ----- lengths -----

  /** Four characters for every three bytes begun. */
  lemma {:induction false} EncodedLength(b: seq<Byte>)
    ensures |Encode(b)| == (|b| + 2) / 3 * 4
  {
    if |b| >= 3 {
      EncodedLength(b[3..]);
    }
    GroupsFor(|b|);
  }

  lemma GroupsFor(n: nat)
    ensures n >= 3 ==> (n + 2) / 3 == (n - 3 + 2) / 3 + 1
    ensures 1 <= n <= 3 ==> (n + 2) / 3 == 1
  {
  }

  lemma LengthOfGroups(s: string, m: nat)
    requires s != "" && |s| == 4 * m
    ensures DecodedLength(s) == 3 * m - (if s[|s| - 1] == '=' then 1 else 0) - (if s[|s| - 2] == '=' then 1 else 0)
  {
    RemainderIs(|s|, 4, m, 0);
  }

  /** The `len * 4 / 3 + 4` bytes that write_cfg allocates hold the text and its NUL; not one of them
      can be spared exactly when the last group has a single byte. */
  lemma BufferFits(b: seq<Byte>)
    ensures |Encode(b)| + 1 <= |b| * 4 / 3 + 4
    ensures |Encode(b)| + 1 == |b| * 4 / 3 + 4 <==> |b| % 3 == 1
  {
    EncodedLength(b);
    var k, r := |b| / 3, |b| % 3;
    RemainderIs(|b| * 4, 3, 4 * k + r, r);
    if r == 0 {
      RemainderIs(|b| + 2, 3, k, 2);
    } else {
      RemainderIs(|b| + 2, 3, k + 1, r - 1);
    }
  }

  /** How many characters pad the text, and where. */
  lemma {:induction false} Padding(b: seq<Byte>)
    requires b != []
    ensures |Encode(b)| >= 4 && DecodedLength(Encode(b)) == |b|
  {
    EncodedLength(b);
    var s := Encode(b);
    LengthOfGroups(s, (|b| + 2) / 3);
    if |b| > 3 {
      Padding(b[3..]);
      EncodedLength(b[3..]);
      GroupsFor(|b|);
      LengthOfGroups(Encode(b[3..]), (|b| - 3 + 2) / 3);
      SameEnd(Quad(b[0], b[1], b[2]), Encode(b[3..]));
    } else {
      LastPadding(b);
    }
  }

  lemma SameEnd(q: string, t: string)
    requires |t| >= 2
    ensures var s := q + t; s[|s| - 1] == t[|t| - 1] && s[|s| - 2] == t[|t| - 2]
  {
  }

  lemma LastPadding(b: seq<Byte>)
    requires 1 <= |b| <= 3
    ensures var s := Encode(b); |s| == 4 && (s[3] == '=' <==> |b| < 3) && (s[2] == '=' <==> |b| < 2)
  {
    if |b| == 3 {
      assert Encode(b[3..]) == "";
      SymbolLookup(b[1] % 16 * 4 + b[2] / 64);
      SymbolLookup(b[2] % 64);
    } else if |b| == 2 {
      SymbolLookup(b[1] % 16 * 4);
    }
  }

  /** Decoding undoes encoding, for every non-empty sequence of bytes. */
  lemma {:induction false} DecodeEncode(b: seq<Byte>)
    requires b != []
    ensures Encode(b) != "" && Decode(Encode(b)) == b
  {
    Padding(b);
    TriplesOfEncode(b);
  }

  lemma TriplesNext(q: string, t: string, b: seq<Byte>)
    requires |q| == 4 && |b| >= 3 && Triple(q + t) == [b[0], b[1], b[2]] && b[3..] <= Triples(t)
    ensures b <= Triples(q + t)
  {
    assert (q + t)[4..] == t;
    assert b == [b[0], b[1], b[2]] + b[3..];
  }

  lemma {:induction false} TriplesOfEncode(b: seq<Byte>)
    ensures b <= Triples(Encode(b))
  {
    if |b| >= 3 {
      var t := Encode(b[3..]);
      TripleOfQuad(b[0], b[1], b[2], t);
      TriplesOfEncode(b[3..]);
      TriplesNext(Quad(b[0], b[1], b[2]), t, b);
    } else if b != [] {
      TripleOfPadded(b);
    }
  }

  // ----- which texts are encodings -----

  /** A full group of table characters. */
  predicate Group(q: string) {
    |q| == 4 && InTable(q[0]) && InTable(q[1]) && InTable(q[2]) && InTable(q[3])
  }

  /** A group with one or two padding characters, the bits they cut off being zero. */
  predicate PaddedGroup(q: string) {
    && |q| == 4 && InTable(q[0]) && InTable(q[1]) && q[3] == '='
    && (if q[2] == '=' then Lookup(q[1]) % 16 == 0 else InTable(q[2]) && Lookup(q[2]) % 4 == 0)
  }

  predicate Canonical(s: string) {
    if |s| <= 4 then Group(s) || PaddedGroup(s)
    else Group(s[..4]) && Canonical(s[4..])
  }

  /** Encoding undoes decoding exactly for the canonical texts. */
  lemma EncodeDecode(s: string)
    requires s != ""
    ensures Encode(Decode(s)) == s <==> Canonical(s)
  {
    if Canonical(s) {
      EncodeOfDecode(s);
    }
    if Encode(Decode(s)) == s {
      EncodeIsCanonical(Decode(s));
    }
  }

  lemma {:induction false} EncodeIsCanonical(b: seq<Byte>)
    requires b != []
    ensures Canonical(Encode(b))
  {
    if |b| >= 3 {
      QuadIsGroup(b[0], b[1], b[2]);
      var t := Encode(b[3..]);
      if |b| > 3 {
        EncodeIsCanonical(b[3..]);
        Padding(b[3..]);
        assert Encode(b)[..4] == Quad(b[0], b[1], b[2]) && Encode(b)[4..] == t;
      } else {
        assert Encode(b) == Quad(b[0], b[1], b[2]);
      }
    } else {
      PaddedIsGroup(b);
    }
  }

  lemma QuadIsGroup(a: Byte, b: Byte, c: Byte)
    ensures Group(Quad(a, b, c))
  {
    SymbolLookup(a / 4);
    SymbolLookup(a % 4 * 16 + b / 16);
    SymbolLookup(b % 16 * 4 + c / 64);
    SymbolLookup(c % 64);
  }

  lemma PaddedIsGroup(b: seq<Byte>)
    requires 1 <= |b| <= 2
    ensures PaddedGroup(Padded(b))
  {
    var y := if |b| == 1 then 0 else b[1];
    SymbolLookup(b[0] / 4);
    SymbolLookup(b[0] % 4 * 16 + y / 16);
    SymbolLookup(y % 16 * 4);
  }

  lemma {:induction false} CanonicalLength(s: string)
    requires Canonical(s)
    ensures |s| >= 4 && |s| % 4 == 0 && (|s| > 4 ==> DecodedLength(s) == 3 + DecodedLength(s[4..]) && Group(s[..4]))
  {
    var m := CanonicalGroups(s);
    LengthOfGroups(s, m);
    if |s| > 4 {
      LengthOfGroups(s[4..], m - 1);
    }
    RemainderIs(|s|, 4, m, 0);
  }

  lemma {:induction false} CanonicalGroups(s: string) returns (m: nat)
    requires Canonical(s)
    ensures m > 0 && |s| == 4 * m
  {
    m := 1;
    if |s| > 4 {
      m := CanonicalGroups(s[4..]);
      m := m + 1;
    }
  }

  lemma {:induction false} EncodeOfDecode(s: string)
    requires Canonical(s)
    ensures s != "" && Encode(Decode(s)) == s
  {
    CanonicalLength(s);
    if |s| == 4 {
      LastGroupBack(s);
    } else {
      EncodeOfDecode(s[4..]);
      GroupBack(s);
      var t, b := Triple(s), Decode(s);
      assert b == t + Decode(s[4..]);
      assert b[3..] == Decode(s[4..]);
      assert s == s[..4] + s[4..];
    }
  }

  lemma GroupBack(s: string)
    requires |s| >= 4 && Group(s[..4])
    ensures var t := Triple(s); Quad(t[0], t[1], t[2]) == s[..4]
  {
    RegroupBack(Sextets(s[0]), Sextets(s[1]), Sextets(s[2]), Sextets(s[3]));
    LookupSymbol(s[0]);
    LookupSymbol(s[1]);
    LookupSymbol(s[2]);
    LookupSymbol(s[3]);
  }

  lemma LastGroupBack(s: string)
    requires Group(s) || PaddedGroup(s)
    ensures Encode(Decode(s)) == s
  {
    assert s[..4] == s && Triples(s) == Triple(s) + Triples("");
    if Group(s) {
      GroupBack(s);
      var t := Triple(s);
      assert Decode(s) == t && Encode(t[3..]) == "";
    } else {
      PaddedBack(s);
    }
  }

  lemma PaddedBack(s: string)
    requires PaddedGroup(s)
    ensures var b := Triple(s)[..if s[2] == '=' then 1 else 2]; Padded(b) == s
  {
    RegroupBack(Lookup(s[0]), Lookup(s[1]), Sextets(s[2]), 0);
    LookupSymbol(s[0]);
    LookupSymbol(s[1]);
    if s[2] != '=' {
      LookupSymbol(s[2]);
    }
  }
}

module Base64 {
  import opened RtDef
  import opened Base64Spec

  const NUL: char := '\0'

  /** The buffer after the text has been written to its start. */
  ghost predicate Written<T(!new)>(now: seq<T>, before: seq<T>, text: seq<T>) {
    |text| <= |now| == |before| && now == text + before[|text|..]
  }

  lemma WriteNext<T(!new)>(now: seq<T>, before: seq<T>, text: seq<T>, c: T)
    requires Written(now, before, text) && |text| < |now|
    ensures Written(now[|text| := c], before, text + [c])
  {
  }

  method Put<T(!new)>(out: array<T>, c: T, ghost before: seq<T>, ghost text: seq<T>, pos: nat) returns (next: nat)
    requires Written(out[..], before, text) && pos == |text| < out.Length
    modifies out
    ensures next == pos + 1 && Written(out[..], before, text + [c])
  {
    ghost var now := out[..];
    WriteNext(now, before, text, c);
    out[pos] := c;
    assert out[..] == now[pos := c];
    next := pos + 1;
  }

  /** str_base64_encode_len. */
  method Encode(src: seq<Byte>, out: array<char>)
    requires |Base64Spec.Encode(src)| < out.Length
    modifies out
    ensures Written(out[..], old(out[..]), Base64Spec.Encode(src) + [NUL])
  {
    ghost var text, before := Base64Spec.Encode(src), out[..];
    ghost var rest := text;
    var i, pos := 0, 0;
    assert src[0..] == src && text[..0] == [];
    while |src| - i >= 3
      invariant i <= |src| && pos <= |text| && text[pos..] == rest == Base64Spec.Encode(src[i..])
      invariant Written(out[..], before, text[..pos])
    {
      EncodeNext(src, i);
      rest := Base64Spec.Encode(src[i + 3..]);
      pos := PutQuad(out, Quad(src[i], src[i + 1], src[i + 2]), before, text, pos, rest);
      i := i + 3;
    }
    EncodeLast(src, i);
    if |src| - i > 0 {
      pos := PutLast(out, src[i..], before, text, pos);
    }
    assert text[..pos] == text;
    pos := Put(out, NUL, before, text, pos);
  }

  /** The last one or two bytes. */
  method PutLast(out: array<char>, last: seq<Byte>, ghost before: seq<char>, ghost text: string, pos: nat) returns (next: nat)
    requires 1 <= |last| <= 2 && pos <= |text| < out.Length && text[pos..] == Padded(last) && Written(out[..], before, text[..pos])
    modifies out
    ensures next == |text| && Written(out[..], before, text[..next])
  {
    if |last| == 1 {
      next := PutQuad(out, [Symbol(last[0] / 4), Symbol(last[0] % 4 * 16), '=', '='], before, text, pos, "");
    } else {
      next := PutQuad(out, [Symbol(last[0] / 4), Symbol(last[0] % 4 * 16 + last[1] / 16), Symbol(last[1] % 16 * 4), '='],
                      before, text, pos, "");
    }
  }

  lemma EncodeNext(src: seq<Byte>, i: nat)
    requires i + 3 <= |src|
    ensures Base64Spec.Encode(src[i..]) == Quad(src[i], src[i + 1], src[i + 2]) + Base64Spec.Encode(src[i + 3..])
  {
    assert src[i..][3..] == src[i + 3..];
  }

  lemma EncodeLast(src: seq<Byte>, i: nat)
    requires |src| - 3 < i <= |src|
    ensures Base64Spec.Encode(src[i..]) == if i == |src| then "" else Padded(src[i..])
  {
  }

  method PutQuad(out: array<char>, q: string, ghost before: seq<char>, ghost text: string, pos: nat, ghost rest: string) returns (next: nat)
    requires |q| == 4 && pos <= |text| < out.Length && text[pos..] == q + rest && Written(out[..], before, text[..pos])
    modifies out
    ensures next == pos + 4 <= |text| && Written(out[..], before, text[..next])
    ensures text[next..] == rest
  {
    next := pos;
    for k := 0 to 4
      invariant next == pos + k && Written(out[..], before, text[..next])
    {
      assert text[next] == (q + rest)[k] == q[k];
      next := Put(out, q[k], before, text[..next], next);
      assert text[..next] == text[..next - 1] + [q[k]];
    }
  }

  /** The buffer of write_cfg with the encoded configuration. */
  method WriteCfg(buff: seq<Byte>) returns (base64_buf: array<char>)
    ensures fresh(base64_buf) && base64_buf.Length == |buff| * 4 / 3 + 4
    ensures Base64Spec.Encode(buff) + [NUL] <= base64_buf[..]
  {
    BufferFits(buff);
    base64_buf := new char[|buff| * 4 / 3 + 4];
    Encode(buff, base64_buf);
  }

  /** str_base64_decode. */
  method Decode(data: string, decoded: array<Byte>) returns (out_len: nat)
    requires data != "" && DecodedLength(data) <= decoded.Length
    modifies decoded
    ensures out_len == DecodedLength(data) && Written(decoded[..], old(decoded[..]), Base64Spec.Decode(data))
  {
    ghost var before := decoded[..];
    if |data| % 4 != 0 {
      return 0;
    }
    out_len := |data| / 4 * 3;
    if data[|data| - 1] == '=' {
      out_len := out_len - 1;
    }
    if data[|data| - 2] == '=' {
      out_len := out_len - 1;
    }
    ghost var all := Triples(data);
    forall k: nat | 4 * k + 4 <= |data| ensures GroupAt(data, all, k) {
      TripleAt(data, k);
    }
    PutGroups(data, decoded, out_len, all, |data| / 4);
  }

  /** The loop over the groups of four characters. */
  method PutGroups(data: string, decoded: array<Byte>, out_len: nat, ghost all: seq<Byte>, ghost groups: nat)
    requires |data| == 4 * groups && out_len <= |all| == 3 * groups && out_len <= decoded.Length
    requires forall k: nat :: 4 * k + 4 <= |data| ==> GroupAt(data, all, k)
    modifies decoded
    ensures Written(decoded[..], old(decoded[..]), all[..out_len])
  {
    ghost var before := decoded[..];
    var i, j := 0, 0;
    ghost var k := 0;
    assert all[..0] == [];
    while i < |data|
      invariant i == 4 * k <= |data| && j == Min(3 * k, out_len)
      invariant Written(decoded[..], before, all[..j])
    {
      assert GroupAt(data, all, k);
      var triple := Triple(data[i..i + 4]);
      j := PutTriple(decoded, triple, out_len, before, all, j, 3 * k);
      i, k := i + 4, k + 1;
    }
  }

  method PutTriple(decoded: array<Byte>, triple: seq<Byte>, out_len: nat, ghost before: seq<Byte>, ghost all: seq<Byte>, j: nat, ghost base: nat)
    returns (next: nat)
    requires Holds(all, base, triple)
    requires j == Min(base, out_len) && out_len <= |all| && out_len <= decoded.Length
    requires Written(decoded[..], before, all[..j])
    modifies decoded
    ensures next == Min(base + 3, out_len) && Written(decoded[..], before, all[..next])
  {
    next := PutUpTo(decoded, triple[0], out_len, before, all, j);
    next := PutUpTo(decoded, triple[1], out_len, before, all, next);
    next := PutUpTo(decoded, triple[2], out_len, before, all, next);
  }

  /** Writes byte `j`, unless there are enough. */
  method PutUpTo(decoded: array<Byte>, c: Byte, out_len: nat, ghost before: seq<Byte>, ghost all: seq<Byte>, j: nat) returns (next: nat)
    requires j <= out_len <= |all| && out_len <= decoded.Length && (j < out_len ==> all[j] == c)
    requires Written(decoded[..], before, all[..j])
    modifies decoded
    ensures next == Min(j + 1, out_len) && Written(decoded[..], before, all[..next])
  {
    next := j;
    if next < out_len {
      next := Put(decoded, c, before, all[..next], next);
      assert all[..next] == all[..next - 1] + [c];
    }
  }
}
