/** UTF-8 as RFC 3629 defines it: encoding, a strict decoder, and the byte order of encoded strings. A `char` is a Unicode
    scalar value. */
module Utf8 {
  import opened Basics
  import opened Ordering

  function EncodeRune(c: char): (b: Bytes)
    ensures 1 <= |b| <= 4
  {
    var n := c as int;
    if n < 0x80 then [n as byte]
    else if n < 0x800 then [(0xC0 + n / 64) as byte, (0x80 + n % 64) as byte]
    else if n < 0x1_0000 then [(0xE0 + n / 4096) as byte, (0x80 + n / 64 % 64) as byte, (0x80 + n % 64) as byte]
    else
      [(0xF0 + n / 262144) as byte, (0x80 + n / 4096 % 64) as byte, (0x80 + n / 64 % 64) as byte,
       (0x80 + n % 64) as byte]
  }

  function Encode(s: string): Bytes {
    if s == [] then [] else EncodeRune(s[0]) + Encode(s[1..])
  }

  predicate Continues(b: byte) {
    0x80 <= b < 0xC0
  }

  predicate Scalar(n: int) {
    0 <= n < 0xD800 || 0xE000 <= n < 0x11_0000
  }

  /** The number a lead byte and its continuation bytes spell, and how many bytes that takes; overlong spellings,
      surrogates and broken sequences are refused. */
  function DecodeRune(b: Bytes): (r: Option<(char, nat)>)
    ensures r.Some? ==> 1 <= r.value.1 <= |b|
  {
    if b == [] then None
    else if b[0] < 0x80 then Some((b[0] as char, 1))
    else if 0xC0 <= b[0] < 0xE0 && |b| >= 2 && Continues(b[1]) then
      var n := (b[0] as int - 0xC0) * 64 + (b[1] as int - 0x80);
      if n >= 0x80 then Some((n as char, 2)) else None
    else if 0xE0 <= b[0] < 0xF0 && |b| >= 3 && Continues(b[1]) && Continues(b[2]) then
      var n := (b[0] as int - 0xE0) * 4096 + (b[1] as int - 0x80) * 64 + (b[2] as int - 0x80);
      if n >= 0x800 && Scalar(n) then Some((n as char, 3)) else None
    else if 0xF0 <= b[0] < 0xF8 && |b| >= 4 && Continues(b[1]) && Continues(b[2]) && Continues(b[3]) then
      var n := (b[0] as int - 0xF0) * 262144 + (b[1] as int - 0x80) * 4096 + (b[2] as int - 0x80) * 64
               + (b[3] as int - 0x80);
      if n >= 0x1_0000 && Scalar(n) then Some((n as char, 4)) else None
    else None
  }

  /** A number below 64^4 is spelled by its digits to the base 64. */
  lemma Base64(n: nat)
    ensures n == n / 64 * 64 + n % 64
    ensures n / 64 == n / 4096 * 64 + n / 64 % 64
    ensures n / 4096 == n / 262144 * 64 + n / 4096 % 64
  {
    assert n / 64 / 64 == n / 4096;
    assert n / 4096 / 64 == n / 262144;
  }

  lemma DecodeEncoded(c: char, rest: Bytes)
    ensures DecodeRune(EncodeRune(c) + rest) == Some((c, |EncodeRune(c)|))
  {
    Base64(c as int);
    match |EncodeRune(c)|
    case 1 =>
    case 2 => DecodeTwo(c, rest);
    case 3 => DecodeThree(c, rest);
    case _ => DecodeFour(c, rest);
  }

  lemma DecodeTwo(c: char, rest: Bytes)
    requires 0x80 <= c as int < 0x800
    ensures DecodeRune(EncodeRune(c) + rest) == Some((c, 2))
  {
    Base64(c as int);
  }

  lemma DecodeThree(c: char, rest: Bytes)
    requires 0x800 <= c as int < 0x1_0000
    ensures DecodeRune(EncodeRune(c) + rest) == Some((c, 3))
  {
    Base64(c as int);
    var b := EncodeRune(c) + rest;
    assert (b[0] as int - 0xE0) * 4096 + (b[1] as int - 0x80) * 64 + (b[2] as int - 0x80) == c as int;
  }

  lemma DecodeFour(c: char, rest: Bytes)
    requires 0x1_0000 <= c as int
    ensures DecodeRune(EncodeRune(c) + rest) == Some((c, 4))
  {
    Base64(c as int);
    var b := EncodeRune(c) + rest;
    assert (b[0] as int - 0xF0) * 262144 + (b[1] as int - 0x80) * 4096 + (b[2] as int - 0x80) * 64
           + (b[3] as int - 0x80) == c as int;
  }

  /** Encoded strings can be told apart. */
  lemma {:induction false} EncodeInjective(a: string, b: string)
    requires Encode(a) == Encode(b)
    ensures a == b
  {
    if a != [] && b != [] {
      DecodeEncoded(a[0], Encode(a[1..]));
      DecodeEncoded(b[0], Encode(b[1..]));
      assert Encode(a)[|EncodeRune(a[0])|..] == Encode(a[1..]);
      assert Encode(b)[|EncodeRune(b[0])|..] == Encode(b[1..]);
      EncodeInjective(a[1..], b[1..]);
      assert a == [a[0]] + a[1..] && b == [b[0]] + b[1..];
    }
  }

  /** Strings ordered by their encoded bytes, as Go compares them. */
  predicate ByteOrder(a: string, b: string) {
    LexLess(Encode(a), Encode(b))
  }

  lemma ByteOrderIsStrict()
    ensures StrictOrder(ByteOrder)
  {
    LexIsStrictOrder();
    forall a ensures !ByteOrder(a, a) {
      assert !LexLess(Encode(a), Encode(a));
    }
    forall a, b ensures a == b || ByteOrder(a, b) || ByteOrder(b, a) {
      if Encode(a) == Encode(b) {
        EncodeInjective(a, b);
      }
      assert Encode(a) == Encode(b) || LexLess(Encode(a), Encode(b)) || LexLess(Encode(b), Encode(a));
    }
    forall a, b, c | ByteOrder(a, b) && ByteOrder(b, c) ensures ByteOrder(a, c) {
      assert LexLess(Encode(a), Encode(b)) && LexLess(Encode(b), Encode(c));
    }
  }

  // ------------------------------------------------------------------ byte order and UTF-16 order

  type Units = seq<int>

  /** The UTF-16 code units of a character (section 2.1 of RFC 2781). */
  function UnitsOfRune(c: char): (u: Units)
    ensures 1 <= |u| <= 2
  {
    var n := c as int;
    if n < 0x1_0000 then [n] else [0xD800 + (n - 0x1_0000) / 1024, 0xDC00 + (n - 0x1_0000) % 1024]
  }

  function UnitsOf(s: string): Units {
    if s == [] then [] else UnitsOfRune(s[0]) + UnitsOf(s[1..])
  }

  predicate UnitsLess(a: Units, b: Units) {
    Lexicographic(UnitLess, a, b)
  }

  predicate UnitLess(x: int, y: int) {
    x < y
  }

  /** The order section 3.2.3 of RFC 8785 asks for. */
  predicate Utf16Order(a: string, b: string) {
    UnitsLess(UnitsOf(a), UnitsOf(b))
  }

  /** Code point order. */
  predicate RuneOrder(a: string, b: string) {
    Lexicographic(RuneLess, a, b)
  }

  predicate RuneLess(c: char, d: char) {
    c < d
  }

  /** At the first place where the strings differ, one has a character beyond the basic plane and the other one of the
      characters U+E000 to U+FFFF, which UTF-16 sorts behind all surrogates. */
  predicate Straddles(a: string, b: string) {
    if a == [] || b == [] then false
    else if a[0] == b[0] then Straddles(a[1..], b[1..])
    else
      || (a[0] as int >= 0x1_0000 && 0xE000 <= b[0] as int < 0x1_0000)
      || (b[0] as int >= 0x1_0000 && 0xE000 <= a[0] as int < 0x1_0000)
  }

  lemma {:induction false} StraddlesSymmetric(a: string, b: string)
    ensures Straddles(a, b) <==> Straddles(b, a)
  {
    if a != [] && b != [] && a[0] == b[0] {
      StraddlesSymmetric(a[1..], b[1..]);
    }
  }

  lemma {:induction false} StraddlesIrreflexive(a: string)
    ensures !Straddles(a, a)
  {
    if a != [] {
      StraddlesIrreflexive(a[1..]);
    }
  }

  lemma LexSameHead(x: Bytes, y: Bytes)
    requires x != [] && y != [] && x[0] == y[0]
    ensures LexLess(x, y) <==> LexLess(x[1..], y[1..])
  {
  }

  lemma {:induction false} LexCommonPrefix(p: Bytes, a: Bytes, b: Bytes)
    ensures LexLess(p + a, p + b) <==> LexLess(a, b)
  {
    hide LexLess;
    if p == [] {
      assert p + a == a && p + b == b;
    } else {
      LexCommonPrefix(p[1..], a, b);
      assert (p + a)[1..] == p[1..] + a && (p + b)[1..] == p[1..] + b;
      LexSameHead(p + a, p + b);
    }
  }

  lemma LexAt(x: Bytes, y: Bytes, k: nat)
    requires k < |x| && k < |y| && x[..k] == y[..k] && x[k] != y[k]
    ensures LexLess(x, y) <==> x[k] < y[k]
  {
    LexCommonPrefix(x[..k], x[k..], y[k..]);
    assert x[..k] + x[k..] == x && y[..k] + y[k..] == y;
  }

  lemma LeadingDigitDecides(n: nat, m: nat)
    ensures n / 64 != m / 64 ==> (n < m <==> n / 64 < m / 64)
    ensures n / 64 == m / 64 ==> (n < m <==> n % 64 < m % 64)
    ensures n / 64 == m / 64 && n % 64 == m % 64 ==> n == m
  {
  }

  /** Numbers compare as their digits to the base 64 do, the leading one first. */
  lemma DigitsDecide(n: nat, m: nat)
    ensures n / 262144 != m / 262144 ==> (n < m <==> n / 262144 < m / 262144)
    ensures n / 262144 == m / 262144 && n / 4096 % 64 != m / 4096 % 64 ==> (n < m <==> n / 4096 % 64 < m / 4096 % 64)
    ensures n / 262144 == m / 262144 && n / 4096 % 64 == m / 4096 % 64 ==> n / 4096 == m / 4096
    ensures n / 4096 != m / 4096 ==> (n < m <==> n / 4096 < m / 4096)
    ensures n / 4096 == m / 4096 && n / 64 % 64 != m / 64 % 64 ==> (n < m <==> n / 64 % 64 < m / 64 % 64)
    ensures n / 4096 == m / 4096 && n / 64 % 64 == m / 64 % 64 ==> n / 64 == m / 64
    ensures n / 64 != m / 64 ==> (n < m <==> n / 64 < m / 64)
    ensures n / 64 == m / 64 ==> (n < m <==> n % 64 < m % 64)
    ensures n / 64 == m / 64 && n % 64 == m % 64 ==> n == m
  {
    assert n / 64 / 64 == n / 4096 && m / 64 / 64 == m / 4096;
    assert n / 4096 / 64 == n / 262144 && m / 4096 / 64 == m / 262144;
    LeadingDigitDecides(n, m);
    LeadingDigitDecides(n / 64, m / 64);
    LeadingDigitDecides(n / 4096, m / 4096);
  }

  ghost predicate DiffersAt(x: Bytes, y: Bytes, k: nat, less: bool) {
    k < |x| && k < |y| && x[..k] == y[..k] && x[k] != y[k] && (x[k] < y[k] <==> less)
  }

  /** Where the encodings of two characters first differ, they differ as the code points do. */
  lemma FirstDifference(c: char, d: char) returns (k: nat)
    requires c != d
    ensures DiffersAt(EncodeRune(c), EncodeRune(d), k, c < d)
  {
    var x, y := EncodeRune(c), EncodeRune(d);
    if x[0] != y[0] {
      k := 0;
      LeadByteDecides(c, d);
    } else {
      LeadByteTellsLength(c, d);
      if |x| == 2 {
        DigitsDecide(c as int, d as int);
        k := 1;
      } else if |x| == 3 {
        k := AmongThree(c, d);
      } else {
        k := AmongFour(c, d);
      }
    }
  }

  lemma AmongThree(c: char, d: char) returns (k: nat)
    requires c != d && |EncodeRune(c)| == |EncodeRune(d)| == 3 && EncodeRune(c)[0] == EncodeRune(d)[0]
    ensures DiffersAt(EncodeRune(c), EncodeRune(d), k, c < d)
  {
    DigitsDecide(c as int, d as int);
    k := if EncodeRune(c)[1] != EncodeRune(d)[1] then 1 else 2;
  }

  lemma AmongFour(c: char, d: char) returns (k: nat)
    requires c != d && |EncodeRune(c)| == |EncodeRune(d)| == 4 && EncodeRune(c)[0] == EncodeRune(d)[0]
    ensures DiffersAt(EncodeRune(c), EncodeRune(d), k, c < d)
  {
    DigitsDecide(c as int, d as int);
    k := if EncodeRune(c)[1] != EncodeRune(d)[1] then 1 else if EncodeRune(c)[2] != EncodeRune(d)[2] then 2 else 3;
  }

  lemma LeadByteDecides(c: char, d: char)
    requires EncodeRune(c)[0] != EncodeRune(d)[0]
    ensures EncodeRune(c)[0] < EncodeRune(d)[0] <==> c < d
  {
    DigitsDecide(c as int, d as int);
  }

  lemma LeadByteTellsLength(c: char, d: char)
    requires EncodeRune(c)[0] == EncodeRune(d)[0]
    ensures |EncodeRune(c)| == |EncodeRune(d)|
    ensures |EncodeRune(c)| == 1 ==> c == d
  {
  }

  /** Different characters are ordered by their first different bytes as by their code points. */
  lemma RuneBytesOrdered(c: char, d: char, a: Bytes, b: Bytes)
    requires c != d
    ensures LexLess(EncodeRune(c) + a, EncodeRune(d) + b) <==> c < d
  {
    var k := FirstDifference(c, d);
    assert (EncodeRune(c) + a)[..k] == EncodeRune(c)[..k] && (EncodeRune(d) + b)[..k] == EncodeRune(d)[..k];
    LexAt(EncodeRune(c) + a, EncodeRune(d) + b, k);
  }

  lemma {:induction false} ByteOrderIsRuneOrder(a: string, b: string)
    ensures ByteOrder(a, b) <==> RuneOrder(a, b)
  {
    if a != [] && b != [] {
      if a[0] == b[0] {
        LexCommonPrefix(EncodeRune(a[0]), Encode(a[1..]), Encode(b[1..]));
        ByteOrderIsRuneOrder(a[1..], b[1..]);
      } else {
        RuneBytesOrdered(a[0], b[0], Encode(a[1..]), Encode(b[1..]));
      }
    }
  }

  lemma UnitsSecond(x: Units, y: Units)
    requires |x| >= 2 && |y| >= 2 && x[0] == y[0]
    ensures x[1] != y[1] ==> (UnitsLess(x, y) <==> x[1] < y[1])
    ensures x[1] == y[1] ==> (UnitsLess(x, y) <==> UnitsLess(x[2..], y[2..]))
  {
    assert x[1..][1..] == x[2..] && y[1..][1..] == y[2..];
    assert UnitsLess(x, y) <==> UnitsLess(x[1..], y[1..]);
  }

  lemma {:induction false} Utf16AgainstRunes(a: string, b: string)
    ensures Straddles(a, b) ==> (Utf16Order(a, b) <==> RuneOrder(b, a))
    ensures !Straddles(a, b) ==> (Utf16Order(a, b) <==> RuneOrder(a, b))
    ensures Straddles(a, b) ==> (RuneOrder(a, b) <==> !RuneOrder(b, a))
  {
    if a != [] && b != [] {
      var x, y := UnitsOf(a), UnitsOf(b);
      assert x[|UnitsOfRune(a[0])|..] == UnitsOf(a[1..]) && y[|UnitsOfRune(b[0])|..] == UnitsOf(b[1..]);
      if |UnitsOfRune(a[0])| == 2 == |UnitsOfRune(b[0])| && x[0] == y[0] {
        UnitsSecond(x, y);
      }
      if a[0] == b[0] {
        Utf16AgainstRunes(a[1..], b[1..]);
      }
    }
  }

  /** Sorting member names by bytes is sorting them as RFC 8785 asks, exactly for names that do not straddle. */
  lemma ByteOrderIsUtf16OrderIff(a: string, b: string)
    ensures (ByteOrder(a, b) <==> Utf16Order(a, b)) <==> !Straddles(a, b)
  {
    ByteOrderIsRuneOrder(a, b);
    Utf16AgainstRunes(a, b);
  }

  /** Two names that are sorted differently. */
  lemma OrdersDiffer()
    ensures ByteOrder("\U{FF5E}", "\U{1F511}") && !Utf16Order("\U{FF5E}", "\U{1F511}")
  {
    ByteOrderIsUtf16OrderIff("\U{FF5E}", "\U{1F511}");
    ByteOrderIsRuneOrder("\U{FF5E}", "\U{1F511}");
  }
}
