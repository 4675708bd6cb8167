/** Comparing request targets up to the case of percent-encoded octets. */
module RequestTarget {
  import opened Basics

  const PERCENT: byte := 0x25

  function Lower(c: byte): byte {
    if 0x41 <= c <= 0x46 then c + 0x20 else c
  }

  /** A percent-encoded octet stands at the head. */
  predicate Triplet(s: Bytes) {
    |s| >= 3 && s[0] == PERCENT && IsHex(s[1]) && IsHex(s[2])
  }

  /** Section 6.2.2.1 of RFC 3986, from left to right, with lower case as the common form. */
  function Normalize(s: Bytes): (r: Bytes)
    ensures |r| == |s|
  {
    if s == [] then []
    else if Triplet(s) then [PERCENT, Lower(s[1]), Lower(s[2])] + Normalize(s[3..])
    else [s[0]] + Normalize(s[1..])
  }

  /** Octets a target stands for. */
  function Decode(s: Bytes): Bytes {
    if s == [] then []
    else if Triplet(s) then [(HexValue(s[1]) * 16 + HexValue(s[2])) as byte] + Decode(s[3..])
    else [s[0]] + Decode(s[1..])
  }

  /** Which of those octets are percent-encoded. */
  function Encoded(s: Bytes): seq<bool> {
    if s == [] then []
    else if Triplet(s) then [true] + Encoded(s[3..])
    else [false] + Encoded(s[1..])
  }

  lemma LowerIsValue(a: byte, b: byte)
    requires IsHex(a) && IsHex(b)
    ensures Lower(a) == Lower(b) <==> HexValue(a) == HexValue(b)
  {
  }

  method EqualHex(a: byte, b: byte) returns (r: bool)
    ensures r <==> Lower(a) == Lower(b)
    ensures IsHex(a) && IsHex(b) ==> (r <==> HexValue(a) == HexValue(b))
  {
    var x, y := a, b;
    if 0x41 <= x <= 0x46 {
      x := x + 0x20;
    }
    if 0x41 <= y <= 0x46 {
      y := y + 0x20;
    }
    return x == y;
  }

  /** Walks both targets at once and finds them equal exactly when they stand for the same octets and have the same ones
      percent-encoded; the only difference left is the case of the digits. */
  method EqualRequestTarget(a: Bytes, b: Bytes) returns (equal: bool)
    ensures equal <==> Encoded(a) == Encoded(b) && Decode(a) == Decode(b)
    ensures equal <==> Normalize(a) == Normalize(b)
  {
    SameNormalFormIff(a, b);
    if |a| != |b| {
      return false;
    }
    var i := 0;
    while i < |a|
      invariant i <= |a| == |b|
      invariant Normalize(a) == Normalize(b) <==> Normalize(a[i..]) == Normalize(b[i..])
      decreases |a| - i
    {
      Aligned(a[i..], b[i..]);
      if a[i] == PERCENT && b[i] == PERCENT && i + 2 < |a|
         && IsHex(a[i + 1]) && IsHex(a[i + 2]) && IsHex(b[i + 1]) && IsHex(b[i + 2]) {
        var first := EqualHex(a[i + 1], b[i + 1]);
        var second := EqualHex(a[i + 2], b[i + 2]);
        if !first || !second {
          return false;
        }
        assert a[i..][3..] == a[i + 3..] && b[i..][3..] == b[i + 3..];
        i := i + 3;
      } else {
        if a[i] != b[i] {
          return false;
        }
        assert a[i..][1..] == a[i + 1..] && b[i..][1..] == b[i + 1..];
        i := i + 1;
      }
    }
    return true;
  }

  /** What the head contributes to equality: two triplets are compared as such, anything else byte by byte. Where only
      one side has a triplet the two differ within it. */
  lemma Aligned(s: Bytes, t: Bytes)
    requires |s| == |t| > 0
    ensures Triplet(s) && Triplet(t) ==>
              (Normalize(s) == Normalize(t) <==>
                 Lower(s[1]) == Lower(t[1]) && Lower(s[2]) == Lower(t[2]) && Normalize(s[3..]) == Normalize(t[3..]))
    ensures !(Triplet(s) && Triplet(t)) ==>
              (Normalize(s) == Normalize(t) <==> s[0] == t[0] && Normalize(s[1..]) == Normalize(t[1..]))
  {
    if Triplet(s) && Triplet(t) {
      assert Normalize(s)[3..] == Normalize(s[3..]) && Normalize(t)[3..] == Normalize(t[3..]);
      assert Normalize(s)[1] == Lower(s[1]) && Normalize(s)[2] == Lower(s[2]);
      assert Normalize(t)[1] == Lower(t[1]) && Normalize(t)[2] == Lower(t[2]);
    } else if Triplet(s) {
      OneSided(s, t);
    } else if Triplet(t) {
      OneSided(t, s);
    } else {
      assert Normalize(s)[1..] == Normalize(s[1..]) && Normalize(t)[1..] == Normalize(t[1..]);
    }
  }

  lemma OneSided(s: Bytes, t: Bytes)
    requires |s| == |t| && Triplet(s) && !Triplet(t)
    ensures Normalize(s) != Normalize(t)
    ensures s[0] == t[0] ==> Normalize(s[1..]) != Normalize(t[1..])
  {
    hide Normalize;
    NormalizedHead(s);
    NormalizedHead(t);
    KeepsHeads(s[1..]);
    KeepsHeads(t[1..]);
  }

  /** How a normal form begins. */
  lemma NormalizedHead(s: Bytes)
    requires s != []
    ensures Triplet(s) ==>
              Normalize(s)[0] == PERCENT && Normalize(s)[1] == Lower(s[1]) && Normalize(s)[2] == Lower(s[2])
    ensures !Triplet(s) ==> Normalize(s)[0] == s[0] && Normalize(s)[1..] == Normalize(s[1..])
  {
  }

  /** Normalizing never changes a first byte, nor the second when the first is no percent sign. */
  lemma KeepsHeads(s: Bytes)
    ensures s != [] ==> Normalize(s)[0] == s[0]
    ensures |s| >= 2 && s[0] != PERCENT ==> Normalize(s)[1] == s[1]
  {
    if |s| >= 2 && s[0] != PERCENT {
      assert Normalize(s)[1..] == Normalize(s[1..]);
    }
  }

  lemma TripletsKept(s: Bytes)
    ensures Triplet(Normalize(s)) <==> Triplet(s)
  {
    if s != [] && !Triplet(s) {
      assert Normalize(s)[1..] == Normalize(s[1..]);
      KeepsHeads(s[1..]);
    }
  }

  /** Normalizing is idempotent and keeps what a target stands for, so equal targets stand for the same octets. */
  lemma {:induction false} NormalizeKeepsMeaning(s: Bytes)
    ensures Decode(Normalize(s)) == Decode(s)
    ensures Normalize(Normalize(s)) == Normalize(s)
  {
    if s != [] {
      var n := Normalize(s);
      if Triplet(s) {
        NormalizeKeepsMeaning(s[3..]);
        assert n[3..] == Normalize(s[3..]);
        TripletsKept(s);
      } else {
        NormalizeKeepsMeaning(s[1..]);
        assert n[1..] == Normalize(s[1..]);
        TripletsKept(s);
      }
    }
  }

  lemma SameLists<T>(x: seq<T>, xs: seq<T>, y: seq<T>, ys: seq<T>)
    requires |x| == |y|
    ensures x + xs == y + ys <==> x == y && xs == ys
  {
    if x + xs == y + ys {
      assert (x + xs)[..|x|] == x && (y + ys)[..|y|] == y;
      assert (x + xs)[|x|..] == xs && (y + ys)[|y|..] == ys;
    }
  }

  /** Two digits of either case, two digits again: they are the same up to case exactly when they spell one octet. */
  lemma SameOctet(s: Bytes, t: Bytes)
    requires Triplet(s) && Triplet(t)
    ensures [PERCENT, Lower(s[1]), Lower(s[2])] == [PERCENT, Lower(t[1]), Lower(t[2])] <==>
            [(HexValue(s[1]) * 16 + HexValue(s[2])) as byte] == [(HexValue(t[1]) * 16 + HexValue(t[2])) as byte]
  {
    hide Lower;
    LowerIsValue(s[1], t[1]);
    LowerIsValue(s[2], t[2]);
  }

  /** What two triplets at the heads contribute. */
  lemma TripletsAtHeads(a: Bytes, b: Bytes)
    requires Triplet(a) && Triplet(b)
    requires Normalize(a[3..]) == Normalize(b[3..]) <==>
             Encoded(a[3..]) == Encoded(b[3..]) && Decode(a[3..]) == Decode(b[3..])
    ensures Normalize(a) == Normalize(b) <==> Encoded(a) == Encoded(b) && Decode(a) == Decode(b)
  {
    hide Lower;
    SameOctet(a, b);
    SameLists([PERCENT, Lower(a[1]), Lower(a[2])], Normalize(a[3..]), [PERCENT, Lower(b[1]), Lower(b[2])],
              Normalize(b[3..]));
    SameLists([true], Encoded(a[3..]), [true], Encoded(b[3..]));
    SameLists([(HexValue(a[1]) * 16 + HexValue(a[2])) as byte], Decode(a[3..]),
              [(HexValue(b[1]) * 16 + HexValue(b[2])) as byte], Decode(b[3..]));
  }

  /** Two targets have one normal form exactly when they stand for the same octets and have the same ones encoded. */
  lemma {:induction false} SameNormalFormIff(a: Bytes, b: Bytes)
    ensures Normalize(a) == Normalize(b) <==> Encoded(a) == Encoded(b) && Decode(a) == Decode(b)
  {
    hide Lower, HexValue;
    if a == [] || b == [] {
    } else if Triplet(a) && Triplet(b) {
      SameNormalFormIff(a[3..], b[3..]);
      TripletsAtHeads(a, b);
    } else if Triplet(a) || Triplet(b) {
      assert Encoded(a)[0] != Encoded(b)[0];
      if |a| == |b| {
        if Triplet(a) {
          OneSided(a, b);
        } else {
          OneSided(b, a);
        }
      }
    } else {
      SameNormalFormIff(a[1..], b[1..]);
      SameLists([a[0]], Normalize(a[1..]), [b[0]], Normalize(b[1..]));
      SameLists([false], Encoded(a[1..]), [false], Encoded(b[1..]));
      SameLists([a[0]], Decode(a[1..]), [b[0]], Decode(b[1..]));
    }
  }
}
