/** Byte strings, their lexicographic order, and sorting by a strict total order.

    Go strings are byte sequences and `sort.Strings` compares them byte by byte, so identifiers are modelled as
    `Bytes` and compared with `LexLess`. `Sort` stands for the library calls `sort.Strings` and `sort.Slice`. */
module Ordering {
  import opened Basics

  /** Byte-wise lexicographic order, a proper prefix first. */
  predicate LexLess(a: Bytes, b: Bytes) {
    Lexicographic(ByteLess, a, b)
  }

  predicate ByteLess(x: byte, y: byte) {
    x < y
  }

  predicate Lexicographic<T(==)>(less: (T, T) -> bool, a: seq<T>, b: seq<T>) {
    if b == [] then false
    else if a == [] then true
    else if a[0] != b[0] then less(a[0], b[0])
    else Lexicographic(less, a[1..], b[1..])
  }

  ghost predicate StrictOrder<T(!new)>(less: (T, T) -> bool) {
    && (forall x :: !less(x, x))
    && (forall x, y :: x == y || less(x, y) || less(y, x))
    && (forall x, y, z :: less(x, y) && less(y, z) ==> less(x, z))
  }

  ghost predicate Ascending<T>(less: (T, T) -> bool, s: seq<T>) {
    forall i, j :: 0 <= i < j < |s| ==> less(s[i], s[j])
  }

  ghost function Elements<T(!new)>(s: seq<T>): (r: set<T>)
    ensures forall x :: x in r <==> x in s
  {
    set x | x in s
  }

  ghost predicate Distinct<T>(s: seq<T>) {
    forall i, j :: 0 <= i < j < |s| ==> s[i] != s[j]
  }

  lemma AppendNew<T(!new)>(s: seq<T>, x: T)
    ensures Elements(s + [x]) == Elements(s) + {x}
    ensures Distinct(s) && x !in s ==> Distinct(s + [x])
  {
    assert (s + [x])[|s|] == x;
  }

  lemma {:induction false} LexIrreflexive(a: Bytes)
    ensures !LexLess(a, a)
  {
    if a != [] {
      LexIrreflexive(a[1..]);
    }
  }

  lemma {:induction false} LexTotal(a: Bytes, b: Bytes)
    ensures a == b || LexLess(a, b) || LexLess(b, a)
  {
    if a != [] && b != [] && a[0] == b[0] {
      LexTotal(a[1..], b[1..]);
      assert a == [a[0]] + a[1..] && b == [b[0]] + b[1..];
    }
  }

  lemma {:induction false} LexTransitive(a: Bytes, b: Bytes, c: Bytes)
    requires LexLess(a, b) && LexLess(b, c)
    ensures LexLess(a, c)
  {
    if a != [] && a[0] == b[0] && b[0] == c[0] {
      LexTransitive(a[1..], b[1..], c[1..]);
    }
  }

  lemma LexIsStrictOrder()
    ensures StrictOrder(LexLess)
  {
    forall a ensures !LexLess(a, a) { LexIrreflexive(a); }
    forall a, b ensures a == b || LexLess(a, b) || LexLess(b, a) { LexTotal(a, b); }
    forall a, b, c | LexLess(a, b) && LexLess(b, c) ensures LexLess(a, c) { LexTransitive(a, b, c); }
  }

  /** A strictly ascending sequence is determined by the set of its elements: whatever order the elements arrive in,
      sorting them gives one result. */
  lemma {:induction false} AscendingUnique<T(!new)>(less: (T, T) -> bool, s: seq<T>, t: seq<T>)
    requires StrictOrder(less) && Ascending(less, s) && Ascending(less, t)
    requires Elements(s) == Elements(t)
    ensures s == t
  {
    assert t == [] || t[0] in Elements(t);
    if s != [] {
      assert s[0] in Elements(t) && (t != [] ==> t[0] in Elements(s));
      var i :| 0 <= i < |t| && t[i] == s[0];
      var j :| 0 <= j < |s| && s[j] == t[0];
      assert s[0] == t[0];
      forall x ensures x in Elements(s[1..]) <==> x in Elements(t[1..]) {
        TailElements(less, s, x);
        TailElements(less, t, x);
      }
      AscendingUnique(less, s[1..], t[1..]);
      assert s == [s[0]] + s[1..] && t == [t[0]] + t[1..];
    }
  }

  lemma TailElements<T(!new)>(less: (T, T) -> bool, s: seq<T>, x: T)
    requires StrictOrder(less) && Ascending(less, s) && s != []
    ensures x in s[1..] <==> x in s && x != s[0]
  {
    if x in s && x != s[0] {
      var i :| 0 <= i < |s| && s[i] == x;
      assert s[1..][i - 1] == x;
    }
    if x in s[1..] {
      var i :| 0 <= i < |s[1..]| && s[1..][i] == x;
      assert s[i + 1] == x && less(s[0], s[i + 1]);
    }
  }

  /** A strictly ascending sequence lists its set of elements without repetition. */
  lemma {:induction false} AscendingLength<T(!new)>(less: (T, T) -> bool, s: seq<T>)
    requires StrictOrder(less) && Ascending(less, s)
    ensures |s| == |Elements(s)|
  {
    if s == [] {
      assert Elements(s) == {};
    } else {
      AscendingLength(less, s[1..]);
      forall x ensures x in Elements(s[1..]) <==> x in Elements(s) - {s[0]} {
        TailElements(less, s, x);
      }
      assert Elements(s[1..]) == Elements(s) - {s[0]};
    }
  }

  /** The elements of `s` in ascending order. */
  ghost function SortedOf<T(!new)>(less: (T, T) -> bool, s: set<T>): (r: seq<T>)
    requires StrictOrder(less)
    ensures Ascending(less, r) && Elements(r) == s
    decreases |s|
  {
    if s == {} then []
    else
      MinimumExists(less, s);
      var m :| m in s && forall x :: x in s && x != m ==> less(m, x);
      var rest := SortedOf(less, s - {m});
      assert forall i :: 0 <= i < |rest| ==> rest[i] in Elements(rest);
      assert Elements([m] + rest) == s by {
        forall x ensures x in [m] + rest <==> x in s {
          assert x in rest <==> x in s - {m};
        }
      }
      [m] + rest
  }

  lemma {:induction false} MinimumExists<T(!new)>(less: (T, T) -> bool, s: set<T>)
    requires StrictOrder(less) && s != {}
    ensures exists m :: m in s && forall x :: x in s && x != m ==> less(m, x)
    decreases |s|
  {
    var a :| a in s;
    if s - {a} == {} {
      assert forall x :: x in s && x != a ==> x in s - {a};
    } else {
      MinimumExists(less, s - {a});
      var m :| m in s - {a} && forall x :: x in s - {a} && x != m ==> less(m, x);
      var least := if less(a, m) then a else m;
      forall x | x in s && x != least ensures less(least, x) {
        if x != a && x != m {
          assert x in s - {a} && less(m, x);
        }
      }
    }
  }

  /** Sorts a sequence without repetitions, by insertion. */
  method Sort<T(!new)>(less: (T, T) -> bool, s: seq<T>) returns (r: seq<T>)
    requires StrictOrder(less)
    requires Distinct(s)
    ensures Ascending(less, r) && Elements(r) == Elements(s)
    ensures r == SortedOf(less, Elements(s))
  {
    r := [];
    for n := 0 to |s|
      invariant Ascending(less, r) && Elements(r) == Elements(s[..n])
    {
      assert s[n] !in Elements(s[..n]);
      var k := |r|;
      while k > 0 && less(s[n], r[k - 1])
        invariant 0 <= k <= |r|
        invariant forall i :: k <= i < |r| ==> less(s[n], r[i])
      {
        k := k - 1;
      }
      assert forall i :: 0 <= i < |r| ==> r[i] in Elements(r);
      InsertAscending(less, r, k, s[n]);
      assert s[..n + 1] == s[..n] + [s[n]];
      r := r[..k] + [s[n]] + r[k..];
    }
    assert s[..|s|] == s;
    AscendingUnique(less, r, SortedOf(less, Elements(s)));
  }

  lemma InsertAscending<T(!new)>(less: (T, T) -> bool, r: seq<T>, k: nat, x: T)
    requires StrictOrder(less) && Ascending(less, r) && k <= |r| && x !in r
    requires forall i :: k <= i < |r| ==> less(x, r[i])
    requires k > 0 ==> !less(x, r[k - 1])
    ensures Ascending(less, r[..k] + [x] + r[k..])
    ensures Elements(r[..k] + [x] + r[k..]) == Elements(r) + {x}
  {
    forall i | 0 <= i < k ensures less(r[i], x) {
      assert r[k - 1] in r && less(r[k - 1], x);
      assert i == k - 1 || less(r[i], r[k - 1]);
    }
    InsertElements(r, k, x);
  }

  lemma InsertElements<T(!new)>(r: seq<T>, k: nat, x: T)
    requires k <= |r|
    ensures Elements(r[..k] + [x] + r[k..]) == Elements(r) + {x}
  {
    assert r == r[..k] + r[k..];
    forall y ensures y in r[..k] + [x] + r[k..] <==> y in r || y == x {
      assert y in r <==> y in r[..k] || y in r[k..];
    }
  }
}
