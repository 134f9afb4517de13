/**
 Sorting by a strict total order, and the lexicographic order on strings that breaks ties
 between events.
 */
module Sorting {

  /** `less` orders the members of `s` strictly and totally. */
  ghost predicate StrictTotalOn<T(!new)>(less: (T, T) -> bool, s: set<T>) {
    && (forall x | x in s :: !less(x, x))
    && (forall x, y | x in s && y in s && x != y :: less(x, y) || less(y, x))
    && (forall x, y, z | x in s && y in s && z in s && less(x, y) && less(y, z) :: less(x, z))
  }

  ghost function Elements<T>(s: seq<T>): set<T> {
    set x | x in s
  }

  ghost predicate SortedBy<T>(less: (T, T) -> bool, s: seq<T>) {
    forall i, j | 0 <= i < j < |s| :: !less(s[j], s[i])
  }

  ghost predicate Distinct<T>(s: seq<T>) {
    forall i, j | 0 <= i < j < |s| :: s[i] != s[j]
  }

  /** Insertion sort: a sorted permutation of the input. */
  method SortBy<T(==, !new)>(s: seq<T>, less: (T, T) -> bool) returns (r: seq<T>)
    requires StrictTotalOn(less, Elements(s))
    ensures multiset(r) == multiset(s) && SortedBy(less, r)
    ensures forall x :: x in r <==> x in s
    ensures Distinct(s) ==> Distinct(r)
  {
    r := [];
    for i := 0 to |s|
      invariant multiset(r) == multiset(s[..i]) && SortedBy(less, r)
      invariant forall x :: x in r <==> x in s[..i]
      invariant Distinct(s) ==> Distinct(r)
    {
      r := Insert(r, s[i], less);
      assert s[..i + 1] == s[..i] + [s[i]];
    }
    assert s[..|s|] == s;
  }

  method Insert<T(==, !new)>(s: seq<T>, x: T, less: (T, T) -> bool) returns (r: seq<T>)
    requires SortedBy(less, s) && StrictTotalOn(less, Elements(s) + {x})
    ensures multiset(r) == multiset(s) + multiset{x} && SortedBy(less, r)
    ensures forall y :: y in r <==> y in s || y == x
    ensures Distinct(s) && x !in s ==> Distinct(r)
  {
    var k := 0;
    while k < |s| && less(s[k], x)
      invariant 0 <= k <= |s|
      invariant forall i | 0 <= i < k :: less(s[i], x)
    {
      k := k + 1;
    }
    InsertKeepsSorted(s, x, k, less);
    if Distinct(s) && x !in s {
      InsertKeepsDistinct(s, x, k);
    }
    assert s == s[..k] + s[k..];
    r := s[..k] + [x] + s[k..];
  }

  lemma InsertKeepsDistinct<T(!new)>(s: seq<T>, x: T, k: nat)
    requires k <= |s| && Distinct(s) && x !in s
    ensures Distinct(s[..k] + [x] + s[k..])
  {
    var r := s[..k] + [x] + s[k..];
    forall i, j | 0 <= i < j < |r|
      ensures r[i] != r[j]
    {
      assert i < k ==> r[i] == s[i];
      assert i > k ==> r[i] == s[i - 1];
      assert j < k ==> r[j] == s[j];
      assert j > k ==> r[j] == s[j - 1];
    }
  }

  lemma InsertKeepsSorted<T(!new)>(s: seq<T>, x: T, k: nat, less: (T, T) -> bool)
    requires SortedBy(less, s) && StrictTotalOn(less, Elements(s) + {x})
    requires k <= |s| && (forall i | 0 <= i < k :: less(s[i], x)) && (k < |s| ==> !less(s[k], x))
    ensures SortedBy(less, s[..k] + [x] + s[k..])
  {
    var all := Elements(s) + {x};
    forall i | k <= i < |s|
      ensures !less(s[i], x)
    {
      assert s[i] in all && s[k] in all && x in all;
    }
    forall i | 0 <= i < k
      ensures !less(x, s[i])
    {
      assert s[i] in all && x in all;
    }
    var r := s[..k] + [x] + s[k..];
    forall i, j | 0 <= i < j < |r|
      ensures !less(r[j], r[i])
    {
      var a := if i <= k then i else i - 1;
      var b := if j <= k then j else j - 1;
      assert i != k ==> r[i] == s[a];
      assert j != k ==> r[j] == s[b];
    }
  }

  /** Byte-wise string comparison. */
  predicate StringLess(a: string, b: string) {
    b != [] && (a == [] || a[0] < b[0] || (a[0] == b[0] && StringLess(a[1..], b[1..])))
  }

  lemma {:induction false} StringLessTotal(a: string, b: string)
    ensures !StringLess(a, a)
    ensures a != b ==> StringLess(a, b) || StringLess(b, a)
    decreases |a|
  {
    if a != [] {
      StringLessTotal(a[1..], if b == [] then [] else b[1..]);
      if b != [] && a[0] == b[0] && a[1..] == b[1..] {
        assert a == [a[0]] + a[1..] && b == [b[0]] + b[1..];
      }
    }
  }

  lemma {:induction false} StringLessTransitive(a: string, b: string, c: string)
    requires StringLess(a, b) && StringLess(b, c)
    ensures StringLess(a, c)
    decreases |a|
  {
    if a != [] && a[0] == b[0] && b[0] == c[0] {
      StringLessTransitive(a[1..], b[1..], c[1..]);
    }
  }

  /** The string order is strict and total on every set of strings. */
  lemma StringOrder(s: set<string>)
    ensures StrictTotalOn(StringLess, s)
  {
    forall x, y
      ensures !StringLess(x, x) && (x != y ==> StringLess(x, y) || StringLess(y, x))
    {
      StringLessTotal(x, y);
    }
    forall x, y, z | StringLess(x, y) && StringLess(y, z)
      ensures StringLess(x, z)
    {
      StringLessTransitive(x, y, z);
    }
  }

  /** The order is lexicographic: a proper prefix comes first, and otherwise the first
      difference decides. */
  lemma {:induction false} StringLessMeans(a: string, b: string)
    ensures StringLess(a, b) <==>
            exists k: nat :: k <= |a| && k < |b| && a[..k] == b[..k] && (k == |a| || a[k] < b[k])
    decreases |a|
  {
    if a != [] && b != [] && a[0] == b[0] {
      StringLessMeans(a[1..], b[1..]);
      if StringLess(a, b) {
        var k: nat :| k <= |a[1..]| && k < |b[1..]| && a[1..][..k] == b[1..][..k] &&
                      (k == |a[1..]| || a[1..][k] < b[1..][k]);
        assert a[..k + 1] == [a[0]] + a[1..][..k] && b[..k + 1] == [b[0]] + b[1..][..k];
      }
      if k: nat :| k <= |a| && k < |b| && a[..k] == b[..k] && (k == |a| || a[k] < b[k]) {
        assert k > 0;
        assert a[1..][..k - 1] == a[..k][1..] && b[1..][..k - 1] == b[..k][1..];
      }
    } else if a == [] {
      assert b != [] ==> a[..0] == b[..0];
    } else if StringLess(a, b) {
      assert a[..0] == b[..0];
    }
  }

  lemma {:induction false} CommonPrefix(p: string, a: string, b: string)
    ensures StringLess(p + a, p + b) <==> StringLess(a, b)
  {
    if p == [] {
      assert p + a == a && p + b == b;
    } else {
      assert (p + a)[1..] == p[1..] + a && (p + b)[1..] == p[1..] + b;
      CommonPrefix(p[1..], a, b);
    }
  }

  /** Between texts of one length the rest does not matter. */
  lemma {:induction false} EarlierDecides(a: string, b: string, x: string, y: string)
    requires |a| == |b| && StringLess(a, b)
    ensures StringLess(a + x, b + y)
  {
    if a[0] == b[0] {
      assert (a + x)[1..] == a[1..] + x && (b + y)[1..] == b[1..] + y;
      EarlierDecides(a[1..], b[1..], x, y);
    }
  }

  // ------------------------------------------------------------------------- digits

  function Power10(n: nat): nat {
    if n == 0 then 1 else 10 * Power10(n - 1)
  }

  function Digit(d: nat): char
    requires d < 10
  {
    ('0' as int + d) as char
  }

  /** The number in decimal, padded with zeros to the width. */
  function Padded(n: nat, width: nat): (s: string)
    ensures |s| == width
  {
    if width == 0 then "" else Padded(n / 10, width - 1) + [Digit(n % 10)]
  }

  /** Padded numbers that fit are ordered as text like the numbers themselves. */
  lemma {:induction false} PaddedOrders(n: nat, m: nat, width: nat)
    requires n < m < Power10(width)
    ensures StringLess(Padded(n, width), Padded(m, width))
  {
    if n / 10 < m / 10 {
      PaddedOrders(n / 10, m / 10, width - 1);
      EarlierDecides(Padded(n / 10, width - 1), Padded(m / 10, width - 1), [Digit(n % 10)], [Digit(m % 10)]);
    } else {
      CommonPrefix(Padded(n / 10, width - 1), [Digit(n % 10)], [Digit(m % 10)]);
    }
  }
}
