/** Sorted enumeration of finite sets, and the lexicographic order of strings by which the
    database sorts its clustering columns and compares ids. */
module Order {

  ghost predicate TotalOrder<T(!new)>(leq: (T, T) -> bool) {
    && (forall a, b :: leq(a, b) || leq(b, a))
    && (forall a, b :: leq(a, b) && leq(b, a) ==> a == b)
    && (forall a, b, c :: leq(a, b) && leq(b, c) ==> leq(a, c))
  }

  ghost predicate IsLeast<T(!new)>(m: T, s: set<T>, leq: (T, T) -> bool) {
    m in s && forall x :: x in s ==> leq(m, x)
  }

  ghost predicate Ascending<T(!new)>(r: seq<T>, leq: (T, T) -> bool) {
    forall i, j :: 0 <= i < j < |r| ==> r[i] != r[j] && leq(r[i], r[j])
  }

  /** `r` lists every element of `s` once, in ascending order. */
  ghost predicate Enumerates<T(!new)>(r: seq<T>, s: set<T>, leq: (T, T) -> bool) {
    Ascending(r, leq) && (forall x :: x in r <==> x in s) && |r| == |s|
  }

  lemma {:induction false} LeastExists<T(!new)>(s: set<T>, leq: (T, T) -> bool)
    requires TotalOrder(leq) && s != {}
    ensures exists m :: IsLeast(m, s, leq)
    decreases |s|
  {
    var x :| x in s;
    var rest := s - {x};
    if rest == {} {
      assert s == {x};
      assert IsLeast(x, s, leq);
    } else {
      LeastExists(rest, leq);
      var r :| IsLeast(r, rest, leq);
      var m := if leq(x, r) then x else r;
      assert forall y :: y in s ==> y == x || y in rest;
      assert IsLeast(m, s, leq);
    }
  }

  function Least<T(!new, ==)>(s: set<T>, leq: (T, T) -> bool): (m: T)
    requires TotalOrder(leq) && s != {}
    ensures IsLeast(m, s, leq)
  {
    LeastExists(s, leq);
    var m :| m in s && forall x :: x in s ==> leq(m, x);
    m
  }

  /** The rows of a partition in clustering order. */
  function Sorted<T(!new, ==)>(s: set<T>, leq: (T, T) -> bool): seq<T>
    requires TotalOrder(leq)
    decreases |s|
  {
    if s == {} then [] else
    var m := Least(s, leq);
    [m] + Sorted(s - {m}, leq)
  }

  lemma {:induction false} SortedEnumerates<T(!new)>(s: set<T>, leq: (T, T) -> bool)
    requires TotalOrder(leq)
    ensures Enumerates(Sorted(s, leq), s, leq)
    decreases |s|
  {
    if s != {} {
      var m := Least(s, leq);
      SortedEnumerates(s - {m}, leq);
      assert s == (s - {m}) + {m};
    }
  }

  /** There is only one ascending enumeration of a set. */
  lemma {:induction false} EnumerationUnique<T(!new)>(a: seq<T>, b: seq<T>, leq: (T, T) -> bool)
    requires TotalOrder(leq) && Ascending(a, leq) && Ascending(b, leq)
    requires forall x :: x in a <==> x in b
    ensures a == b
    decreases |a|
  {
    assert (a != [] ==> a[0] in b) && (b != [] ==> b[0] in a);
    if a != [] && b != [] {
      assert a[0] == b[0];
      forall x ensures x in a[1..] <==> x in b[1..] {
        if x in a[1..] { assert x in a && x != a[0]; assert x in b; }
        if x in b[1..] { assert x in b && x != b[0]; assert x in a; }
      }
      EnumerationUnique(a[1..], b[1..], leq);
      assert a == [a[0]] + a[1..] && b == [b[0]] + b[1..];
    }
  }

  /** In an ascending list everything in a prefix lies below everything after it. */
  lemma PrefixBelow<T(!new)>(r: seq<T>, k: nat, a: T, b: T, leq: (T, T) -> bool)
    requires Ascending(r, leq) && k <= |r| && a in r[..k] && b in r && b !in r[..k]
    ensures leq(a, b) && a != b
  {
    var i :| 0 <= i < k && r[..k][i] == a;
    var j :| 0 <= j < |r| && r[j] == b;
    assert forall x :: 0 <= x < k ==> r[..k][x] == r[x];
  }

  lemma {:induction false} DistinctCount<T>(r: seq<T>)
    requires forall i, j :: 0 <= i < j < |r| ==> r[i] != r[j]
    ensures |set x | x in r| == |r|
  {
    if r != [] {
      var n := |r| - 1;
      DistinctCount(r[..n]);
      assert (set x | x in r) == (set x | x in r[..n]) + {r[n]};
    }
  }

  predicate IntLeq(a: int, b: int) { a <= b }

  lemma IntOrder()
    ensures TotalOrder(IntLeq)
  {
  }

  /** Lexicographic order: the text order of the archive database and of the document ids. */
  predicate StrLeq(a: string, b: string) {
    a == [] || (b != [] && (a[0] < b[0] || (a[0] == b[0] && StrLeq(a[1..], b[1..]))))
  }

  lemma {:induction false} StrTotal(a: string, b: string)
    ensures StrLeq(a, b) || StrLeq(b, a)
  {
    if a != [] && b != [] && a[0] == b[0] { StrTotal(a[1..], b[1..]); }
  }

  lemma {:induction false} StrAntisymmetric(a: string, b: string)
    requires StrLeq(a, b) && StrLeq(b, a)
    ensures a == b
  {
    if a != [] && b != [] {
      StrAntisymmetric(a[1..], b[1..]);
      assert a == [a[0]] + a[1..] && b == [b[0]] + b[1..];
    }
  }

  lemma {:induction false} StrTransitive(a: string, b: string, c: string)
    requires StrLeq(a, b) && StrLeq(b, c)
    ensures StrLeq(a, c)
  {
    if a != [] && a[0] == b[0] == c[0] { StrTransitive(a[1..], b[1..], c[1..]); }
  }

  lemma StrOrder()
    ensures TotalOrder(StrLeq)
  {
    forall a, b ensures StrLeq(a, b) || StrLeq(b, a) { StrTotal(a, b); }
    forall a, b | StrLeq(a, b) && StrLeq(b, a) ensures a == b { StrAntisymmetric(a, b); }
    forall a, b, c | StrLeq(a, b) && StrLeq(b, c) ensures StrLeq(a, c) { StrTransitive(a, b, c); }
  }

  function SortedStrings(s: set<string>): seq<string> {
    StrOrder();
    Sorted(s, StrLeq)
  }

  lemma SortedStringsEnumerate(s: set<string>)
    ensures Enumerates(SortedStrings(s), s, StrLeq)
  {
    StrOrder();
    SortedEnumerates(s, StrLeq);
  }

  /** A common prefix does not influence the order. */
  lemma {:induction false} StrPrefix(p: string, a: string, b: string)
    ensures StrLeq(p + a, p + b) <==> StrLeq(a, b)
  {
    if p == [] {
      assert p + a == a && p + b == b;
    } else {
      assert (p + a)[1..] == p[1..] + a && (p + b)[1..] == p[1..] + b;
      StrPrefix(p[1..], a, b);
    }
  }

  /** Whatever lies between a prefix and one of its extensions has that prefix. */
  lemma {:induction false} StrBetween(p: string, x: string, w: string)
    requires StrLeq(p, x) && StrLeq(x, p + w)
    ensures p <= x
  {
    if p != [] {
      assert (p + w)[1..] == p[1..] + w;
      StrBetween(p[1..], x[1..], w);
    }
  }

  function Reverse<T>(s: seq<T>): (r: seq<T>)
    ensures |r| == |s| && forall i :: 0 <= i < |s| ==> r[i] == s[|s| - 1 - i]
  {
    seq(|s|, i requires 0 <= i < |s| => s[|s| - 1 - i])
  }

  /** A query's LIMIT. */
  function Limit<T>(s: seq<T>, n: nat): seq<T> {
    if n < |s| then s[..n] else s
  }

  function Elements<T>(r: seq<T>): set<T> { set x | x in r }

  lemma {:induction false} ElementsBound<T>(r: seq<T>)
    ensures |Elements(r)| <= |r|
  {
    if r != [] {
      ElementsBound(r[..|r| - 1]);
      assert Elements(r) == Elements(r[..|r| - 1]) + {r[|r| - 1]};
    }
  }

  /** A list with as many elements as positions repeats nothing. */
  lemma CountMeansDistinct<T>(r: seq<T>, i: nat)
    requires |Elements(r)| == |r| && i < |r|
    ensures r[i] !in r[..i]
  {
    if r[i] in r[..i] {
      var rest := r[..i] + r[i + 1..];
      assert r == r[..i] + [r[i]] + r[i + 1..];
      assert Elements(r) == Elements(rest);
      ElementsBound(rest);
    }
  }

  /** An ascending list cut in two: the parts are disjoint, and the first lies below the second. */
  lemma SplitEnumeration<T(!new)>(r: seq<T>, s: set<T>, k: nat, leq: (T, T) -> bool)
    requires Enumerates(r, s, leq) && k <= |r|
    ensures Elements(r[..k]) !! Elements(r[k..]) && Elements(r[..k]) + Elements(r[k..]) == s
    ensures |Elements(r[..k])| == k
    ensures forall a, b :: a in Elements(r[..k]) && b in Elements(r[k..]) ==> leq(a, b) && a != b
  {
    DistinctCount(r[..k]);
    forall a, b | a in Elements(r[..k]) && b in Elements(r[k..]) ensures leq(a, b) && a != b {
      SplitAscending(r, k, a, b, leq);
    }
    SplitElements(r, k);
    assert Elements(r) == s;
  }

  lemma SplitAscending<T(!new)>(r: seq<T>, k: nat, a: T, b: T, leq: (T, T) -> bool)
    requires Ascending(r, leq) && k <= |r| && a in r[..k] && b in r[k..]
    ensures leq(a, b) && a != b
  {
    var i :| 0 <= i < k && r[..k][i] == a;
    var j :| 0 <= j < |r[k..]| && r[k..][j] == b;
    assert r[i] == a && r[k + j] == b;
  }

  lemma SplitElements<T>(r: seq<T>, k: nat)
    requires k <= |r|
    ensures Elements(r[..k]) + Elements(r[k..]) == Elements(r)
  {
    assert r == r[..k] + r[k..];
  }

  /** The first rows in descending order are the last ones in ascending order. */
  lemma NewestRows<T>(r: seq<T>, n: nat)
    ensures Elements(Limit(Reverse(r), n)) == Elements(r[if n < |r| then |r| - n else 0..])
  {
    var k := if n < |r| then |r| - n else 0;
    var found, high := Limit(Reverse(r), n), r[k..];
    assert |found| == |high| && forall i :: 0 <= i < |high| ==> high[i] == found[|high| - 1 - i];
    assert forall i :: 0 <= i < |found| ==> found[i] == high[|high| - 1 - i];
  }

  /** The last row of an enumeration is the greatest. */
  lemma LastIsGreatest<T(!new)>(r: seq<T>, s: set<T>, leq: (T, T) -> bool)
    requires TotalOrder(leq) && Enumerates(r, s, leq) && r != []
    ensures r[|r| - 1] in s && forall x :: x in s ==> leq(x, r[|r| - 1])
  {
    assert r[|r| - 1] in r;
    forall x | x in s ensures leq(x, r[|r| - 1]) {
      assert x in r;
      var i :| 0 <= i < |r| && r[i] == x;
      assert leq(x, x);
    }
  }
}
