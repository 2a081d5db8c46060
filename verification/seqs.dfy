/** Sequence facts shared by the grid rules and the log cleaner: distinctness, the
    order-keeping filter a list comprehension `[x for x in s if f(x)]` computes, and the
    position of an element. */
module Seqs {

  predicate Distinct<T(==)>(s: seq<T>) {
    forall i, j :: 0 <= i < j < |s| ==> s[i] != s[j]
  }

  /** `[x for x in s if keep(x)]`: the elements of `s` that pass `keep`, each as often as
      in `s`. */
  function Filter<T(==,!new)>(s: seq<T>, keep: T -> bool): (r: seq<T>)
    ensures |r| <= |s|
    ensures forall x :: x in r <==> x in s && keep(x)
    ensures forall x :: multiset(r)[x] == if keep(x) then multiset(s)[x] else 0
  {
    if |s| == 0 then []
    else
      assert s == [s[0]] + s[1..];
      (if keep(s[0]) then [s[0]] else []) + Filter(s[1..], keep)
  }

  /** Filtering a concatenation filters each part: the kept elements stay in the order
      they had. */
  lemma {:induction false} FilterConcat<T(!new)>(a: seq<T>, b: seq<T>, keep: T -> bool)
    ensures Filter(a + b, keep) == Filter(a, keep) + Filter(b, keep)
  {
    if |a| > 0 {
      var head := if keep(a[0]) then [a[0]] else [];
      assert (a + b)[0] == a[0] && (a + b)[1..] == a[1..] + b;
      FilterConcat(a[1..], b, keep);
      assert Filter(a + b, keep) == head + Filter(a[1..] + b, keep);
      assert Filter(a, keep) == head + Filter(a[1..], keep);
      Associative(head, Filter(a[1..], keep), Filter(b, keep));
    } else {
      assert a + b == b;
    }
  }

  lemma Associative<T>(x: seq<T>, y: seq<T>, z: seq<T>)
    ensures x + (y + z) == (x + y) + z
  {
  }

  /** A filter every element passes leaves the list as it is. */
  lemma {:induction false} FilterAllKept<T(!new)>(s: seq<T>, keep: T -> bool)
    requires forall i :: 0 <= i < |s| ==> keep(s[i])
    ensures Filter(s, keep) == s
  {
    if |s| > 0 {
      FilterAllKept(s[1..], keep);
      assert s == [s[0]] + s[1..];
    }
  }

  /** The first position of `x` in `s`. */
  function IndexOf<T(==)>(s: seq<T>, x: T): (i: nat)
    requires x in s
    ensures i < |s| && s[i] == x
    ensures forall j :: 0 <= j < i ==> s[j] != x
  {
    if s[0] == x then 0 else 1 + IndexOf(s[1..], x)
  }

  /** `r` lists elements of `s` once each, in the order they have in `s`. */
  ghost predicate InOrderOf<T>(r: seq<T>, s: seq<T>) {
    && Distinct(r)
    && (forall x :: x in r ==> x in s)
    && forall a, b :: 0 <= a < b < |r| ==> IndexOf(s, r[a]) < IndexOf(s, r[b])
  }

  /** In a list without repetitions, the filter keeps the elements in their order there. */
  lemma {:induction false} FilterKeepsOrder<T(!new)>(s: seq<T>, keep: T -> bool)
    requires Distinct(s)
    ensures InOrderOf(Filter(s, keep), s)
  {
    if |s| > 0 {
      DistinctTail(s);
      FilterKeepsOrder(s[1..], keep);
      var tail := Filter(s[1..], keep);
      if keep(s[0]) {
        assert Filter(s, keep) == [s[0]] + tail;
        ConsOrder(s, tail);
      } else {
        assert Filter(s, keep) == tail;
        TailOrder(s, tail);
      }
    }
  }

  /** An ordered list from the tail stays ordered in the whole list. */
  lemma TailOrder<T>(s: seq<T>, r: seq<T>)
    requires Distinct(s) && |s| > 0 && InOrderOf(r, s[1..])
    ensures InOrderOf(r, s)
  {
    forall x | x in r ensures IndexOf(s, x) == 1 + IndexOf(s[1..], x) {
      IndexOfTail(s, x);
    }
  }

  /** The head followed by an ordered list from the tail is ordered in the whole list. */
  lemma ConsOrder<T>(s: seq<T>, r: seq<T>)
    requires Distinct(s) && |s| > 0 && InOrderOf(r, s[1..])
    ensures InOrderOf([s[0]] + r, s)
  {
    DistinctTail(s);
    TailOrder(s, r);
    var c := [s[0]] + r;
    forall a, b | 0 <= a < b < |c| ensures c[a] != c[b] && IndexOf(s, c[a]) < IndexOf(s, c[b]) {
      assert c[b] == r[b - 1];
      if a > 0 {
        assert c[a] == r[a - 1];
      }
    }
  }

  /** The tail of a list without repetitions has none either, and lacks the head. */
  lemma DistinctTail<T>(s: seq<T>)
    requires Distinct(s) && |s| > 0
    ensures Distinct(s[1..]) && s[0] !in s[1..]
  {
    forall i, j | 0 <= i < j < |s| - 1 ensures s[1..][i] != s[1..][j] {
      assert s[1..][i] == s[i + 1] && s[1..][j] == s[j + 1];
    }
    forall i | 0 <= i < |s| - 1 ensures s[1..][i] != s[0] {
      assert s[1..][i] == s[i + 1];
    }
  }

  /** Past the head, a position in the tail is one more in the whole list. */
  lemma IndexOfTail<T>(s: seq<T>, x: T)
    requires Distinct(s) && |s| > 0 && x in s[1..]
    ensures IndexOf(s, x) == 1 + IndexOf(s[1..], x)
  {
    DistinctTail(s);
  }

  /** Two lists without repetitions and with the same elements are permutations of each
      other. */
  lemma {:induction false} SameElements<T>(a: seq<T>, b: seq<T>)
    requires Distinct(a) && Distinct(b)
    requires forall x :: x in a <==> x in b
    ensures multiset(a) == multiset(b)
  {
    forall x ensures multiset(a)[x] == multiset(b)[x] {
      DistinctCount(a, x);
      DistinctCount(b, x);
    }
  }

  /** An element of a list without repetitions occurs in it once. */
  lemma {:induction false} DistinctCount<T>(s: seq<T>, x: T)
    requires Distinct(s)
    ensures multiset(s)[x] == if x in s then 1 else 0
  {
    if |s| > 0 {
      assert s == [s[0]] + s[1..];
      DistinctTail(s);
      DistinctCount(s[1..], x);
    }
  }

  /** Where the slice `xs[:n]` ends on a list of length `len`: a negative `n` counts from
      the end, and the bound is clipped to the list. */
  function SliceEnd(n: int, len: nat): (e: nat)
    ensures e <= len
    ensures 0 <= n ==> e == n || (e == len && len < n)
    ensures n < 0 ==> e + -n == len || (e == 0 && len < -n)
  {
    if n < 0 then (if len + n < 0 then 0 else len + n)
    else if n <= len then n else len
  }
}
