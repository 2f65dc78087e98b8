/**
 * The stable comparison sorts PHP 8 runs for `usort`, `uksort` and `asort`, and that the
 * Finder runs with a comparison callback, modelled as an insertion sort over a sequence.
 */
module Sorting {

  /** Every neighbouring pair is in order by `cmp` (which returns <0, 0 or >0, as PHP callbacks do). */
  ghost predicate Sorted<T>(s: seq<T>, cmp: (T, T) -> int) {
    forall i :: 0 < i < |s| ==> cmp(s[i - 1], s[i]) <= 0
  }

  /** `cmp` orders any two elements of `s` one way or the other. */
  ghost predicate TotalOn<T>(s: seq<T>, cmp: (T, T) -> int) {
    forall i, j :: 0 <= i < |s| && 0 <= j < |s| ==> cmp(s[i], s[j]) <= 0 || cmp(s[j], s[i]) <= 0
  }

  /** Inserts `x` after every element that does not compare greater than it (keeps the sort stable). */
  function Insert<T>(x: T, s: seq<T>, cmp: (T, T) -> int): seq<T> {
    if s == [] then [x]
    else if cmp(s[0], x) > 0 then [x] + s
    else [s[0]] + Insert(x, s[1..], cmp)
  }

  lemma SortedCons<T>(h: T, t: seq<T>, cmp: (T, T) -> int)
    requires Sorted(t, cmp)
    requires t != [] ==> cmp(h, t[0]) <= 0
    ensures Sorted([h] + t, cmp)
  {
    var s := [h] + t;
    forall i | 0 < i < |s| ensures cmp(s[i - 1], s[i]) <= 0 {
      if i > 1 { assert s[i - 1] == t[i - 2] && s[i] == t[i - 1]; }
    }
  }

  lemma SortedTail<T>(s: seq<T>, cmp: (T, T) -> int)
    requires s != [] && Sorted(s, cmp)
    ensures Sorted(s[1..], cmp)
  {
    var t := s[1..];
    forall i | 0 < i < |t| ensures cmp(t[i - 1], t[i]) <= 0 {
      assert t[i - 1] == s[i] && t[i] == s[i + 1];
    }
  }

  lemma {:induction false} InsertKeepsSorted<T>(x: T, s: seq<T>, cmp: (T, T) -> int)
    requires Sorted(s, cmp)
    requires forall y :: y in s ==> cmp(x, y) <= 0 || cmp(y, x) <= 0
    ensures Sorted(Insert(x, s, cmp), cmp)
    ensures multiset(Insert(x, s, cmp)) == multiset(s) + multiset{x}
    ensures |Insert(x, s, cmp)| == |s| + 1
    ensures Insert(x, s, cmp)[0] == x || (s != [] && Insert(x, s, cmp)[0] == s[0])
  {
    if s == [] {
    } else if cmp(s[0], x) > 0 {
      assert s[0] in s;
      SortedCons(x, s, cmp);
    } else {
      var t := s[1..];
      assert s == [s[0]] + t;
      SortedTail(s, cmp);
      assert forall y :: y in t ==> y in s;
      InsertKeepsSorted(x, t, cmp);
      var rest := Insert(x, t, cmp);
      assert rest[0] == x || (t != [] && rest[0] == t[0] && t[0] == s[1]);
      SortedCons(s[0], rest, cmp);
      assert Insert(x, s, cmp) == [s[0]] + rest;
    }
  }

  /** A permutation has the same elements. */
  lemma SameElements<T>(a: seq<T>, b: seq<T>)
    requires multiset(a) == multiset(b)
    ensures forall e :: e in a <==> e in b
  {
    forall e ensures e in a <==> e in b {
      assert e in a <==> e in multiset(a);
      assert e in b <==> e in multiset(b);
    }
  }

  lemma ComparableWithSorted<T>(a: seq<T>, cmp: (T, T) -> int, i: int, r: seq<T>)
    requires TotalOn(a, cmp) && 0 <= i < |a| && multiset(r) == multiset(a[..i])
    ensures forall y :: y in r ==> cmp(a[i], y) <= 0 || cmp(y, a[i]) <= 0
  {
    forall y | y in r ensures cmp(a[i], y) <= 0 || cmp(y, a[i]) <= 0 {
      assert y in multiset(a[..i]);
      var j :| 0 <= j < i && a[j] == y;
    }
  }

  /** The insertion sort as a fold: each element in turn is inserted into the sorted prefix. */
  function InsertAll<T>(a: seq<T>, cmp: (T, T) -> int): seq<T>
    decreases |a|
  {
    if a == [] then [] else Insert(a[|a| - 1], InsertAll(a[..|a| - 1], cmp), cmp)
  }

  lemma TotalOnPrefix<T>(a: seq<T>, cmp: (T, T) -> int, n: int)
    requires TotalOn(a, cmp) && 0 <= n <= |a|
    ensures TotalOn(a[..n], cmp)
  {
    var init := a[..n];
    forall i, j | 0 <= i < |init| && 0 <= j < |init|
      ensures cmp(init[i], init[j]) <= 0 || cmp(init[j], init[i]) <= 0
    {
      assert init[i] == a[i] && init[j] == a[j];
    }
  }

  lemma LastSplit<T>(a: seq<T>)
    requires a != []
    ensures a == a[..|a| - 1] + [a[|a| - 1]]
  {
  }

  /** With a total comparison the fold is ordered and a permutation of its input. */
  lemma {:induction false} InsertAllSorted<T>(a: seq<T>, cmp: (T, T) -> int)
    requires TotalOn(a, cmp)
    ensures Sorted(InsertAll(a, cmp), cmp)
    ensures multiset(InsertAll(a, cmp)) == multiset(a)
    decreases |a|
  {
    if a != [] {
      var n := |a| - 1;
      var init := a[..n];
      TotalOnPrefix(a, cmp, n);
      InsertAllSorted(init, cmp);
      assert a[..n] == init;
      ComparableWithSorted(a, cmp, n, InsertAll(init, cmp));
      InsertKeepsSorted(a[n], InsertAll(init, cmp), cmp);
      assert a == init + [a[n]];
    }
  }

  /** The elements of `s` that satisfy `p`, in their order in `s`. */
  function Filter<T>(s: seq<T>, p: T -> bool): seq<T>
  {
    if s == [] then [] else (if p(s[0]) then [s[0]] else []) + Filter(s[1..], p)
  }

  lemma {:induction false} FilterAppend<T>(s: seq<T>, x: T, p: T -> bool)
    ensures Filter(s + [x], p) == Filter(s, p) + (if p(x) then [x] else [])
  {
    if s != [] {
      assert (s + [x])[1..] == s[1..] + [x];
      FilterAppend(s[1..], x, p);
    } else {
      assert s + [x] == [x];
    }
  }

  lemma FilterCons<T>(x: T, s: seq<T>, p: T -> bool)
    ensures Filter([x] + s, p) == (if p(x) then [x] else []) + Filter(s, p)
  {
    assert ([x] + s)[1..] == s;
  }

  lemma {:induction false} FilterNone<T>(s: seq<T>, p: T -> bool)
    requires forall i :: 0 <= i < |s| ==> !p(s[i])
    ensures Filter(s, p) == []
  {
    if s != [] {
      FilterNone(s[1..], p);
    }
  }

  /** The last element `p` keeps is the element at the last position that satisfies `p`. */
  lemma {:induction false} FilterLastAt<T>(s: seq<T>, p: T -> bool, i: int)
    requires 0 <= i < |s| && p(s[i])
    requires forall k :: i < k < |s| ==> !p(s[k])
    ensures Filter(s, p) != [] && Filter(s, p)[|Filter(s, p)| - 1] == s[i]
  {
    if i == 0 {
      FilterNone(s[1..], p);
    } else {
      FilterLastAt(s[1..], p, i - 1);
    }
  }

  /** Whatever `p` keeps last sits at a position after which nothing satisfies `p`. */
  lemma {:induction false} FilterLastExists<T>(s: seq<T>, p: T -> bool)
    requires Filter(s, p) != []
    ensures var f := Filter(s, p);
      exists i :: 0 <= i < |s| && s[i] == f[|f| - 1] && p(s[i]) && forall k :: i < k < |s| ==> !p(s[k])
  {
    var t := Filter(s[1..], p);
    if t != [] {
      FilterLastExists(s[1..], p);
      var i :| 0 <= i < |s[1..]| && s[1..][i] == t[|t| - 1] && p(s[1..][i])
        && forall k :: i < k < |s[1..]| ==> !p(s[1..][k]);
      assert s[i + 1] == s[1..][i];
      assert forall k :: i + 1 < k < |s| ==> s[k] == s[1..][k - 1];
    } else {
      assert p(s[0]);
      if exists k :: 0 < k < |s| && p(s[k]) {
        var k :| 0 < k < |s| && p(s[k]);
        assert s[1..][k - 1] == s[k];
        FilterLastAt(s[1..], p, LastAt(s[1..], p, k - 1));
      }
    }
  }

  /** The last position at or after `i` whose element satisfies `p`. */
  function LastAt<T>(s: seq<T>, p: T -> bool, i: int): (j: int)
    requires 0 <= i < |s| && p(s[i])
    ensures i <= j < |s| && p(s[j]) && forall k :: j < k < |s| ==> !p(s[k])
    decreases |s| - i
  {
    if exists k :: i < k < |s| && p(s[k]) then
      var k :| i < k < |s| && p(s[k]);
      LastAt(s, p, k)
    else i
  }

  /** `cmp` chains on the elements of `d`. */
  ghost predicate TransitiveOn<T>(d: seq<T>, cmp: (T, T) -> int) {
    forall x, y, z :: x in d && y in d && z in d && cmp(x, y) <= 0 && cmp(y, z) <= 0 ==> cmp(x, z) <= 0
  }

  /** Any two elements of `d` that satisfy `p` compare equal under `cmp`. */
  ghost predicate TiedOn<T>(d: seq<T>, cmp: (T, T) -> int, p: T -> bool) {
    forall x, y :: x in d && y in d && p(x) && p(y) ==> cmp(x, y) <= 0
  }

  /** `x` and `y` compare equal. */
  predicate Tie<T>(cmp: (T, T) -> int, x: T, y: T) {
    cmp(x, y) <= 0 && cmp(y, x) <= 0
  }

  lemma PrefixTransitive<T>(a: seq<T>, cmp: (T, T) -> int, p: T -> bool, n: int)
    requires TransitiveOn(a, cmp) && TiedOn(a, cmp, p) && 0 <= n <= |a|
    ensures TransitiveOn(a[..n], cmp) && TiedOn(a[..n], cmp, p)
  {
    assert forall x :: x in a[..n] ==> x in a;
  }

  /** In a sorted sequence over a transitive comparison, the first element is at most any later one. */
  lemma {:induction false} SortedFirst<T>(s: seq<T>, cmp: (T, T) -> int, d: seq<T>, k: int)
    requires Sorted(s, cmp) && TransitiveOn(d, cmp) && forall x :: x in s ==> x in d
    requires 0 < k < |s|
    ensures cmp(s[0], s[k]) <= 0
  {
    if k > 1 {
      SortedFirst(s, cmp, d, k - 1);
      assert cmp(s[k - 1], s[k]) <= 0;
      assert s[0] in s && s[k - 1] in s && s[k] in s;
    }
  }

  /** Inserting one element after its ties adds it at the end of its tie class. */
  lemma {:induction false} InsertFilter<T>(e: T, s: seq<T>, cmp: (T, T) -> int, p: T -> bool, d: seq<T>)
    requires Sorted(s, cmp) && TransitiveOn(d, cmp) && TiedOn(d, cmp, p)
    requires e in d && forall x :: x in s ==> x in d
    ensures Filter(Insert(e, s, cmp), p) == Filter(s, p) + (if p(e) then [e] else [])
  {
    if s == [] {
    } else if cmp(s[0], e) > 0 {
      InsertFilterFront(e, s, cmp, p, d);
    } else {
      var t := s[1..];
      SortedTail(s, cmp);
      assert forall x :: x in t ==> x in s;
      InsertFilter(e, t, cmp, p, d);
      InsertFilterCons(e, s, cmp, p);
    }
  }

  /** `e` goes in front of a sorted `s` only when nothing in `s` is tied with it. */
  lemma InsertFilterFront<T>(e: T, s: seq<T>, cmp: (T, T) -> int, p: T -> bool, d: seq<T>)
    requires Sorted(s, cmp) && TransitiveOn(d, cmp) && TiedOn(d, cmp, p)
    requires e in d && forall x :: x in s ==> x in d
    requires s != [] && cmp(s[0], e) > 0
    ensures Filter(Insert(e, s, cmp), p) == Filter(s, p) + (if p(e) then [e] else [])
  {
    FilterCons(e, s, p);
    if p(e) {
      NoneTied(e, s, cmp, p, d);
      FilterNone(s, p);
    }
  }

  lemma NoneTied<T>(e: T, s: seq<T>, cmp: (T, T) -> int, p: T -> bool, d: seq<T>)
    requires Sorted(s, cmp) && TransitiveOn(d, cmp) && TiedOn(d, cmp, p)
    requires e in d && forall x :: x in s ==> x in d
    requires s != [] && cmp(s[0], e) > 0 && p(e)
    ensures forall k :: 0 <= k < |s| ==> !p(s[k])
  {
    forall k | 0 <= k < |s| ensures !p(s[k]) {
      assert s[k] in s && s[0] in s;
      if k > 0 { SortedFirst(s, cmp, d, k); }
    }
  }

  lemma InsertFilterCons<T>(e: T, s: seq<T>, cmp: (T, T) -> int, p: T -> bool)
    requires s != [] && cmp(s[0], e) <= 0
    requires Filter(Insert(e, s[1..], cmp), p) == Filter(s[1..], p) + (if p(e) then [e] else [])
    ensures Filter(Insert(e, s, cmp), p) == Filter(s, p) + (if p(e) then [e] else [])
  {
    var t := s[1..];
    var rest := Insert(e, t, cmp);
    var h := if p(s[0]) then [s[0]] else [];
    assert Insert(e, s, cmp) == [s[0]] + rest;
    FilterCons(s[0], rest, p);
    ConcatAssoc(h, Filter(t, p), if p(e) then [e] else []);
  }

  lemma ConcatAssoc<T>(x: seq<T>, y: seq<T>, z: seq<T>)
    ensures x + (y + z) == (x + y) + z
  {
  }

  /**
   * The sort is stable: over a total, transitive comparison, the elements of any class of mutually
   * tied elements come out in their input order.
   */
  lemma {:induction false} InsertAllStable<T>(a: seq<T>, cmp: (T, T) -> int, p: T -> bool)
    requires TotalOn(a, cmp) && TransitiveOn(a, cmp) && TiedOn(a, cmp, p)
    ensures Filter(InsertAll(a, cmp), p) == Filter(a, p)
    decreases |a|
  {
    if a != [] {
      var n := |a| - 1;
      var init := a[..n];
      TotalOnPrefix(a, cmp, n);
      PrefixTransitive(a, cmp, p, n);
      InsertAllStable(init, cmp, p);
      StableStep(a, cmp, p);
    }
  }

  lemma StableStep<T>(a: seq<T>, cmp: (T, T) -> int, p: T -> bool)
    requires a != [] && TotalOn(a, cmp) && TransitiveOn(a, cmp) && TiedOn(a, cmp, p)
    requires Filter(InsertAll(a[..|a| - 1], cmp), p) == Filter(a[..|a| - 1], p)
    ensures Filter(InsertAll(a, cmp), p) == Filter(a, p)
  {
    var n := |a| - 1;
    var init := a[..n];
    TotalOnPrefix(a, cmp, n);
    InsertAllSorted(init, cmp);
    var sorted := InsertAll(init, cmp);
    forall x | x in sorted ensures x in a {
      assert x in multiset(sorted);
    }
    assert a[n] in a;
    InsertFilter(a[n], sorted, cmp, p, a);
    LastSplit(a);
    FilterAppend(init, a[n], p);
  }

  /** The last element of a tie class in the sorted output is also the last of that class in the input. */
  lemma StableLast<T>(a: seq<T>, cmp: (T, T) -> int, p: T -> bool, i: int)
    requires TotalOn(a, cmp) && TransitiveOn(a, cmp) && TiedOn(a, cmp, p)
    requires 0 <= i < |InsertAll(a, cmp)| && p(InsertAll(a, cmp)[i])
    requires forall k :: i < k < |InsertAll(a, cmp)| ==> !p(InsertAll(a, cmp)[k])
    ensures exists j :: 0 <= j < |a| && a[j] == InsertAll(a, cmp)[i] && forall k :: j < k < |a| ==> !p(a[k])
  {
    FilterLastAt(InsertAll(a, cmp), p, i);
    InsertAllStable(a, cmp, p);
    FilterLastExists(a, p);
  }

  /** The elements tied with any one element of the input keep their input order. */
  lemma TiesKeepOrder<T>(a: seq<T>, cmp: (T, T) -> int, x: T)
    requires TotalOn(a, cmp) && TransitiveOn(a, cmp) && x in a
    ensures Filter(InsertAll(a, cmp), y => Tie(cmp, x, y)) == Filter(a, y => Tie(cmp, x, y))
  {
    InsertAllStable(a, cmp, y => Tie(cmp, x, y));
  }

  /** Sorts `a` by `cmp`: the insertion-sort fold, hence ordered, a permutation and stable. */
  method InsertionSort<T>(a: seq<T>, cmp: (T, T) -> int) returns (r: seq<T>)
    requires TotalOn(a, cmp)
    ensures r == InsertAll(a, cmp)
    ensures Sorted(r, cmp)
    ensures multiset(r) == multiset(a)
  {
    r := [];
    var i := 0;
    while i < |a|
      invariant 0 <= i <= |a|
      invariant r == InsertAll(a[..i], cmp)
    {
      assert a[..i + 1][..i] == a[..i];
      r := Insert(a[i], r, cmp);
      i := i + 1;
    }
    assert a[..i] == a;
    InsertAllSorted(a, cmp);
  }
}
