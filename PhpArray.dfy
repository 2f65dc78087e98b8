/**
 * PHP's ordered associative arrays, modelled as a sequence of key/value pairs in insertion
 * order. Arrays built by PHP have distinct keys; `Put` is the assignment `$a[$k] = $v`.
 */
module PhpArray {
  import opened Wrappers

  function Keys<K, V>(a: seq<(K, V)>): seq<K> {
    seq(|a|, i requires 0 <= i < |a| => a[i].0)
  }

  function Values<K, V>(a: seq<(K, V)>): seq<V> {
    seq(|a|, i requires 0 <= i < |a| => a[i].1)
  }

  predicate DistinctKeys<K(==), V>(a: seq<(K, V)>) {
    forall i, j :: 0 <= i < j < |a| ==> a[i].0 != a[j].0
  }

  predicate HasKey<K(==), V>(a: seq<(K, V)>, k: K) {
    exists i :: 0 <= i < |a| && a[i].0 == k
  }

  /** Position of the first entry with key `k`, or -1. */
  function IndexOfKey<K(==), V>(a: seq<(K, V)>, k: K): (r: int)
    ensures -1 <= r < |a|
    ensures r >= 0 ==> a[r].0 == k
    ensures forall j :: 0 <= j < |a| && (r < 0 || j < r) ==> a[j].0 != k
  {
    if a == [] then -1
    else if a[0].0 == k then 0
    else
      var r := IndexOfKey(a[1..], k);
      if r < 0 then -1 else r + 1
  }

  /** `$a[$k] ?? null` */
  function Get<K(==), V>(a: seq<(K, V)>, k: K): (r: Option<V>)
    ensures r.None? <==> !HasKey(a, k)
    ensures r.Some? ==> (k, r.value) in a
  {
    var i := IndexOfKey(a, k);
    if i < 0 then
      None
    else
      assert a[i] == (k, a[i].1);
      Some(a[i].1)
  }

  /** The first entry with key `k` is at position `j`. */
  lemma IndexOfKeyAt<K, V>(a: seq<(K, V)>, k: K, j: int)
    requires 0 <= j < |a| && a[j].0 == k
    requires forall m :: 0 <= m < j ==> a[m].0 != k
    ensures IndexOfKey(a, k) == j
  {
  }

  /** `$a[$k] = $v`: an existing key keeps its position, a new key is appended. */
  function Put<K(==), V>(a: seq<(K, V)>, k: K, v: V): seq<(K, V)> {
    var i := IndexOfKey(a, k);
    if i < 0 then a + [(k, v)] else a[i := (k, v)]
  }

  lemma PutSpec<K, V>(a: seq<(K, V)>, k: K, v: V)
    requires DistinctKeys(a)
    ensures DistinctKeys(Put(a, k, v))
    ensures Get(Put(a, k, v), k) == Some(v)
    ensures forall k' :: k' != k ==> Get(Put(a, k, v), k') == Get(a, k')
    ensures HasKey(a, k) ==> Keys(Put(a, k, v)) == Keys(a)
    ensures !HasKey(a, k) ==> Keys(Put(a, k, v)) == Keys(a) + [k]
    ensures forall e :: e in Put(a, k, v) ==> e == (k, v) || e in a
  {
    var b := Put(a, k, v);
    var i := IndexOfKey(a, k);
    forall k' | k' != k ensures Get(b, k') == Get(a, k') {
      var j := IndexOfKey(a, k');
      if j >= 0 {
        assert b[j] == a[j];
        assert IndexOfKey(b, k') == j;
      } else {
        assert forall m :: 0 <= m < |b| ==> b[m].0 != k';
      }
    }
    if i < 0 {
      IndexOfKeyAt(b, k, |a|);
    } else {
      IndexOfKeyAt(b, k, i);
      assert Keys(b) == Keys(a);
    }
  }

  lemma ValuesConcat<K, V>(p: seq<(K, V)>, q: seq<(K, V)>)
    ensures Values(p + q) == Values(p) + Values(q)
  {
  }

  /** A permutation of the entries permutes their values. */
  lemma {:induction false} PermutedValues<K, V>(a: seq<(K, V)>, b: seq<(K, V)>)
    requires multiset(a) == multiset(b)
    ensures multiset(Values(a)) == multiset(Values(b))
    decreases |a|
  {
    if a == [] {
      assert |b| == |multiset(b)|;
    } else {
      var x := a[0];
      assert x in multiset(b);
      var j :| 0 <= j < |b| && b[j] == x;
      var b' := b[..j] + b[j + 1..];
      assert b == b[..j] + [x] + b[j + 1..];
      assert a == [x] + a[1..];
      assert multiset(b') == multiset(b) - multiset{x};
      PermutedValues(a[1..], b');
      ValuesConcat([x], a[1..]);
      ValuesConcat(b[..j], [x]);
      ValuesConcat(b[..j] + [x], b[j + 1..]);
      ValuesConcat(b[..j], b[j + 1..]);
    }
  }

  /** `(int) array_search($file, $files)` on a list: the first index of `file`, and 0 (PHP's `(int) false`) when it is absent. */
  function SearchIndex<T(==)>(files: seq<T>, file: T): (r: nat)
    ensures r <= |files|
    ensures r < |files| && files[r] == file ==> forall k :: 0 <= k < r ==> files[k] != file
    ensures file !in files ==> r == 0
  {
    if files == [] then 0
    else if files[0] == file then 0
    else if file !in files[1..] then 0
    else
      var r := SearchIndex(files[1..], file);
      assert forall k :: 0 < k < |files| ==> files[k] == files[1..][k - 1];
      r + 1
  }

  /** The first index of a listed file is where it is found first. */
  lemma {:induction false} SearchIndexListed<T>(files: seq<T>, j: nat)
    requires j < |files|
    ensures var r := SearchIndex(files, files[j]); r <= j && files[r] == files[j]
    ensures (forall k :: 0 <= k < j ==> files[k] != files[j]) ==> SearchIndex(files, files[j]) == j
  {
    if files[0] != files[j] {
      assert files[j] == files[1..][j - 1];
      SearchIndexListed(files[1..], j - 1);
      if forall k :: 0 <= k < j ==> files[k] != files[j] {
        assert forall k :: 0 <= k < j - 1 ==> files[1..][k] == files[k + 1];
      }
    }
  }

  /** Appending the image of the next input keeps a list the pointwise image of the inputs so far. */
  lemma MapAppend<A, B>(r: seq<B>, d: B, xs: seq<A>, f: A -> B)
    requires |r| < |xs| && d == f(xs[|r|])
    requires forall j :: 0 <= j < |r| ==> r[j] == f(xs[j])
    ensures forall j :: 0 <= j < |r| + 1 ==> (r + [d])[j] == f(xs[j])
  {
  }
}
