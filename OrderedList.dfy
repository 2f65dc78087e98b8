/**
 * The display-name order the artwork sort consults: the names map restricted to the roms that
 * have an image, sorted by display name and inverted to display name => rom name.
 */
module OrderedList {
  import opened Text
  import opened PhpArray
  import Sorting

  /** The rom an image stands for: its file name without ".png". */
  function RomName(image: string): string {
    BasenameWithout(image, ".png")
  }

  /** The rom an image entry (file name => path) stands for. */
  function EntryRomName(entry: (string, string)): string {
    RomName(entry.1)
  }

  /** The set of `f`-images of the elements of `s`. */
  function Image<T>(s: seq<T>, f: T -> string): set<string> {
    if s == [] then {} else Image(s[..|s| - 1], f) + {f(s[|s| - 1])}
  }

  lemma {:induction false} ImageExactly<T>(s: seq<T>, f: T -> string, x: string)
    ensures x in Image(s, f) <==> exists j :: 0 <= j < |s| && f(s[j]) == x
  {
    if s != [] {
      var init := s[..|s| - 1];
      ImageExactly(init, f, x);
      if exists j :: 0 <= j < |init| && f(init[j]) == x {
        var j :| 0 <= j < |init| && f(init[j]) == x;
        assert s[j] == init[j];
      }
      if exists j :: 0 <= j < |s| && f(s[j]) == x {
        var j :| 0 <= j < |s| && f(s[j]) == x;
        if j < |init| { assert s[j] == init[j]; }
      }
    }
  }

  /** The rom names of every image, the keys of the `$artwork` map. */
  function RomNames(images: seq<(string, string)>): set<string> {
    Image(images, EntryRomName)
  }

  /** A rom name is collected exactly when some image stands for it. */
  lemma RomNamesExactly(images: seq<(string, string)>, x: string)
    ensures x in RomNames(images) <==> exists j :: 0 <= j < |images| && RomName(images[j].1) == x
  {
    ImageExactly(images, EntryRomName, x);
  }

  /** `array_intersect_key($names, $artwork)`: the entries of `names`, in order, whose key is in `keys`. */
  function Relevant(names: seq<(string, string)>, keys: set<string>): (r: seq<(string, string)>)
    ensures forall e :: e in r <==> e in names && e.0 in keys
  {
    if names == [] then []
    else (if names[0].0 in keys then [names[0]] else []) + Relevant(names[1..], keys)
  }

  /** The comparison `asort` applies to the values (display names). */
  function ByDisplayName(p: (string, string), q: (string, string)): int {
    StrCmp(p.1, q.1)
  }

  lemma ByDisplayNameTotal(s: seq<(string, string)>)
    ensures Sorting.TotalOn(s, ByDisplayName)
  {
    forall i, j | 0 <= i < |s| && 0 <= j < |s|
      ensures ByDisplayName(s[i], s[j]) <= 0 || ByDisplayName(s[j], s[i]) <= 0
    {
      StrCmpAntisymmetric(s[i].1, s[j].1);
    }
  }

  /** With a transitive comparison, an adjacent-sorted sequence is sorted between any two positions. */
  lemma {:induction false} SortedByDisplayNameAll(s: seq<(string, string)>, i: int, j: int)
    requires Sorting.Sorted(s, ByDisplayName)
    requires 0 <= i <= j < |s|
    ensures StrCmp(s[i].1, s[j].1) <= 0
    decreases j - i
  {
    if i < j {
      SortedByDisplayNameAll(s, i, j - 1);
      assert ByDisplayName(s[j - 1], s[j]) <= 0;
      StrCmpTransitive(s[i].1, s[j - 1].1, s[j].1);
    }
  }

  /** The `foreach` that collects the rom name of every image. */
  method CollectRomNames(images: seq<(string, string)>) returns (artwork: set<string>)
    ensures artwork == RomNames(images)
  {
    artwork := {};
    var i := 0;
    while i < |images|
      invariant 0 <= i <= |images|
      invariant artwork == Image(images[..i], EntryRomName)
    {
      assert images[..i + 1][..i] == images[..i];
      artwork := artwork + {EntryRomName(images[i])};
      i := i + 1;
    }
    assert images[..i] == images;
  }

  /** `array_flip` as a left fold of `$a[$value] = $key` over the entries. */
  function FlipOf(s: seq<(string, string)>): seq<(string, string)> {
    if s == [] then []
    else Put(FlipOf(s[..|s| - 1]), s[|s| - 1].1, s[|s| - 1].0)
  }

  /** What the flip of `s` is: keyed by display name, strictly ascending, nothing lost or invented. */
  ghost predicate FlipInv(s: seq<(string, string)>, r: seq<(string, string)>) {
    && DistinctKeys(r)
    && (forall j :: 0 <= j < |r| ==> (r[j].1, r[j].0) in s)
    && (forall j :: 0 <= j < |s| ==> HasKey(r, s[j].1))
    && (forall j :: 0 < j < |r| ==> StrCmp(r[j - 1].0, r[j].0) < 0)
    && (s == [] <==> r == [])
    && (s != [] ==> r[|r| - 1].0 == s[|s| - 1].1)
  }

  /** Every display name of `init` is at most the last one, and at most that of `e`. */
  ghost predicate EndsHighest(init: seq<(string, string)>, e: (string, string)) {
    forall j :: 0 <= j < |init| ==> StrCmp(init[j].1, init[|init| - 1].1) <= 0 && StrCmp(init[j].1, e.1) <= 0
  }

  /** A display name already flipped is the last one seen. */
  lemma SeenIsLast(init: seq<(string, string)>, e: (string, string), r: seq<(string, string)>)
    requires FlipInv(init, r) && EndsHighest(init, e) && HasKey(r, e.1)
    ensures init != [] && init[|init| - 1].1 == e.1
  {
    var m :| 0 <= m < |r| && r[m].0 == e.1;
    var j :| 0 <= j < |init| && init[j] == (r[m].1, r[m].0);
    StrCmpAntisymmetric(init[|init| - 1].1, e.1);
  }

  lemma FlipStepOrder(init: seq<(string, string)>, e: (string, string), r: seq<(string, string)>)
    requires FlipInv(init, r) && EndsHighest(init, e)
    ensures var next := Put(r, e.1, e.0);
      && (forall j :: 0 < j < |next| ==> StrCmp(next[j - 1].0, next[j].0) < 0)
      && next != [] && next[|next| - 1].0 == e.1
  {
    PutSpec(r, e.1, e.0);
    var next := Put(r, e.1, e.0);
    if HasKey(r, e.1) {
      SeenIsLast(init, e, r);
      AscendingSameKeys(r, next);
    } else {
      if init != [] {
        assert StrCmp(r[|r| - 1].0, e.1) <= 0;
      }
      AscendingNewKey(r, e.1, next);
    }
  }

  /** Entries with the same keys, in the same order, are as ascending and end on the same key. */
  lemma AscendingSameKeys(r: seq<(string, string)>, next: seq<(string, string)>)
    requires Keys(next) == Keys(r)
    requires forall j :: 0 < j < |r| ==> StrCmp(r[j - 1].0, r[j].0) < 0
    ensures forall j :: 0 < j < |next| ==> StrCmp(next[j - 1].0, next[j].0) < 0
    ensures r != [] ==> next != [] && next[|next| - 1].0 == r[|r| - 1].0
  {
    assert |next| == |Keys(next)| == |Keys(r)| == |r|;
    forall j | 0 <= j < |next| ensures next[j].0 == r[j].0 {
      assert Keys(next)[j] == next[j].0 && Keys(r)[j] == r[j].0;
    }
  }

  /** Appending a key above the last one keeps the keys ascending. */
  lemma AscendingNewKey(r: seq<(string, string)>, k: string, next: seq<(string, string)>)
    requires Keys(next) == Keys(r) + [k]
    requires forall j :: 0 < j < |r| ==> StrCmp(r[j - 1].0, r[j].0) < 0
    requires r != [] ==> StrCmp(r[|r| - 1].0, k) <= 0 && r[|r| - 1].0 != k
    ensures forall j :: 0 < j < |next| ==> StrCmp(next[j - 1].0, next[j].0) < 0
    ensures next != [] && next[|next| - 1].0 == k
  {
    assert |next| == |Keys(next)| == |r| + 1;
    forall j | 0 <= j < |next| ensures next[j].0 == if j < |r| then r[j].0 else k {
      assert Keys(next)[j] == next[j].0;
      if j < |r| { assert Keys(r)[j] == r[j].0; }
    }
  }

  lemma FlipStepContents(init: seq<(string, string)>, e: (string, string), r: seq<(string, string)>)
    requires FlipInv(init, r)
    ensures var next := Put(r, e.1, e.0);
      && DistinctKeys(next)
      && (forall j :: 0 <= j < |next| ==> (next[j].1, next[j].0) in init + [e])
      && (forall j :: 0 <= j < |init| + 1 ==> HasKey(next, (init + [e])[j].1))
  {
    PutSpec(r, e.1, e.0);
    var next := Put(r, e.1, e.0);
    var s := init + [e];
    forall j | 0 <= j < |next| ensures (next[j].1, next[j].0) in s {
      if next[j] != (e.1, e.0) { assert next[j] in r; }
    }
    forall j | 0 <= j < |s| ensures HasKey(next, s[j].1) {
      if j < |init| && init[j].1 != e.1 {
        assert s[j] == init[j];
        assert Get(next, init[j].1) == Get(r, init[j].1);
      }
    }
  }

  lemma FlipStep(init: seq<(string, string)>, e: (string, string), r: seq<(string, string)>)
    requires FlipInv(init, r) && EndsHighest(init, e)
    ensures FlipInv(init + [e], Put(r, e.1, e.0))
  {
    FlipStepOrder(init, e, r);
    FlipStepContents(init, e, r);
  }

  lemma SortedPrefix(s: seq<(string, string)>)
    requires s != [] && Sorting.Sorted(s, ByDisplayName)
    ensures Sorting.Sorted(s[..|s| - 1], ByDisplayName)
  {
    var init := s[..|s| - 1];
    forall i | 0 < i < |init| ensures ByDisplayName(init[i - 1], init[i]) <= 0 {
      assert init[i - 1] == s[i - 1] && init[i] == s[i];
    }
  }

  lemma SortedEndsHighest(s: seq<(string, string)>)
    requires s != [] && Sorting.Sorted(s, ByDisplayName)
    ensures EndsHighest(s[..|s| - 1], s[|s| - 1])
  {
    var init := s[..|s| - 1];
    forall j | 0 <= j < |init|
      ensures StrCmp(init[j].1, init[|init| - 1].1) <= 0 && StrCmp(init[j].1, s[|s| - 1].1) <= 0
    {
      SortedByDisplayNameAll(s, j, |s| - 2);
      SortedByDisplayNameAll(s, j, |s| - 1);
    }
  }

  /**
   * The flip of a list sorted by display name: one entry per display name, mapping it to one of
   * its roms, keys strictly ascending.
   */
  lemma {:induction false} FlipOfSorted(s: seq<(string, string)>)
    requires Sorting.Sorted(s, ByDisplayName)
    ensures FlipInv(s, FlipOf(s))
  {
    if s != [] {
      var init := s[..|s| - 1];
      var e := s[|s| - 1];
      SortedPrefix(s);
      FlipOfSorted(init);
      SortedEndsHighest(s);
      var r := FlipOf(init);
      FlipStep(init, e, r);
      assert init + [e] == s;
      assert FlipOf(s) == Put(r, e.1, e.0);
    }
  }

  /** The `array_flip` loop. */
  method Flip(s: seq<(string, string)>) returns (r: seq<(string, string)>)
    ensures r == FlipOf(s)
  {
    r := [];
    var i := 0;
    while i < |s|
      invariant 0 <= i <= |s|
      invariant r == FlipOf(s[..i])
    {
      assert s[..i + 1][..i] == s[..i];
      r := Put(r, s[i].1, s[i].0);
      i := i + 1;
    }
    assert s[..i] == s;
  }

  /** The flip of the sorted relevant names, described in terms of the names map. */
  lemma FlipOfRelevant(names: seq<(string, string)>, keys: set<string>, sorted: seq<(string, string)>)
    requires Sorting.Sorted(sorted, ByDisplayName)
    requires forall e :: e in sorted <==> e in names && e.0 in keys
    ensures var r := FlipOf(sorted);
      && (r == [] <==> sorted == [])
      && DistinctKeys(r)
      && (forall j :: 0 <= j < |r| ==> (r[j].1, r[j].0) in names && r[j].1 in keys)
      && (forall e :: e in names && e.0 in keys ==> HasKey(r, e.1))
      && (forall j :: 0 < j < |r| ==> StrCmp(r[j - 1].0, r[j].0) < 0)
  {
    FlipOfSorted(sorted);
    var r := FlipOf(sorted);
    forall e | e in names && e.0 in keys ensures HasKey(r, e.1) {
      var j :| 0 <= j < |sorted| && sorted[j] == e;
    }
  }

  /** Entry `(rom, d)` sits in `s` after every other entry of display name `d`. */
  predicate LastWith(s: seq<(string, string)>, rom: string, d: string) {
    exists i :: 0 <= i < |s| && s[i] == (rom, d) && forall k :: i < k < |s| ==> s[k].1 != d
  }

  /** `array_flip` keeps, for each display name, the rom of its last entry: later keys overwrite. */
  lemma {:induction false} FlipOfLast(s: seq<(string, string)>)
    ensures DistinctKeys(FlipOf(s))
    ensures forall d :: Get(FlipOf(s), d).Some? ==> LastWith(s, Get(FlipOf(s), d).value, d)
  {
    if s != [] {
      var n := |s| - 1;
      var init := s[..n];
      var e := s[n];
      FlipOfLast(init);
      var r := FlipOf(init);
      PutSpec(r, e.1, e.0);
      forall d | Get(FlipOf(s), d).Some? ensures LastWith(s, Get(FlipOf(s), d).value, d) {
        if d == e.1 {
          assert s[n] == (e.0, d);
        } else {
          var v := Get(r, d).value;
          var i :| 0 <= i < |init| && init[i] == (v, d) && forall k :: i < k < |init| ==> init[k].1 != d;
          assert s[i] == init[i];
          assert forall k :: i < k < |s| ==> s[k].1 != d by {
            forall k | i < k < |s| ensures s[k].1 != d {
              if k < n { assert s[k] == init[k]; }
            }
          }
        }
      }
    }
  }

  lemma ByDisplayNameTransitive(s: seq<(string, string)>)
    ensures Sorting.TransitiveOn(s, ByDisplayName)
  {
    forall x, y, z | x in s && y in s && z in s && ByDisplayName(x, y) <= 0 && ByDisplayName(y, z) <= 0
      ensures ByDisplayName(x, z) <= 0
    {
      StrCmpTransitive(x.1, y.1, z.1);
    }
  }

  /**
   * `asort` is stable and `array_flip` keeps the last rom of a display name, so the rom the
   * ordered list gives a display name is the last one the names map lists with it.
   */
  lemma SortedFlipLast(relevant: seq<(string, string)>, d: string)
    requires Get(FlipOf(Sorting.InsertAll(relevant, ByDisplayName)), d).Some?
    ensures LastWith(relevant, Get(FlipOf(Sorting.InsertAll(relevant, ByDisplayName)), d).value, d)
  {
    var sorted := Sorting.InsertAll(relevant, ByDisplayName);
    var v := Get(FlipOf(sorted), d).value;
    FlipOfLast(sorted);
    var i :| 0 <= i < |sorted| && sorted[i] == (v, d) && forall k :: i < k < |sorted| ==> sorted[k].1 != d;
    var p := (e: (string, string)) => e.1 == d;
    ByDisplayNameTotal(relevant);
    ByDisplayNameTransitive(relevant);
    Sorting.StableLast(relevant, ByDisplayName, p, i);
  }

  /**
   * `getOrderedList`: display name => rom name for every named rom that has an image,
   * keyed in ascending display-name order; a display name shared by several roms is kept once.
   */
  method GetOrderedList(images: seq<(string, string)>, names: seq<(string, string)>)
    returns (r: seq<(string, string)>)
    ensures r == [] <==> forall e :: e in names ==> e.0 !in RomNames(images)
    ensures DistinctKeys(r)
    ensures forall j :: 0 <= j < |r| ==> (r[j].1, r[j].0) in names && r[j].1 in RomNames(images)
    ensures forall e :: e in names && e.0 in RomNames(images) ==> HasKey(r, e.1)
    ensures forall j :: 0 < j < |r| ==> StrCmp(r[j - 1].0, r[j].0) < 0
    ensures forall j :: 0 <= j < |r| ==> LastWith(Relevant(names, RomNames(images)), r[j].1, r[j].0)
  {
    var artwork := CollectRomNames(images);
    var relevant := Relevant(names, artwork);
    if |relevant| == 0 {
      return [];
    }
    ByDisplayNameTotal(relevant);
    var sorted := Sorting.InsertionSort(relevant, ByDisplayName);
    Sorting.SameElements(sorted, relevant);
    r := Flip(sorted);
    FlipOfRelevant(names, artwork, sorted);
    forall j | 0 <= j < |r| ensures LastWith(relevant, r[j].1, r[j].0) {
      IndexOfKeyAt(r, r[j].0, j);
      SortedFlipLast(relevant, r[j].0);
    }
  }
}
