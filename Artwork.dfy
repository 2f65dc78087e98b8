/**
 * `sortArtwork` and `isFolder` of the artwork trait: the working set of a post-process is
 * sorted by file name in natural order and, when the names map knows some of its roms, re-sorted
 * with folders first and the other images by their display name.
 */
module Artwork {
  import opened Wrappers
  import opened Text
  import opened PhpArray
  import Sorting
  import OrderedList

  /** The path fragment that marks folder artwork. */
  const FolderMarker := "catalogue/Folder/box"

  predicate IsFolder(path: string) {
    Contains(path, FolderMarker)
  }

  /** A path is folder artwork exactly when the marker occurs somewhere in it. */
  lemma IsFolderExactly(path: string)
    ensures IsFolder(path) <==> exists i :: OccursAt(path, FolderMarker, i)
  {
    ContainsAt(path, FolderMarker);
  }

  /** `array_search($name, $sortOrder)`: the key of the first entry whose value is `name`, or PHP's `false`. */
  function Position(name: string, sortOrder: seq<(string, string)>): (r: Option<string>)
    ensures r.None? <==> forall i :: 0 <= i < |sortOrder| ==> sortOrder[i].1 != name
    ensures r.Some? ==> exists i :: (0 <= i < |sortOrder| && sortOrder[i] == (r.value, name)
      && forall j :: 0 <= j < i ==> sortOrder[j].1 != name)
  {
    if sortOrder == [] then None
    else if sortOrder[0].1 == name then Some(sortOrder[0].0)
    else
      var r := Position(name, sortOrder[1..]);
      assert forall i :: 0 < i < |sortOrder| ==> sortOrder[i] == sortOrder[1..][i - 1];
      r
  }

  /**
   * PHP 8's `<=>` between two `array_search` results: two keys compare as strings, and `false`
   * against a key compares as booleans, so it ties with a falsy key and sorts before a truthy one.
   */
  function ComparePositions(a: Option<string>, b: Option<string>): int {
    match (a, b)
    case (None, None) => 0
    case (None, Some(q)) => if Truthy(q) then -1 else 0
    case (Some(p), None) => if Truthy(p) then 1 else 0
    case (Some(p), Some(q)) => StrCmp(p, q)
  }

  /** The comparison callback of the `usort`. */
  function Compare(sortOrder: seq<(string, string)>, a: string, b: string): int {
    if IsFolder(a) || IsFolder(b) then
      if IsFolder(a) && !IsFolder(b) then -1
      else if !IsFolder(a) && IsFolder(b) then 1
      else StrCmp(a, b)
    else
      ComparePositions(Position(BasenameWithout(a, ".png"), sortOrder), Position(BasenameWithout(b, ".png"), sortOrder))
  }

  /** The callback as a value, for the sort. */
  function CompareBy(sortOrder: seq<(string, string)>): (string, string) -> int {
    (a, b) => Compare(sortOrder, a, b)
  }

  lemma CompareAntisymmetric(sortOrder: seq<(string, string)>, a: string, b: string)
    ensures Compare(sortOrder, b, a) == -Compare(sortOrder, a, b)
  {
    if IsFolder(a) || IsFolder(b) {
      StrCmpAntisymmetric(a, b);
    } else {
      var pa := Position(BasenameWithout(a, ".png"), sortOrder);
      var pb := Position(BasenameWithout(b, ".png"), sortOrder);
      ComparePositionsAntisymmetric(pa, pb);
    }
  }

  lemma ComparePositionsAntisymmetric(pa: Option<string>, pb: Option<string>)
    ensures ComparePositions(pb, pa) == -ComparePositions(pa, pb)
  {
    if pa.Some? && pb.Some? { StrCmpAntisymmetric(pa.value, pb.value); }
  }

  /** Two folders compare by `strcmp` of their whole paths. */
  lemma FoldersCompareByPath(sortOrder: seq<(string, string)>, a: string, b: string)
    requires IsFolder(a) && IsFolder(b)
    ensures Compare(sortOrder, a, b) < 0 <==> StrCmp(a, b) < 0
    ensures Compare(sortOrder, a, b) == 0 <==> a == b
  {
  }

  /**
   * Two images compare by the display names the sort list gives their roms; an image whose rom
   * is missing from the list sorts before every image whose display name is truthy.
   */
  lemma ImagesCompareByDisplayName(sortOrder: seq<(string, string)>, a: string, b: string)
    requires !IsFolder(a) && !IsFolder(b)
    ensures
      var pa := Position(BasenameWithout(a, ".png"), sortOrder);
      var pb := Position(BasenameWithout(b, ".png"), sortOrder);
      (pa.Some? && pb.Some? ==> (Compare(sortOrder, a, b) < 0 <==> StrCmp(pa.value, pb.value) < 0)) &&
      (pa.None? && pb.Some? && Truthy(pb.value) ==> Compare(sortOrder, a, b) < 0) &&
      (pa.None? && pb.None? ==> Compare(sortOrder, a, b) == 0)
  {
  }

  /** The comparison on entries that `uksort($images, 'strnatcasecmp')` applies: by key. */
  function ByFileName(p: (string, string), q: (string, string)): int {
    NatCaseCmp(p.0, q.0)
  }

  lemma ByFileNameTotal(s: seq<(string, string)>)
    ensures Sorting.TotalOn(s, ByFileName)
  {
    forall i, j | 0 <= i < |s| && 0 <= j < |s|
      ensures ByFileName(s[i], s[j]) <= 0 || ByFileName(s[j], s[i]) <= 0
    {
      NatCaseCmpAntisymmetric(s[i].0, s[j].0);
    }
  }

  lemma CompareTotal(sortOrder: seq<(string, string)>, s: seq<string>)
    ensures Sorting.TotalOn(s, CompareBy(sortOrder))
  {
    forall i, j | 0 <= i < |s| && 0 <= j < |s|
      ensures Compare(sortOrder, s[i], s[j]) <= 0 || Compare(sortOrder, s[j], s[i]) <= 0
    {
      CompareAntisymmetric(sortOrder, s[i], s[j]);
    }
  }

  /** Every key of the sort list is truthy (no display name is "" or "0"). */
  predicate TruthyKeys(sortOrder: seq<(string, string)>) {
    forall j :: 0 <= j < |sortOrder| ==> Truthy(sortOrder[j].0)
  }

  /** A key `array_search` finds is one of the list's keys, so it is truthy when they all are. */
  lemma PositionTruthy(name: string, sortOrder: seq<(string, string)>)
    requires TruthyKeys(sortOrder)
    ensures Position(name, sortOrder).Some? ==> Truthy(Position(name, sortOrder).value)
  {
  }

  /** With truthy keys, `false` is below every key and the keys compare by `strcmp`: a transitive order. */
  lemma ComparePositionsTransitive(pa: Option<string>, pb: Option<string>, pc: Option<string>)
    requires pa.Some? ==> Truthy(pa.value)
    requires pb.Some? ==> Truthy(pb.value)
    requires pc.Some? ==> Truthy(pc.value)
    requires ComparePositions(pa, pb) <= 0 && ComparePositions(pb, pc) <= 0
    ensures ComparePositions(pa, pc) <= 0
  {
    if pa.Some? && pb.Some? && pc.Some? {
      StrCmpTransitive(pa.value, pb.value, pc.value);
    }
  }

  /**
   * The `usort` callback is transitive when no display name is falsy: folders first by `strcmp`
   * of the path, then images by the display name of their rom, unknown roms before known ones.
   */
  lemma CompareTransitive(sortOrder: seq<(string, string)>, a: string, b: string, c: string)
    requires TruthyKeys(sortOrder)
    requires Compare(sortOrder, a, b) <= 0 && Compare(sortOrder, b, c) <= 0
    ensures Compare(sortOrder, a, c) <= 0
  {
    if IsFolder(a) && IsFolder(b) && IsFolder(c) {
      StrCmpTransitive(a, b, c);
    } else if !IsFolder(a) && !IsFolder(b) && !IsFolder(c) {
      var na, nb, nc := BasenameWithout(a, ".png"), BasenameWithout(b, ".png"), BasenameWithout(c, ".png");
      PositionTruthy(na, sortOrder);
      PositionTruthy(nb, sortOrder);
      PositionTruthy(nc, sortOrder);
      ComparePositionsTransitive(Position(na, sortOrder), Position(nb, sortOrder), Position(nc, sortOrder));
    }
  }

  lemma CompareTransitiveOn(sortOrder: seq<(string, string)>, s: seq<string>)
    requires TruthyKeys(sortOrder)
    ensures Sorting.TransitiveOn(s, CompareBy(sortOrder))
  {
    forall x, y, z | x in s && y in s && z in s && Compare(sortOrder, x, y) <= 0 && Compare(sortOrder, y, z) <= 0
      ensures Compare(sortOrder, x, z) <= 0
    {
      CompareTransitive(sortOrder, x, y, z);
    }
  }

  /**
   * Paths the callback ties (two folders never tie unless equal; images whose roms share a
   * display name or are both unknown do) keep the order they had before the `usort`.
   */
  lemma TiedPathsKeepOrder(sortOrder: seq<(string, string)>, paths: seq<string>, x: string)
    requires TruthyKeys(sortOrder) && x in paths
    ensures Sorting.Filter(Sorting.InsertAll(paths, CompareBy(sortOrder)), y => Sorting.Tie(CompareBy(sortOrder), x, y))
         == Sorting.Filter(paths, y => Sorting.Tie(CompareBy(sortOrder), x, y))
  {
    CompareTotal(sortOrder, paths);
    CompareTransitiveOn(sortOrder, paths);
    Sorting.TiesKeepOrder(paths, CompareBy(sortOrder), x);
  }

  /** The images whose rom the sort list does not know. */
  predicate UnknownRom(sortOrder: seq<(string, string)>, path: string) {
    !IsFolder(path) && Position(BasenameWithout(path, ".png"), sortOrder).None?
  }

  /**
   * The images of unknown roms (the ones the source logs as appearing out of order) all tie, so
   * they stay in the order the natural sort gave them.
   */
  lemma UnknownRomsKeepOrder(sortOrder: seq<(string, string)>, paths: seq<string>)
    requires TruthyKeys(sortOrder)
    ensures Sorting.Filter(Sorting.InsertAll(paths, CompareBy(sortOrder)), p => UnknownRom(sortOrder, p))
         == Sorting.Filter(paths, p => UnknownRom(sortOrder, p))
  {
    CompareTotal(sortOrder, paths);
    CompareTransitiveOn(sortOrder, paths);
    Sorting.InsertAllStable(paths, CompareBy(sortOrder), p => UnknownRom(sortOrder, p));
  }

  /** In a list sorted by `Compare`, no image comes before a folder. */
  lemma {:induction false} FoldersFirst(sortOrder: seq<(string, string)>, r: seq<string>, i: int, j: int)
    requires Sorting.Sorted(r, CompareBy(sortOrder))
    requires 0 <= i < j < |r| && IsFolder(r[j])
    ensures IsFolder(r[i])
    decreases j - i
  {
    assert Compare(sortOrder, r[j - 1], r[j]) <= 0;
    if i < j - 1 {
      FoldersFirst(sortOrder, r, i, j - 1);
    }
  }

  /**
   * `sortArtwork`: the image paths, re-indexed from 0. `byName` is the working set after the
   * natural sort of its file names and `sortOrder` the ordered list of the provider; with a
   * non-empty list the paths are sorted by `Compare`, otherwise they keep the natural order.
   */
  method SortArtwork(images: seq<(string, string)>, names: seq<(string, string)>)
    returns (r: seq<string>, ghost byName: seq<(string, string)>, ghost sortOrder: seq<(string, string)>)
    ensures byName == Sorting.InsertAll(images, ByFileName)
    ensures multiset(byName) == multiset(images) && Sorting.Sorted(byName, ByFileName)
    ensures sortOrder == [] <==> forall e :: e in names ==> e.0 !in OrderedList.RomNames(images)
    ensures forall j :: 0 <= j < |sortOrder| ==>
      (sortOrder[j].1, sortOrder[j].0) in names && sortOrder[j].1 in OrderedList.RomNames(images)
    ensures forall e :: e in names && e.0 in OrderedList.RomNames(images) ==> HasKey(sortOrder, e.1)
    ensures DistinctKeys(sortOrder)
    ensures forall j :: 0 < j < |sortOrder| ==> StrCmp(sortOrder[j - 1].0, sortOrder[j].0) < 0
    ensures forall j :: 0 <= j < |sortOrder| ==>
      OrderedList.LastWith(OrderedList.Relevant(names, OrderedList.RomNames(images)), sortOrder[j].1, sortOrder[j].0)
    ensures sortOrder == [] ==> r == Values(byName)
    ensures sortOrder != [] && TruthyKeys(sortOrder) ==> r == Sorting.InsertAll(Values(byName), CompareBy(sortOrder))
    ensures sortOrder != [] && TruthyKeys(sortOrder) ==> Sorting.Sorted(r, CompareBy(sortOrder))
    ensures sortOrder != [] && TruthyKeys(sortOrder) ==> forall x :: x in Values(byName) ==>
      Sorting.Filter(r, y => Sorting.Tie(CompareBy(sortOrder), x, y))
        == Sorting.Filter(Values(byName), y => Sorting.Tie(CompareBy(sortOrder), x, y))
    ensures multiset(r) == multiset(Values(images))
  {
    var order := OrderedList.GetOrderedList(images, names);
    sortOrder := order;
    ByFileNameTotal(images);
    var sorted := Sorting.InsertionSort(images, ByFileName);
    byName := sorted;
    var paths := Values(sorted);
    PermutedValues(sorted, images);
    if |order| == 0 {
      r := paths;
    } else {
      CompareTotal(order, paths);
      r := Sorting.InsertionSort(paths, CompareBy(order));
      if TruthyKeys(order) {
        forall x | x in paths
          ensures Sorting.Filter(r, y => Sorting.Tie(CompareBy(order), x, y))
               == Sorting.Filter(paths, y => Sorting.Tie(CompareBy(order), x, y))
        {
          TiedPathsKeepOrder(order, paths, x);
        }
      }
    }
  }
}
