/**
 * The generator of the folder-to-platform configuration: every directory under the rom folder,
 * ordered by depth then path, gets the platform its name is assigned to, and a directory whose
 * name is assigned nothing inherits the platform of its nearest assigned ancestor.
 */
module ConfigFolder {
  import opened Wrappers
  import opened Text
  import opened PhpArray
  import Path
  import Sorting

  /** The folder assignments (assign.json): lower-case names or name prefixes to platforms, in file order. */
  type Assign = seq<(string, string)>

  /** The configuration being built: relative folder to platform, `None` for PHP's `null`. */
  type FolderConfig = seq<(string, Option<string>)>

  /** Laravel's `Str::startsWith` with one needle: the empty needle never matches. */
  predicate StartsWithNeedle(haystack: string, needle: string) {
    needle != "" && StartsWith(haystack, needle)
  }

  /** The position of the first assignment whose key starts `name`, or -1. */
  function FirstPrefixIndex(name: string, assign: Assign): (k: int)
    ensures -1 <= k < |assign|
    ensures k >= 0 ==> StartsWithNeedle(name, assign[k].0)
    ensures forall m :: 0 <= m < |assign| && (k < 0 || m < k) ==> !StartsWithNeedle(name, assign[m].0)
  {
    if assign == [] then -1
    else if StartsWithNeedle(name, assign[0].0) then 0
    else
      var k := FirstPrefixIndex(name, assign[1..]);
      assert forall m :: 0 < m < |assign| ==> assign[m] == assign[1..][m - 1];
      if k < 0 then -1 else k + 1
  }

  /**
   * `getPlatformByFolderName`: the lower-cased name's own assignment, otherwise that of the
   * first key that starts it, otherwise `null`.
   */
  function PlatformByFolderName(folderName: string, assign: Assign): Option<string> {
    var name := Lower(folderName);
    if HasKey(assign, name) then Get(assign, name)
    else
      var k := FirstPrefixIndex(name, assign);
      if k < 0 then None else Some(assign[k].1)
  }

  /** An exact assignment wins over every prefix assignment, wherever they stand in the file. */
  lemma ExactNameWins(folderName: string, assign: Assign, k: nat)
    requires DistinctKeys(assign)
    requires k < |assign| && assign[k].0 == Lower(folderName)
    ensures PlatformByFolderName(folderName, assign) == Some(assign[k].1)
  {
    assert HasKey(assign, Lower(folderName));
    IndexOfKeyAt(assign, Lower(folderName), k);
  }

  /**
   * Without an exact assignment the first key that starts the name decides; without one of
   * those either the folder has no platform of its own.
   */
  lemma PrefixDecides(folderName: string, assign: Assign)
    requires !HasKey(assign, Lower(folderName))
    ensures var r := PlatformByFolderName(folderName, assign);
      && (r.None? <==> forall m :: 0 <= m < |assign| ==> !StartsWithNeedle(Lower(folderName), assign[m].0))
      && (r.Some? ==>
            exists k :: 0 <= k < |assign| && StartsWithNeedle(Lower(folderName), assign[k].0)
              && r.value == assign[k].1
              && forall m :: 0 <= m < k ==> !StartsWithNeedle(Lower(folderName), assign[m].0))
  {
  }

  /** Folder names are compared without regard to letter case. */
  lemma FolderNameIgnoresCase(a: string, b: string, assign: Assign)
    requires Lower(a) == Lower(b)
    ensures PlatformByFolderName(a, assign) == PlatformByFolderName(b, assign)
  {
  }

  predicate Relative(path: string) {
    path == "" || path[0] != '/'
  }

  /** The entry for `key` is present and not `null`. */
  predicate IsSet(config: FolderConfig, key: string) {
    Get(config, key).Some? && Get(config, key).value.Some?
  }

  /**
   * `getPlatformByParent`: a path without a slash has no parent; otherwise the parent's
   * platform when it is set, else the parent's own parent's, and so on. `dirname` shortens a
   * relative path, so the walk ends. (For a path starting with a slash PHP's walk would not end,
   * since `dirname('/')` is '/'; the paths it is given are relative, see `Path.RemoveNoLeadingSlash`.)
   */
  function PlatformByParent(folder: string, config: FolderConfig): Option<string>
    requires Relative(folder)
    decreases |folder|
  {
    if '/' !in folder then None
    else
      DirnameOfRelative(folder);
      var parent := Dirname(folder);
      if IsSet(config, parent) then Get(config, parent).value
      else PlatformByParent(parent, config)
  }

  /** The ancestors `getPlatformByParent` visits, nearest first. */
  function Ancestors(folder: string): seq<string>
    requires Relative(folder)
    decreases |folder|
  {
    if '/' !in folder then []
    else
      DirnameOfRelative(folder);
      [Dirname(folder)] + Ancestors(Dirname(folder))
  }

  /**
   * The inherited platform is that of the nearest ancestor whose entry is set, and there is
   * none exactly when no ancestor is set (in particular for a path without a slash).
   */
  lemma {:induction false} NearestSetAncestor(folder: string, config: FolderConfig)
    requires Relative(folder)
    ensures var r := PlatformByParent(folder, config);
      var a := Ancestors(folder);
      && ('/' !in folder ==> r.None?)
      && (r.None? <==> forall k :: 0 <= k < |a| ==> !IsSet(config, a[k]))
      && (r.Some? ==>
            exists k :: 0 <= k < |a| && Get(config, a[k]) == Some(r)
              && forall m :: 0 <= m < k ==> !IsSet(config, a[m]))
    decreases |folder|
  {
    if '/' in folder {
      DirnameOfRelative(folder);
      var parent := Dirname(folder);
      var a := Ancestors(folder);
      assert a == [parent] + Ancestors(parent);
      if !IsSet(config, parent) {
        NearestSetAncestor(parent, config);
        var r := PlatformByParent(folder, config);
        if r.Some? {
          var k :| 0 <= k < |Ancestors(parent)| && Get(config, Ancestors(parent)[k]) == Some(r)
            && forall m :: 0 <= m < k ==> !IsSet(config, Ancestors(parent)[m]);
          assert a[k + 1] == Ancestors(parent)[k];
        }
        assert forall k :: 0 < k < |a| ==> a[k] == Ancestors(parent)[k - 1];
      } else {
        assert Get(config, a[0]) == Some(PlatformByParent(folder, config));
      }
    }
  }

  /** Every key of the configuration is a relative path. */
  predicate RelativeKeys(config: FolderConfig) {
    forall i :: 0 <= i < |config| ==> Relative(config[i].0)
  }

  /**
   * The configuration after the fill loop has visited its first `n` entries: a visited `null`
   * entry holds what `getPlatformByParent` found in the configuration as it stood then.
   */
  function Filled(config: FolderConfig, n: nat): (r: FolderConfig)
    requires RelativeKeys(config) && n <= |config|
    ensures |r| == |config| && forall i :: 0 <= i < |config| ==> r[i].0 == config[i].0
  {
    if n == 0 then config
    else
      var c := Filled(config, n - 1);
      if config[n - 1].1.None? then c[n - 1 := (config[n - 1].0, PlatformByParent(config[n - 1].0, c))] else c
  }

  /**
   * The loop over the configuration that replaces each `null` entry by the platform of the
   * nearest set ancestor. PHP iterates over the array as it was, but the lookups see the entries
   * already filled.
   */
  method FillFromParents(config: FolderConfig) returns (r: FolderConfig)
    requires RelativeKeys(config) && DistinctKeys(config)
    ensures r == Filled(config, |config|)
  {
    r := config;
    var i := 0;
    while i < |config|
      invariant 0 <= i <= |config|
      invariant r == Filled(config, i)
    {
      if config[i].1.None? {
        var folderName := config[i].0;
        assert forall m :: 0 <= m < i ==> r[m].0 != folderName;
        IndexOfKeyAt(r, folderName, i);
        r := Put(r, folderName, PlatformByParent(folderName, r));
      }
      i := i + 1;
    }
  }

  /** Entries that were set are left alone, and the keys and their order stay. */
  lemma {:induction false} FilledKeepsSet(config: FolderConfig, n: nat, i: nat)
    requires RelativeKeys(config) && n <= |config| && i < |config|
    requires config[i].1.Some?
    ensures Filled(config, n)[i] == config[i]
  {
    if n > 0 {
      FilledKeepsSet(config, n - 1, i);
    }
  }

  /** Once the loop has passed an entry it is not changed again. */
  lemma {:induction false} FilledStable(config: FolderConfig, n: nat, i: nat)
    requires RelativeKeys(config) && i < n <= |config|
    ensures Filled(config, n)[i] == Filled(config, i + 1)[i]
  {
    if n > i + 1 {
      FilledStable(config, n - 1, i);
    }
  }

  /**
   * With entries ordered by depth a parent comes before its children, and a `null` entry whose
   * parent ends up set gets the parent's platform.
   */
  lemma InheritsFromParent(config: FolderConfig, i: nat, j: nat)
    requires RelativeKeys(config) && DistinctKeys(config)
    requires i < j < |config|
    requires config[j].1.None? && '/' in config[j].0
    requires Dirname(config[j].0) == config[i].0
    requires Filled(config, |config|)[i].1.Some?
    ensures Filled(config, |config|)[j].1 == Filled(config, |config|)[i].1
  {
    var final := Filled(config, |config|);
    var c := Filled(config, j);
    FilledStable(config, |config|, j);
    assert final[j] == (config[j].0, PlatformByParent(config[j].0, c));
    FilledStable(config, |config|, i);
    FilledStable(config, j, i);
    assert c[i] == final[i];
    assert forall m :: 0 <= m < i ==> c[m].0 != config[i].0;
    IndexOfKeyAt(c, config[i].0, i);
    assert Get(c, config[i].0) == Some(final[i].1);
    DirnameOfRelative(config[j].0);
  }

  /** `substr_count($path, '/')` */
  function Depth(path: string): nat {
    multiset(path)['/']
  }

  /** The Finder sort callback: by depth, and by `strcmp` of the paths at equal depth. */
  function DepthCompare(a: string, b: string): int {
    var d := Depth(a) - Depth(b);
    if d == 0 then StrCmp(a, b) else d
  }

  lemma DepthCompareTotal(s: seq<string>)
    ensures Sorting.TotalOn(s, DepthCompare)
  {
    forall i, j | 0 <= i < |s| && 0 <= j < |s|
      ensures DepthCompare(s[i], s[j]) <= 0 || DepthCompare(s[j], s[i]) <= 0
    {
      StrCmpAntisymmetric(s[i], s[j]);
    }
  }

  /** In the sorted listing depths never decrease, and paths of one depth are in `strcmp` order. */
  lemma {:induction false} SortedByDepth(s: seq<string>, i: nat, j: nat)
    requires Sorting.Sorted(s, DepthCompare)
    requires i < j < |s|
    ensures Depth(s[i]) <= Depth(s[j])
    ensures j == i + 1 && Depth(s[i]) == Depth(s[j]) ==> StrCmp(s[i], s[j]) <= 0
    decreases j - i
  {
    assert DepthCompare(s[j - 1], s[j]) <= 0;
    if i < j - 1 {
      SortedByDepth(s, i, j - 1);
    }
  }

  /** The configuration before the fill loop: one `Put` per directory of the sorted listing. */
  function Initial(romFolder: string, dirs: seq<string>, assign: Assign): FolderConfig {
    if dirs == [] then []
    else
      var d := dirs[|dirs| - 1];
      Put(Initial(romFolder, dirs[..|dirs| - 1], assign), Path.Remove(d, romFolder), PlatformByFolderName(Basename(d), assign))
  }

  /** Its keys are distinct relative paths. */
  lemma {:induction false} InitialWellFormed(romFolder: string, dirs: seq<string>, assign: Assign)
    ensures DistinctKeys(Initial(romFolder, dirs, assign)) && RelativeKeys(Initial(romFolder, dirs, assign))
  {
    if dirs != [] {
      var d := dirs[|dirs| - 1];
      var c := Initial(romFolder, dirs[..|dirs| - 1], assign);
      InitialWellFormed(romFolder, dirs[..|dirs| - 1], assign);
      var k := Path.Remove(d, romFolder);
      PutSpec(c, k, PlatformByFolderName(Basename(d), assign));
      Path.RemoveNoLeadingSlash(d, romFolder);
      var r := Put(c, k, PlatformByFolderName(Basename(d), assign));
      forall i | 0 <= i < |r| ensures Relative(r[i].0) {
        assert r[i].0 == Keys(r)[i];
        if i < |c| { assert Keys(c)[i] == c[i].0; }
      }
    }
  }

  /** One more directory of the listing adds its entry to the configuration built so far. */
  lemma InitialStep(romFolder: string, listing: seq<string>, i: int, assign: Assign)
    requires 0 <= i < |listing|
    ensures Initial(romFolder, listing[..i + 1], assign) == Put(Initial(romFolder, listing[..i], assign),
      Path.Remove(listing[i], romFolder), PlatformByFolderName(Basename(listing[i]), assign))
  {
    assert listing[..i + 1][..i] == listing[..i];
  }

  /** The first loop of `generateConfigFolderFile`: `$config[relative folder] = platform of its name`. */
  method BuildInitial(romFolder: string, listing: seq<string>, assign: Assign) returns (initial: FolderConfig)
    ensures initial == Initial(romFolder, listing, assign)
  {
    initial := [];
    var i := 0;
    while i < |listing|
      invariant 0 <= i <= |listing|
      invariant initial == Initial(romFolder, listing[..i], assign)
    {
      var directory := listing[i];
      InitialStep(romFolder, listing, i, assign);
      var key := Path.Remove(directory, romFolder);
      var platform := PlatformByFolderName(Basename(directory), assign);
      initial := Put(initial, key, platform);
      i := i + 1;
    }
    WholePrefix(listing);
  }

  /** The prefix of a sequence up to its length is the sequence. */
  lemma WholePrefix<T>(s: seq<T>)
    ensures s[..|s|] == s
  {
  }

  /**
   * `generateConfigFolderFile` up to the YAML dump: the directories of the rom folder, given as
   * real paths, sorted by `DepthCompare`; one entry per directory; then the fill loop.
   */
  method GenerateConfig(romFolder: string, dirs: seq<string>, assign: Assign)
    returns (config: FolderConfig, ghost sorted: seq<string>)
    ensures multiset(sorted) == multiset(dirs) && Sorting.Sorted(sorted, DepthCompare)
    ensures DistinctKeys(Initial(romFolder, sorted, assign)) && RelativeKeys(Initial(romFolder, sorted, assign))
    ensures config == Filled(Initial(romFolder, sorted, assign), |Initial(romFolder, sorted, assign)|)
  {
    DepthCompareTotal(dirs);
    var listing := Sorting.InsertionSort(dirs, DepthCompare);
    sorted := listing;
    var initial := BuildInitial(romFolder, listing, assign);
    InitialWellFormed(romFolder, listing, assign);
    config := FillFromParents(initial);
  }
}
