/**
 * The theme merge of the make configuration: a theme's post-process entries are laid over the
 * make entries of the same strategy, the package name gets the theme's name, and the result is
 * `array_replace_recursive` of the make data with that replacement. The decoded YAML is a PHP
 * array value: `null`, a scalar (kept as its string form) or an ordered array.
 */
module MakeConfiguration {
  import opened Wrappers
  import opened Text
  import opened PhpArray

  datatype Key = Index(n: int) | Name(s: string)
  datatype Value = Null | Scalar(s: string) | Arr(entries: seq<(Key, Value)>)
  type PhpArr = seq<(Key, Value)>

  const PackageNameKey := Name("package_name")
  const PostProcessKey := Name("post_process")
  const StrategyKey := Name("strategy")

  /**
   * `array_replace_recursive($base, $repl)`: each entry of `repl` in turn replaces the entry of
   * the same key, except that two arrays under one key are merged the same way; a new key is
   * appended.
   */
  function ReplaceRecursive(base: PhpArr, repl: PhpArr): PhpArr {
    ReplaceFrom(base, Arr(repl), 0)
  }

  /** The replacement from entry `i` of `repl` on. */
  function ReplaceFrom(base: PhpArr, repl: Value, i: nat): PhpArr
    requires repl.Arr? && i <= |repl.entries|
    decreases repl, |repl.entries| - i
  {
    if i == |repl.entries| then base
    else
      var k := repl.entries[i].0;
      var v := repl.entries[i].1;
      assert repl.entries[i] in repl.entries;
      var prev := Get(base, k);
      var merged := if prev.Some? && prev.value.Arr? && v.Arr? then Arr(ReplaceFrom(prev.value.entries, v, 0)) else v;
      ReplaceFrom(Put(base, k, merged), repl, i + 1)
  }

  /** The string a value becomes in a concatenation: `null` is "", an array "Array". */
  function StringOf(v: Option<Value>): string {
    match v
    case Some(Scalar(s)) => s
    case Some(Arr(_)) => "Array"
    case _ => ""
  }

  /** What `foreach` over `$a[$k]` visits: nothing unless it is an array. */
  function EntriesAt(a: PhpArr, k: Key): PhpArr {
    var v := Get(a, k);
    if v.Some? && v.value.Arr? then v.value.entries else []
  }

  /** `$d['strategy'] === $strategy` */
  predicate HasStrategy(d: Value, strategy: string) {
    d.Arr? && Get(d.entries, StrategyKey) == Some(Scalar(strategy))
  }

  /** The keys of the entries with the strategy, in order. */
  function Matching(entries: PhpArr, strategy: string): seq<Key> {
    if entries == [] then []
    else
      var last := entries[|entries| - 1];
      Matching(entries[..|entries| - 1], strategy) + (if HasStrategy(last.1, strategy) then [last.0] else [])
  }

  function MatchingIndexes(strategy: string, makeData: PhpArr): seq<Key> {
    Matching(EntriesAt(makeData, PostProcessKey), strategy)
  }

  /** `getPostProcessMatchingIndexes` */
  method GetPostProcessMatchingIndexes(strategy: string, makeData: PhpArr) returns (matching: seq<Key>)
    ensures matching == MatchingIndexes(strategy, makeData)
  {
    matching := [];
    var postProcess := Get(makeData, PostProcessKey);
    if postProcess.None? || postProcess.value.Null? {
      return;
    }
    var entries := EntriesAt(makeData, PostProcessKey);
    var i := 0;
    while i < |entries|
      invariant 0 <= i <= |entries|
      invariant matching == Matching(entries[..i], strategy)
    {
      assert entries[..i + 1][..i] == entries[..i];
      if HasStrategy(entries[i].1, strategy) {
        matching := matching + [entries[i].0];
      }
      i := i + 1;
    }
    assert entries[..i] == entries;
  }

  /** The `string` the theme entry's strategy is passed as; anything else is a TypeError. */
  function StrategyOf(e: Value): Option<string> {
    if e.Arr? && Get(e.entries, StrategyKey).Some? && Get(e.entries, StrategyKey).value.Scalar? then
      Some(Get(e.entries, StrategyKey).value.s)
    else None
  }

  /** `$pp[$i] = $e` for each key in turn. */
  function PutAll(acc: PhpArr, keys: seq<Key>, e: Value): PhpArr {
    if keys == [] then acc else Put(PutAll(acc, keys[..|keys| - 1], e), keys[|keys| - 1], e)
  }

  /** The replacement post-process entries built from the theme's entries. */
  function ConvertedPostProcess(themeEntries: PhpArr, makeData: PhpArr): Result<PhpArr> {
    if themeEntries == [] then Success([])
    else
      var r := ConvertedPostProcess(themeEntries[..|themeEntries| - 1], makeData);
      var e := themeEntries[|themeEntries| - 1].1;
      if r.Failure? then r
      else if StrategyOf(e).None? then Failure(Exception(TypeError, ""))
      else Success(PutAll(r.value, MatchingIndexes(StrategyOf(e).value, makeData), e))
  }

  /** `isset($a[$k])` */
  predicate IsSet(a: PhpArr, k: Key) {
    Get(a, k).Some? && !Get(a, k).value.Null?
  }

  /** The replacement data `convertThemeDataToMakeShape` returns. */
  function Converted(themeName: string, themeData: PhpArr, makeData: PhpArr): Result<PhpArr> {
    var package := (PackageNameKey, Scalar(StringOf(Get(makeData, PackageNameKey)) + "-" + Lower(themeName)));
    if !IsSet(themeData, PostProcessKey) then Success([package])
    else
      var pp := ConvertedPostProcess(EntriesAt(themeData, PostProcessKey), makeData);
      if pp.Failure? then Failure(pp.error)
      else Success([package] + (if pp.value == [] then [] else [(PostProcessKey, Arr(pp.value))]))
  }

  /** The make data for the theme, as `transformForTheme` returns it. */
  function Transformed(makeData: PhpArr, themeName: string, themeData: PhpArr): Result<PhpArr> {
    var c := Converted(themeName, themeData, makeData);
    if c.Failure? then Failure(c.error) else Success(ReplaceRecursive(makeData, c.value))
  }

  /** The inner loop: the theme entry goes to every matching index. */
  method PutAtIndexes(acc: PhpArr, keys: seq<Key>, e: Value) returns (r: PhpArr)
    ensures r == PutAll(acc, keys, e)
  {
    r := acc;
    var j := 0;
    while j < |keys|
      invariant 0 <= j <= |keys|
      invariant r == PutAll(acc, keys[..j], e)
    {
      assert keys[..j + 1][..j] == keys[..j];
      r := Put(r, keys[j], e);
      j := j + 1;
    }
    assert keys[..j] == keys;
  }

  /** `convertThemeDataToMakeShape`, with the theme data passed in. */
  method ConvertThemeDataToMakeShape(themeName: string, themeData: PhpArr, makeData: PhpArr) returns (r: Result<PhpArr>)
    ensures r == Converted(themeName, themeData, makeData)
  {
    var package := (PackageNameKey, Scalar(StringOf(Get(makeData, PackageNameKey)) + "-" + Lower(themeName)));
    if !IsSet(themeData, PostProcessKey) {
      return Success([package]);
    }
    var themeEntries := EntriesAt(themeData, PostProcessKey);
    var postProcess: PhpArr := [];
    var i := 0;
    while i < |themeEntries|
      invariant 0 <= i <= |themeEntries|
      invariant ConvertedPostProcess(themeEntries[..i], makeData) == Success(postProcess)
    {
      assert themeEntries[..i + 1][..i] == themeEntries[..i];
      var e := themeEntries[i].1;
      if StrategyOf(e).None? {
        assert ConvertedPostProcess(themeEntries[..i + 1], makeData) == Failure(Exception(TypeError, ""));
        ConvertedFailureSticks(themeEntries, makeData, i + 1);
        return Failure(Exception(TypeError, ""));
      }
      var matching := GetPostProcessMatchingIndexes(StrategyOf(e).value, makeData);
      postProcess := PutAtIndexes(postProcess, matching, e);
      i := i + 1;
    }
    assert themeEntries[..i] == themeEntries;
    r := Success([package] + (if postProcess == [] then [] else [(PostProcessKey, Arr(postProcess))]));
  }

  /** `transformForTheme`, with the theme data of `themeName` passed in. */
  method TransformForTheme(makeData: PhpArr, themeName: string, themeData: PhpArr) returns (r: Result<PhpArr>)
    ensures r == Transformed(makeData, themeName, themeData)
  {
    var replacement := ConvertThemeDataToMakeShape(themeName, themeData, makeData);
    if replacement.Failure? {
      return Failure(replacement.error);
    }
    r := Success(ReplaceRecursive(makeData, replacement.value));
  }

  /** Once an entry has raised, the later entries do not matter. */
  lemma {:induction false} ConvertedFailureSticks(themeEntries: PhpArr, makeData: PhpArr, n: nat)
    requires n <= |themeEntries|
    requires ConvertedPostProcess(themeEntries[..n], makeData).Failure?
    ensures ConvertedPostProcess(themeEntries, makeData) == ConvertedPostProcess(themeEntries[..n], makeData)
    decreases |themeEntries| - n
  {
    if n < |themeEntries| {
      assert themeEntries[..n + 1][..n] == themeEntries[..n];
      ConvertedFailureSticks(themeEntries, makeData, n + 1);
    } else {
      assert themeEntries[..n] == themeEntries;
    }
  }

  /** A key the rest of the replacement does not mention keeps its entry, and the keys stay distinct. */
  lemma {:induction false} ReplaceKeepsOthers(base: PhpArr, repl: Value, i: nat, k: Key)
    requires repl.Arr? && i <= |repl.entries|
    requires DistinctKeys(base)
    requires forall j :: i <= j < |repl.entries| ==> repl.entries[j].0 != k
    ensures DistinctKeys(ReplaceFrom(base, repl, i))
    ensures Get(ReplaceFrom(base, repl, i), k) == Get(base, k)
    decreases |repl.entries| - i
  {
    if i < |repl.entries| {
      var k0 := repl.entries[i].0;
      var v := repl.entries[i].1;
      var prev := Get(base, k0);
      var merged := if prev.Some? && prev.value.Arr? && v.Arr? then Arr(ReplaceFrom(prev.value.entries, v, 0)) else v;
      PutSpec(base, k0, merged);
      ReplaceKeepsOthers(Put(base, k0, merged), repl, i + 1, k);
    }
  }

  /**
   * A key the replacement mentions once takes the replacement's entry, merged into the base
   * entry when both are arrays.
   */
  lemma {:induction false} ReplaceTakesEntry(base: PhpArr, repl: Value, i: nat, j: nat)
    requires repl.Arr? && DistinctKeys(base) && DistinctKeys(repl.entries)
    requires i <= j < |repl.entries|
    ensures var k := repl.entries[j].0;
      var v := repl.entries[j].1;
      var prev := Get(base, k);
      Get(ReplaceFrom(base, repl, i), k) ==
        Some(if prev.Some? && prev.value.Arr? && v.Arr? then Arr(ReplaceRecursive(prev.value.entries, v.entries)) else v)
    decreases j - i
  {
    var k0 := repl.entries[i].0;
    var v0 := repl.entries[i].1;
    var prev0 := Get(base, k0);
    var merged := if prev0.Some? && prev0.value.Arr? && v0.Arr? then Arr(ReplaceFrom(prev0.value.entries, v0, 0)) else v0;
    PutSpec(base, k0, merged);
    if j == i {
      ReplaceKeepsOthers(Put(base, k0, merged), repl, i + 1, k0);
    } else {
      assert repl.entries[j].0 != k0;
      ReplaceTakesEntry(Put(base, k0, merged), repl, i + 1, j);
    }
  }

  /** The theme's name, lower-cased, is appended to the package name after a dash. */
  lemma PackageNameSuffixed(makeData: PhpArr, themeName: string, themeData: PhpArr)
    requires DistinctKeys(makeData)
    requires Transformed(makeData, themeName, themeData).Success?
    ensures Get(Transformed(makeData, themeName, themeData).value, PackageNameKey)
      == Some(Scalar(StringOf(Get(makeData, PackageNameKey)) + "-" + Lower(themeName)))
  {
    var c := Converted(themeName, themeData, makeData).value;
    assert c[0].0 == PackageNameKey;
    ReplaceTakesEntry(makeData, Arr(c), 0, 0);
  }

  /** The keys `Matching` lists are those of the entries with the strategy. */
  lemma {:induction false} MatchingSpec(entries: PhpArr, strategy: string, x: Key)
    ensures x in Matching(entries, strategy) <==>
      exists j :: 0 <= j < |entries| && entries[j].0 == x && HasStrategy(entries[j].1, strategy)
  {
    if entries != [] {
      var init := entries[..|entries| - 1];
      MatchingSpec(init, strategy, x);
      assert forall j :: 0 <= j < |init| ==> init[j] == entries[j];
    }
  }

  /** `x` is the index of an entry of the list with the strategy. */
  predicate IndexIn(x: Key, entries: PhpArr, strategy: string) {
    x.Index? && 0 <= x.n < |entries| && HasStrategy(entries[x.n].1, strategy)
  }

  /** For a list of entries the matching indexes are ascending and lie within the list. */
  lemma {:induction false} MatchingAscending(entries: PhpArr, strategy: string)
    requires forall j :: 0 <= j < |entries| ==> entries[j].0 == Index(j)
    ensures forall a :: 0 <= a < |Matching(entries, strategy)| ==> IndexIn(Matching(entries, strategy)[a], entries, strategy)
    ensures forall a, b :: 0 <= a < b < |Matching(entries, strategy)| ==>
      Matching(entries, strategy)[a].Index? && Matching(entries, strategy)[b].Index?
      && Matching(entries, strategy)[a].n < Matching(entries, strategy)[b].n
  {
    if entries != [] {
      var init := entries[..|entries| - 1];
      var last := entries[|entries| - 1];
      assert forall j :: 0 <= j < |init| ==> init[j] == entries[j];
      MatchingAscending(init, strategy);
      var mi := Matching(init, strategy);
      var tail := if HasStrategy(last.1, strategy) then [last.0] else [];
      var m := Matching(entries, strategy);
      assert m == mi + tail;
      forall a | 0 <= a < |m|
        ensures IndexIn(m[a], entries, strategy)
      {
        if a < |mi| {
          assert m[a] == mi[a] && IndexIn(mi[a], init, strategy);
        } else {
          assert m[a] == last.0 == Index(|entries| - 1);
        }
      }
      forall a, b | 0 <= a < b < |m|
        ensures m[a].Index? && m[b].Index? && m[a].n < m[b].n
      {
        assert m[a] == mi[a];
        if b < |mi| {
          assert m[b] == mi[b];
        } else {
          assert m[b] == Index(|entries| - 1);
        }
      }
    }
  }

  /** Without a post-process list in the make data no index matches. */
  lemma NoPostProcessNoMatches(strategy: string, makeData: PhpArr)
    requires !HasKey(makeData, PostProcessKey)
    ensures MatchingIndexes(strategy, makeData) == []
  {
  }

  /** The last theme entry whose strategy matches make entry `x`, if any. */
  function LastMatching(themeEntries: PhpArr, makeData: PhpArr, x: Key): Option<Value> {
    if themeEntries == [] then None
    else
      var e := themeEntries[|themeEntries| - 1].1;
      if StrategyOf(e).Some? && x in MatchingIndexes(StrategyOf(e).value, makeData) then Some(e)
      else LastMatching(themeEntries[..|themeEntries| - 1], makeData, x)
  }

  /** `PutAll` puts `e` at the keys it is given and leaves the others. */
  lemma {:induction false} PutAllSpec(acc: PhpArr, keys: seq<Key>, e: Value, x: Key)
    requires DistinctKeys(acc)
    ensures DistinctKeys(PutAll(acc, keys, e))
    ensures Get(PutAll(acc, keys, e), x) == if x in keys then Some(e) else Get(acc, x)
  {
    if keys != [] {
      var init := keys[..|keys| - 1];
      PutAllSpec(acc, init, e, x);
      PutSpec(PutAll(acc, init, e), keys[|keys| - 1], e);
      assert x in keys <==> x in init || x == keys[|keys| - 1];
    }
  }

  /**
   * Where several theme entries share a strategy the later one wins: each make index ends up
   * with the last theme entry that matched it, and indexes no theme entry matched are absent.
   */
  lemma {:induction false} LaterThemeEntryWins(themeEntries: PhpArr, makeData: PhpArr, x: Key)
    requires ConvertedPostProcess(themeEntries, makeData).Success?
    ensures DistinctKeys(ConvertedPostProcess(themeEntries, makeData).value)
    ensures Get(ConvertedPostProcess(themeEntries, makeData).value, x) == LastMatching(themeEntries, makeData, x)
  {
    if themeEntries != [] {
      var init := themeEntries[..|themeEntries| - 1];
      var e := themeEntries[|themeEntries| - 1].1;
      LaterThemeEntryWins(init, makeData, x);
      PutAllSpec(ConvertedPostProcess(init, makeData).value, MatchingIndexes(StrategyOf(e).value, makeData), e, x);
    }
  }

  /** The post-process entries the theme contributes, none when it has no post-process list. */
  function ThemePostProcess(themeData: PhpArr, makeData: PhpArr): PhpArr {
    if IsSet(themeData, PostProcessKey) && ConvertedPostProcess(EntriesAt(themeData, PostProcessKey), makeData).Success?
    then ConvertedPostProcess(EntriesAt(themeData, PostProcessKey), makeData).value
    else []
  }

  /** The merged post-process list is the make list with the theme's entries laid over it. */
  lemma MergedPostProcessList(makeData: PhpArr, themeName: string, themeData: PhpArr)
    requires DistinctKeys(makeData)
    requires Get(makeData, PostProcessKey).Some? && Get(makeData, PostProcessKey).value.Arr?
    requires Transformed(makeData, themeName, themeData).Success?
    ensures Get(Transformed(makeData, themeName, themeData).value, PostProcessKey)
      == Some(Arr(ReplaceRecursive(Get(makeData, PostProcessKey).value.entries, ThemePostProcess(themeData, makeData))))
  {
    var c := Converted(themeName, themeData, makeData).value;
    assert DistinctKeys(c);
    if |c| == 1 {
      assert !HasKey(c, PostProcessKey);
      ReplaceKeepsOthers(makeData, Arr(c), 0, PostProcessKey);
    } else {
      assert c[1] == (PostProcessKey, Arr(ThemePostProcess(themeData, makeData)));
      ReplaceTakesEntry(makeData, Arr(c), 0, 1);
    }
  }

  /**
   * A make post-process entry that no theme entry matches is left exactly as it was by the
   * merge, and one that a theme entry matches is merged with the last such theme entry.
   */
  lemma PostProcessMerge(makeData: PhpArr, themeName: string, themeData: PhpArr, x: Key)
    requires DistinctKeys(makeData)
    requires Get(makeData, PostProcessKey).Some? && Get(makeData, PostProcessKey).value.Arr?
    requires DistinctKeys(Get(makeData, PostProcessKey).value.entries)
    requires Transformed(makeData, themeName, themeData).Success?
    ensures var make := Get(makeData, PostProcessKey).value.entries;
      var result := Get(Transformed(makeData, themeName, themeData).value, PostProcessKey);
      var last := if IsSet(themeData, PostProcessKey) then LastMatching(EntriesAt(themeData, PostProcessKey), makeData, x) else None;
      && result.Some? && result.value.Arr?
      && (last.None? ==> Get(result.value.entries, x) == Get(make, x))
      && (last.Some? ==>
            Get(result.value.entries, x) ==
            Some(if Get(make, x).Some? && Get(make, x).value.Arr? && last.value.Arr?
                 then Arr(ReplaceRecursive(Get(make, x).value.entries, last.value.entries))
                 else last.value))
  {
    var make := Get(makeData, PostProcessKey).value.entries;
    var last := if IsSet(themeData, PostProcessKey) then LastMatching(EntriesAt(themeData, PostProcessKey), makeData, x) else None;
    var pp := ThemePostProcess(themeData, makeData);
    MergedPostProcessList(makeData, themeName, themeData);
    if IsSet(themeData, PostProcessKey) {
      LaterThemeEntryWins(EntriesAt(themeData, PostProcessKey), makeData, x);
    }
    assert DistinctKeys(pp) && Get(pp, x) == last;
    if last.None? {
      assert forall j :: 0 <= j < |pp| ==> pp[j].0 != x;
      ReplaceKeepsOthers(make, Arr(pp), 0, x);
    } else {
      assert (x, last.value) in pp;
      var j :| 0 <= j < |pp| && pp[j] == (x, last.value);
      ReplaceTakesEntry(make, Arr(pp), 0, j);
    }
  }
}
