/**
 * The sibling carousel of `OffsetWithSiblingsPostProcess`: for every file a
 * window of 2k+1 slots holding the file and its k neighbours on each side
 * (optionally wrapping around the ends), the out-to-in drawing order of a
 * window, and which siblings are drawn at which offset.
 */
module OffsetWithSiblings {
  import opened Wrappers

  // ---------------------------------------------------------------- windows

  /** Slot x of window i without looping: the file at i - k + x, when there is one. */
  function Slot<T>(files: seq<T>, k: nat, i: int, x: int): Option<T> {
    var key := i - k + x;
    if 0 <= key < |files| then Some(files[key]) else None
  }

  /** Slot x of window i with looping: the same position taken modulo the number of files. */
  function LoopSlot<T>(files: seq<T>, k: nat, i: int, x: int): Option<T>
    requires |files| > 0
  {
    Some(files[(i - k + x) % |files|])
  }

  /** PHP's `%` on integers: the remainder takes the sign of the dividend. */
  function PhpMod(a: int, n: int): (r: int)
    requires n > 0
    ensures -n < r < n
    ensures a >= 0 ==> r == a % n
  {
    if a >= 0 then a % n else -((-a) % n)
  }

  /** The source's correction `if ($p < 0) $p += $count` turns PHP's remainder into the Euclidean one. */
  lemma PhpModCorrected(a: int, n: int)
    requires n > 0
    ensures (if PhpMod(a, n) < 0 then PhpMod(a, n) + n else PhpMod(a, n)) == a % n
  {
    if a < 0 {
      var b := -a;
      var q, r := b / n, b % n;
      assert b == q * n + r;
      if r == 0 {
        ModOfMultiple(a, n, -q);
      } else {
        ModUnique(a, n, -q - 1, n - r);
      }
    }
  }

  lemma ModOfMultiple(a: int, n: int, m: int)
    requires n > 0 && a == m * n
    ensures a % n == 0
  {
    ModUnique(a, n, m, 0);
  }

  /** The Euclidean remainder is the unique t in [0, n) with a = m * n + t. */
  lemma ModUnique(a: int, n: int, m: int, t: int)
    requires n > 0 && 0 <= t < n && a == m * n + t
    ensures a % n == t && a / n == m
  {
    var q, r := a / n, a % n;
    assert a == q * n + r;
    var d := q - m;
    assert d * n == t - r;
    if d >= 1 {
      MulAtLeast(d, n);
      assert false;
    } else if d <= -1 {
      MulAtLeast(-d, n);
      assert false;
    }
  }

  lemma MulAtLeast(d: int, n: int)
    requires d >= 1 && n > 0
    ensures d * n >= n
  {
    assert (d - 1) * n >= 0;
  }

  /** After `x` iterations of the fix-up loop, window i's slots after the middle have been rewritten. */
  predicate RightDone(n: int, k: int, x: int, i: int) {
    k < n + k - i < x
  }

  /** After `x` iterations of the fix-up loop, window i's slots before the middle have been rewritten. */
  predicate LeftDone(k: int, x: int, i: int) {
    i < k && k - 1 - i < x
  }

  function Expected<T>(files: seq<T>, k: nat, x: int, i: int, s: int): Option<T>
    requires |files| > 0
  {
    if (s > k && RightDone(|files|, k, x, i)) || (s < k && LeftDone(k, x, i)) then LoopSlot(files, k, i, s)
    else Slot(files, k, i, s)
  }

  /** The window array as the first loop of `processWorkset` fills it. */
  method BuildWindows<T>(files: seq<T>, k: nat) returns (ws: array2<Option<T>>)
    ensures fresh(ws) && ws.Length0 == |files| && ws.Length1 == 2 * k + 1
    ensures forall i, x :: 0 <= i < |files| && 0 <= x < 2 * k + 1 ==> ws[i, x] == Slot(files, k, i, x)
  {
    var n, width := |files|, 2 * k + 1;
    ws := new Option<T>[n, width];
    var count := 0;
    while count < n
      invariant 0 <= count <= n
      invariant forall i, x :: 0 <= i < count && 0 <= x < width ==> ws[i, x] == Slot(files, k, i, x)
    {
      var x := 0;
      while x < width
        invariant 0 <= x <= width
        invariant forall i, x' :: 0 <= i < count && 0 <= x' < width ==> ws[i, x'] == Slot(files, k, i, x')
        invariant forall x' :: 0 <= x' < x ==> ws[count, x'] == Slot(files, k, count, x')
      {
        var siblingKey := count - (x - k) * -1;
        ws[count, x] := if 0 <= siblingKey < n then Some(files[siblingKey]) else None;
        x := x + 1;
      }
      count := count + 1;
    }
  }

  /** The right-hand fix of one fix-up iteration: window a's slots after the middle wrap to the front. */
  method FixRight<T>(ws: array2<Option<T>>, files: seq<T>, k: nat, x: int, a: int)
    requires |files| > 0 && ws.Length0 == |files| && ws.Length1 == 2 * k + 1
    requires x > k && a == |files| + k - x && 0 <= a
    requires forall i, s :: 0 <= i < |files| && 0 <= s < 2 * k + 1 ==> ws[i, s] == Expected(files, k, x, i, s)
    modifies ws
    ensures forall i, s :: 0 <= i < |files| && 0 <= s < 2 * k + 1 ==> ws[i, s] == Expected(files, k, x + 1, i, s)
  {
    var n := |files|;
    var y := 0;
    while y < k
      invariant 0 <= y <= k
      invariant forall i, s :: 0 <= i < n && 0 <= s < 2 * k + 1 ==>
        ws[i, s] == if i == a && k < s <= k + y then LoopSlot(files, k, i, s) else Expected(files, k, x, i, s)
    {
      var increment := y + 1;
      var newPosition := (a + increment) % n;
      ws[a, k + (y + 1)] := Some(files[newPosition]);
      y := y + 1;
    }
  }

  /** The left-hand fix of one fix-up iteration: window a's slots before the middle wrap to the back. */
  method FixLeft<T>(ws: array2<Option<T>>, files: seq<T>, k: nat, x: int, a: int)
    requires |files| > 0 && ws.Length0 == |files| && ws.Length1 == 2 * k + 1
    requires 0 <= x < k && a == k - x - 1 && a < |files|
    requires forall i, s :: 0 <= i < |files| && 0 <= s < 2 * k + 1 ==> ws[i, s] == Expected(files, k, x, i, s)
    modifies ws
    ensures forall i, s :: 0 <= i < |files| && 0 <= s < 2 * k + 1 ==> ws[i, s] == Expected(files, k, x + 1, i, s)
  {
    var n := |files|;
    var y := 0;
    while y < k
      invariant 0 <= y <= k
      invariant forall i, s :: 0 <= i < n && 0 <= s < 2 * k + 1 ==>
        ws[i, s] == if i == a && k - y <= s < k then LoopSlot(files, k, i, s) else Expected(files, k, x, i, s)
    {
      var increment := (y + 1) * -1;
      var newPosition := PhpMod(a + increment, n);
      if newPosition < 0 {
        newPosition := newPosition + n;
      }
      PhpModCorrected(a + increment, n);
      ws[a, k - (y + 1)] := Some(files[newPosition]);
      y := y + 1;
    }
  }

  /** An iteration whose amend key falls outside the file list changes nothing. */
  lemma NothingToFix<T>(files: seq<T>, k: nat, x: int)
    requires |files| > 0 && 0 <= x
    requires x == k || (x > k && |files| + k - x < 0) || (x < k && k - x - 1 >= |files|)
    ensures forall i, s :: 0 <= i < |files| ==> Expected(files, k, x, i, s) == Expected(files, k, x + 1, i, s)
  {
  }

  /** After all 2k+1 iterations every slot that was outside the file list has been wrapped. */
  lemma AllFixed<T>(files: seq<T>, k: nat)
    requires |files| > 0
    ensures forall i, s :: 0 <= i < |files| && 0 <= s < 2 * k + 1 ==>
      Expected(files, k, 2 * k + 1, i, s) == LoopSlot(files, k, i, s)
  {
    var count := |files|;
    forall i, s | 0 <= i < count && 0 <= s < 2 * k + 1
      ensures Expected(files, k, 2 * k + 1, i, s) == LoopSlot(files, k, i, s)
    {
      var key := i - k + s;
      if 0 <= key < count {
        assert key % count == key;
      }
    }
  }

  /** The loop fix-up of `processWorkset`: one pass over the slot offsets, amending the windows at both ends. */
  method FixLoop<T>(ws: array2<Option<T>>, files: seq<T>, k: nat)
    requires |files| > 0 && ws.Length0 == |files| && ws.Length1 == 2 * k + 1
    requires forall i, s :: 0 <= i < |files| && 0 <= s < 2 * k + 1 ==> ws[i, s] == Slot(files, k, i, s)
    modifies ws
    ensures forall i, s :: 0 <= i < |files| && 0 <= s < 2 * k + 1 ==> ws[i, s] == LoopSlot(files, k, i, s)
  {
    var count, width := |files|, 2 * k + 1;
    var x := 0;
    while x < width
      invariant 0 <= x <= width
      invariant forall i, s :: 0 <= i < count && 0 <= s < width ==> ws[i, s] == Expected(files, k, x, i, s)
    {
      var worksetKey := k - x;
      if worksetKey < 0 {
        var amendKey := count + worksetKey;
        if 0 <= amendKey {
          FixRight(ws, files, k, x, amendKey);
        } else {
          NothingToFix(files, k, x);
        }
      } else if worksetKey > 0 {
        var amendKey := -1 + worksetKey;
        if amendKey < count {
          FixLeft(ws, files, k, x, amendKey);
        } else {
          NothingToFix(files, k, x);
        }
      } else {
        NothingToFix(files, k, x);
      }
      x := x + 1;
    }
    AllFixed(files, k);
  }

  /**
   * The windows `processWorkset` builds: one per file, each of 2k+1 slots. Slot x
   * of window i is the file at i - k + x, or null beyond the ends; with the loop
   * option, every slot wraps around modulo the number of files instead.
   */
  method Windows<T>(files: seq<T>, k: nat, loop: bool) returns (workset: seq<seq<Option<T>>>)
    ensures |workset| == |files|
    ensures forall i :: 0 <= i < |files| ==> |workset[i]| == 2 * k + 1
    ensures forall i, x :: 0 <= i < |files| && 0 <= x < 2 * k + 1 ==>
      workset[i][x] == if loop then LoopSlot(files, k, i, x) else Slot(files, k, i, x)
  {
    var ws := BuildWindows(files, k);
    if loop && |files| > 0 {
      FixLoop(ws, files, k);
    }
    var n, width := |files|, 2 * k + 1;
    workset := seq(n, i requires 0 <= i < n reads ws => seq(width, s requires 0 <= s < width reads ws => ws[i, s]));
  }

  /** The middle slot of every window is the window's own file, with or without looping. */
  lemma MiddleIsCurrent<T>(files: seq<T>, k: nat, i: int)
    requires 0 <= i < |files|
    ensures Slot(files, k, i, k) == Some(files[i])
    ensures LoopSlot(files, k, i, k) == Some(files[i])
  {
  }

  /** Without looping, a slot is empty exactly when it reaches past either end of the file list. */
  lemma SlotEmptyBeyondEnds<T>(files: seq<T>, k: nat, i: int, x: int)
    ensures Slot(files, k, i, x).None? <==> i - k + x < 0 || i - k + x >= |files|
  {
  }

  /** With k = 2 and five files, the first looping window is files 3, 4, 0, 1, 2. */
  lemma LoopExample<T>(files: seq<T>)
    requires |files| == 5
    ensures seq(5, x => LoopSlot(files, 2, 0, x)) ==
      [Some(files[3]), Some(files[4]), Some(files[0]), Some(files[1]), Some(files[2])]
  {
  }

  // ---------------------------------------------------------------- drawing order

  /** The key `reorderArrayOutToIn` puts at position j of n: 0, n-1, 1, n-2, ... */
  function OutToInKey(j: int, n: int): int {
    if j % 2 == 0 then j / 2 else n - 1 - j / 2
  }

  /** `reorderArrayOutToIn` on a window: the (key, value) pairs from both ends towards the middle. */
  method ReorderOutToIn<T>(source: seq<T>) returns (result: seq<(int, T)>)
    ensures |result| == |source|
    ensures forall j :: 0 <= j < |source| ==>
      0 <= OutToInKey(j, |source|) < |source| && result[j] == (OutToInKey(j, |source|), source[OutToInKey(j, |source|)])
  {
    var n := |source|;
    result := [];
    var left, right := 0, n - 1;
    while left <= right
      invariant 0 <= left && right < n && left <= right + 1
      invariant n - 1 - right == left && |result| == 2 * left
      invariant forall j :: 0 <= j < |result| ==>
        0 <= OutToInKey(j, n) < n && result[j] == (OutToInKey(j, n), source[OutToInKey(j, n)])
      decreases right - left
    {
      if left <= right {
        assert OutToInKey(|result|, n) == left;
        result := result + [(left, source[left])];
        left := left + 1;
      }
      if left <= right {
        assert OutToInKey(|result|, n) == right;
        result := result + [(right, source[right])];
        right := right - 1;
      } else {
        assert |result| == n;
        return;
      }
    }
  }

  function OutToInKeys(n: nat): seq<int> {
    seq(n, j => OutToInKey(j, n))
  }

  /** The out-to-in order visits every key of the window exactly once. */
  lemma OutToInIsPermutation(n: nat)
    ensures |OutToInKeys(n)| == n
    ensures forall j :: 0 <= j < n ==> 0 <= OutToInKeys(n)[j] < n
    ensures forall j1, j2 :: 0 <= j1 < j2 < n ==> OutToInKeys(n)[j1] != OutToInKeys(n)[j2]
    ensures forall key :: 0 <= key < n ==> key in OutToInKeys(n)
  {
    var keys := OutToInKeys(n);
    forall key | 0 <= key < n ensures key in keys {
      if 2 * key < n {
        assert keys[2 * key] == key;
      } else {
        assert keys[2 * (n - 1 - key) + 1] == key;
      }
    }
  }

  /** The last key of the order, the one `array_pop` takes as the window's own image, is the middle one. */
  lemma LastIsMiddle(n: nat)
    requires n > 0
    ensures OutToInKey(n - 1, n) == n / 2
  {
  }

  /** In a window of 2k+1 slots, siblings are drawn farthest first: the distance to the middle never grows. */
  lemma OutToInApproachesMiddle(k: nat, j1: nat, j2: nat)
    requires j1 <= j2 < 2 * k + 1
    ensures var d1, d2 := OutToInKey(j1, 2 * k + 1) - k, OutToInKey(j2, 2 * k + 1) - k;
      (if d1 < 0 then -d1 else d1) >= (if d2 < 0 then -d2 else d2)
  {
  }

  // ---------------------------------------------------------------- which siblings are drawn, and where

  /** The offset of a sibling along one axis: `fixed` uses the option as is, every other mode scales it by the index. */
  function AxisOffset(offset: int, mode: string, offsetIndex: int): (r: int)
    ensures mode == "fixed" ==> r == offset
    ensures mode != "fixed" ==> r == offset * offsetIndex
  {
    if mode == "fixed" then offset else offset * offsetIndex
  }

  /** The `render` option: ahead hides the siblings before the middle, behind those after it. */
  predicate Rendered(offsetIndex: int, render: string) {
    !(offsetIndex < 0 && render == "ahead") && !(offsetIndex > 0 && render == "behind")
  }

  datatype Placement<T> = Placement(image: T, offsetIndex: int, offsetX: int, offsetY: int)

  /** The offset options the drawing loop reads (scale, circle and opacity are not modelled). */
  datatype DrawOptions = DrawOptions(render: string, offsetX: int, offsetY: int, offsetXMode: string, offsetYMode: string)

  /** The placement of the sibling under key `key` when it is drawn. */
  function PlacementOf<T>(image: T, key: int, middle: int, o: DrawOptions): Placement<T> {
    var idx := key - middle;
    Placement(image, idx, AxisOffset(o.offsetX, o.offsetXMode, idx), AxisOffset(o.offsetY, o.offsetYMode, idx))
  }

  /** The siblings of a reordered window that the drawing loop places, in drawing order. */
  function Drawn<T>(siblings: seq<(int, Option<T>)>, middle: int, o: DrawOptions): seq<Placement<T>>
    decreases |siblings|
  {
    if siblings == [] then []
    else
      var (key, sib) := siblings[0];
      (if sib.Some? && Rendered(key - middle, o.render) then [PlacementOf(sib.value, key, middle, o)] else [])
      + Drawn(siblings[1..], middle, o)
  }

  /**
   * One window's drawing: reorder it out to in, pop the last entry as the
   * window's own image, then place each non-null sibling the render option
   * allows, at its offset.
   */
  method DrawWindow<T>(window: seq<Option<T>>, o: DrawOptions) returns (placements: seq<Placement<T>>, original: Option<T>)
    requires |window| > 0
    ensures original == window[|window| / 2]
    ensures placements == Drawn(ReorderedPrefix(window), |window| / 2, o)
  {
    var middleKey := |window| / 2;
    var siblings := ReorderOutToIn(window);
    LastIsMiddle(|window|);
    original := siblings[|siblings| - 1].1;
    siblings := siblings[..|siblings| - 1];
    assert siblings == ReorderedPrefix(window);
    placements := DrawSiblings(siblings, middleKey, o);
  }

  /** The drawing of the siblings from position j on, with the one at j unfolded. */
  lemma DrawnAt<T>(siblings: seq<(int, Option<T>)>, j: int, middle: int, o: DrawOptions)
    requires 0 <= j < |siblings|
    ensures var (key, sib) := siblings[j];
      Drawn(siblings[j..], middle, o) ==
        (if sib.Some? && Rendered(key - middle, o.render) then [PlacementOf(sib.value, key, middle, o)] else [])
        + Drawn(siblings[j + 1..], middle, o)
  {
    assert siblings[j..][0] == siblings[j] && siblings[j..][1..] == siblings[j + 1..];
  }

  /** The drawing loop over the siblings of one window: skips, then places with the computed offsets. */
  method DrawSiblings<T>(siblings: seq<(int, Option<T>)>, middleKey: int, o: DrawOptions)
    returns (placements: seq<Placement<T>>)
    ensures placements == Drawn(siblings, middleKey, o)
  {
    placements := [];
    var j := 0;
    while j < |siblings|
      invariant 0 <= j <= |siblings|
      invariant placements + Drawn(siblings[j..], middleKey, o) == Drawn(siblings, middleKey, o)
    {
      ghost var rest := Drawn(siblings[j + 1..], middleKey, o);
      DrawnAt(siblings, j, middleKey, o);
      var (siblingKey, sibling) := siblings[j];
      var offsetIndex := siblingKey - middleKey;
      if sibling.None? {
        // a missing sibling is skipped
        assert Drawn(siblings[j..], middleKey, o) == rest;
      } else if offsetIndex < 0 && o.render == "ahead" {
        // siblings behind the middle are skipped when only those ahead are rendered
        assert Drawn(siblings[j..], middleKey, o) == rest;
      } else if offsetIndex > 0 && o.render == "behind" {
        // siblings ahead of the middle are skipped when only those behind are rendered
        assert Drawn(siblings[j..], middleKey, o) == rest;
      } else {
        var totalOffsetX := o.offsetX * offsetIndex;
        var totalOffsetY := o.offsetY * offsetIndex;
        if o.offsetXMode == "fixed" {
          totalOffsetX := o.offsetX;
        }
        if o.offsetYMode == "fixed" {
          totalOffsetY := o.offsetY;
        }
        var p := Placement(sibling.value, offsetIndex, totalOffsetX, totalOffsetY);
        assert p == PlacementOf(sibling.value, siblingKey, middleKey, o);
        assert Drawn(siblings[j..], middleKey, o) == [p] + rest;
        assert placements + ([p] + rest) == (placements + [p]) + rest;
        placements := placements + [p];
      }
      j := j + 1;
    }
    assert siblings[j..] == [];
  }

  /** All but the last entry of the out-to-in order of a window, as (key, value) pairs. */
  function ReorderedPrefix<T>(window: seq<Option<T>>): seq<(int, Option<T>)>
    requires |window| > 0
  {
    seq(|window| - 1, j requires 0 <= j < |window| - 1 =>
      var key := OutToInKey(j, |window|);
      (key, if 0 <= key < |window| then window[key] else None))
  }

  /** A placement is made exactly for a non-null sibling the render option allows, at that sibling's offsets. */
  lemma {:induction false} DrawnExactly<T>(siblings: seq<(int, Option<T>)>, middle: int, o: DrawOptions, p: Placement<T>)
    ensures p in Drawn(siblings, middle, o) <==>
      exists j :: 0 <= j < |siblings| && siblings[j].1.Some? && Rendered(siblings[j].0 - middle, o.render) &&
        p == PlacementOf(siblings[j].1.value, siblings[j].0, middle, o)
    decreases |siblings|
  {
    if siblings != [] {
      DrawnExactly(siblings[1..], middle, o, p);
      var (key, sib) := siblings[0];
      var head := if sib.Some? && Rendered(key - middle, o.render) then [PlacementOf(sib.value, key, middle, o)] else [];
      assert Drawn(siblings, middle, o) == head + Drawn(siblings[1..], middle, o);
      if exists j :: (0 <= j < |siblings| && siblings[j].1.Some? && Rendered(siblings[j].0 - middle, o.render) &&
                      p == PlacementOf(siblings[j].1.value, siblings[j].0, middle, o)) {
        var j :| 0 <= j < |siblings| && siblings[j].1.Some? && Rendered(siblings[j].0 - middle, o.render) &&
          p == PlacementOf(siblings[j].1.value, siblings[j].0, middle, o);
        if j > 0 {
          assert siblings[1..][j - 1] == siblings[j];
        }
      }
      if p in Drawn(siblings[1..], middle, o) {
        var j :| 0 <= j < |siblings[1..]| && siblings[1..][j].1.Some? && Rendered(siblings[1..][j].0 - middle, o.render) &&
          p == PlacementOf(siblings[1..][j].1.value, siblings[1..][j].0, middle, o);
        assert siblings[j + 1] == siblings[1..][j];
      }
    }
  }
}
