/** String helpers standing in for the PHP standard library functions the core calls. */
module Text {

  predicate IsDigit(c: char) { '0' <= c <= '9' }

  predicate IsAsciiUpper(c: char) { 'A' <= c <= 'Z' }

  /** `strtolower` on one character (PHP 8 folds ASCII letters only). */
  function LowerChar(c: char): (r: char)
    ensures !IsAsciiUpper(r)
    ensures !IsAsciiUpper(c) ==> r == c
  {
    if IsAsciiUpper(c) then (c as int + 32) as char else c
  }

  predicate IsAsciiLower(c: char) { 'a' <= c <= 'z' }

  /** `toupper` on one character, the fold `strnatcasecmp` applies. */
  function UpperChar(c: char): (r: char)
    ensures !IsAsciiLower(r)
    ensures !IsAsciiLower(c) ==> r == c
  {
    if IsAsciiLower(c) then (c as int - 32) as char else c
  }

  function Upper(s: string): (r: string)
    ensures |r| == |s|
    ensures forall i :: 0 <= i < |s| ==> r[i] == UpperChar(s[i])
  {
    if s == [] then [] else [UpperChar(s[0])] + Upper(s[1..])
  }

  function Lower(s: string): (r: string)
    ensures |r| == |s|
    ensures forall i :: 0 <= i < |s| ==> r[i] == LowerChar(s[i])
  {
    if s == [] then [] else [LowerChar(s[0])] + Lower(s[1..])
  }

  function DigitChar(d: nat): char
    requires d < 10
  {
    ('0' as int + d) as char
  }

  /** Decimal representation of a natural number, as PHP prints an int. */
  function NatToString(n: nat): (r: string)
    ensures |r| > 0
    ensures forall i :: 0 <= i < |r| ==> IsDigit(r[i])
    decreases n
  {
    if n < 10 then [DigitChar(n)] else NatToString(n / 10) + [DigitChar(n % 10)]
  }

  function IntToString(n: int): (r: string)
    ensures |r| > 0
  {
    if n < 0 then "-" + NatToString(-n) else NatToString(n)
  }

  /** PHP's truthiness of a string: only "" and "0" are falsy. */
  predicate Truthy(s: string) { s != "" && s != "0" }

  /** `strcmp` (PHP 8 returns -1, 0 or 1): byte-wise, a proper prefix sorts first. */
  function StrCmp(a: string, b: string): (r: int)
    ensures -1 <= r <= 1
    ensures r == 0 <==> a == b
  {
    if a == [] && b == [] then 0
    else if a == [] then -1
    else if b == [] then 1
    else if a[0] < b[0] then -1
    else if a[0] > b[0] then 1
    else StrCmp(a[1..], b[1..])
  }

  lemma {:induction false} StrCmpAntisymmetric(a: string, b: string)
    ensures StrCmp(b, a) == -StrCmp(a, b)
  {
    if a != [] && b != [] && a[0] == b[0] { StrCmpAntisymmetric(a[1..], b[1..]); }
  }

  lemma {:induction false} StrCmpTransitive(a: string, b: string, c: string)
    requires StrCmp(a, b) <= 0 && StrCmp(b, c) <= 0
    ensures StrCmp(a, c) <= 0
  {
    if a != [] && b != [] && c != [] && a[0] == b[0] && b[0] == c[0] {
      StrCmpTransitive(a[1..], b[1..], c[1..]);
    }
  }

  function Sign(x: int): (r: int)
    ensures -1 <= r <= 1 && (r < 0 <==> x < 0) && (r > 0 <==> x > 0)
  {
    if x < 0 then -1 else if x > 0 then 1 else 0
  }

  /** Length of the run of decimal digits that starts `s`. */
  function DigitRunLength(s: string): (n: nat)
    ensures n <= |s|
    ensures forall i :: 0 <= i < n ==> IsDigit(s[i])
    ensures n < |s| ==> !IsDigit(s[n])
  {
    if s != [] && IsDigit(s[0]) then 1 + DigitRunLength(s[1..]) else 0
  }

  function DigitsValue(s: string): nat
    requires forall i :: 0 <= i < |s| ==> IsDigit(s[i])
  {
    if s == [] then 0
    else
      assert IsDigit(s[|s| - 1]);
      DigitsValue(s[..|s| - 1]) * 10 + (s[|s| - 1] as int - '0' as int)
  }

  /**
   * `strnatcasecmp`: characters compare after `toupper`, and a run of digits compares by its numeric
   * value against a run of digits in the other string.
   */
  function NatCaseCmp(a: string, b: string): (r: int)
    ensures -1 <= r <= 1
    decreases |a| + |b|
  {
    if a == [] && b == [] then 0
    else if a == [] then -1
    else if b == [] then 1
    else if IsDigit(a[0]) && IsDigit(b[0]) then
      var m := DigitRunLength(a);
      var n := DigitRunLength(b);
      var x := DigitsValue(a[..m]);
      var y := DigitsValue(b[..n]);
      if x != y then Sign(x - y) else NatCaseCmp(a[m..], b[n..])
    else if UpperChar(a[0]) != UpperChar(b[0]) then Sign(UpperChar(a[0]) as int - UpperChar(b[0]) as int)
    else NatCaseCmp(a[1..], b[1..])
  }

  predicate DigitFree(s: string) { forall i :: 0 <= i < |s| ==> !IsDigit(s[i]) }

  /** Without digits, the natural order is `strcmp` of the upper-cased strings. */
  lemma {:induction false} NatCaseCmpWithoutDigits(a: string, b: string)
    requires DigitFree(a) && DigitFree(b)
    ensures NatCaseCmp(a, b) == StrCmp(Upper(a), Upper(b))
    decreases |a| + |b|
  {
    if a != [] && b != [] {
      assert !IsDigit(a[0]);
      assert Upper(a)[1..] == Upper(a[1..]) && Upper(b)[1..] == Upper(b[1..]);
      if UpperChar(a[0]) == UpperChar(b[0]) {
        NatCaseCmpWithoutDigits(a[1..], b[1..]);
      }
    }
  }

  /** Two digit runs compare by their values: "9" sorts before "10". */
  lemma NatCaseCmpDigitRuns(a: string, b: string)
    requires a != [] && b != []
    requires forall i :: 0 <= i < |a| ==> IsDigit(a[i])
    requires forall i :: 0 <= i < |b| ==> IsDigit(b[i])
    requires DigitsValue(a) != DigitsValue(b)
    ensures NatCaseCmp(a, b) == Sign(DigitsValue(a) - DigitsValue(b))
  {
    DigitRunAll(a);
    DigitRunAll(b);
    assert a[..|a|] == a && b[..|b|] == b;
  }

  lemma {:induction false} DigitRunAll(s: string)
    requires forall i :: 0 <= i < |s| ==> IsDigit(s[i])
    ensures DigitRunLength(s) == |s|
  {
    if s != [] {
      DigitRunAll(s[1..]);
    }
  }

  /** A common digit-free prefix does not change the natural order. */
  lemma {:induction false} NatCaseCmpCommonPrefix(p: string, x: string, y: string)
    requires DigitFree(p)
    ensures NatCaseCmp(p + x, p + y) == NatCaseCmp(x, y)
  {
    if p != [] {
      assert !IsDigit(p[0]) && (p + x)[0] == p[0] && (p + y)[0] == p[0];
      assert (p + x)[1..] == p[1..] + x && (p + y)[1..] == p[1..] + y;
      NatCaseCmpCommonPrefix(p[1..], x, y);
    } else {
      assert p + x == x && p + y == y;
    }
  }

  /** `strnatcasecmp('Mario_Kart.png', 'MarioKart.png')` is 1: '_' sorts after 'K' once upper-cased. */
  lemma NatCaseCmpUnderscore()
    ensures NatCaseCmp("Mario_Kart.png", "MarioKart.png") == 1
  {
    NatCaseCmpCommonPrefix("Mario", "_Kart.png", "MarioKart.png"[5..]);
    assert "Mario" + "_Kart.png" == "Mario_Kart.png";
    assert "Mario" + "MarioKart.png"[5..] == "MarioKart.png";
  }

  lemma {:induction false} NatCaseCmpAntisymmetric(a: string, b: string)
    ensures NatCaseCmp(b, a) == -NatCaseCmp(a, b)
    decreases |a| + |b|
  {
    if a != [] && b != [] {
      if IsDigit(a[0]) && IsDigit(b[0]) {
        NatCaseCmpAntisymmetric(a[DigitRunLength(a)..], b[DigitRunLength(b)..]);
      } else if UpperChar(a[0]) == UpperChar(b[0]) {
        NatCaseCmpAntisymmetric(a[1..], b[1..]);
      }
    }
  }

  predicate StartsWith(s: string, prefix: string) {
    |prefix| <= |s| && s[..|prefix|] == prefix
  }

  predicate EndsWith(s: string, suffix: string) {
    |suffix| <= |s| && s[|s| - |suffix|..] == suffix
  }

  /** `str_contains` / `Str::contains`. */
  predicate Contains(s: string, sub: string) {
    StartsWith(s, sub) || (s != [] && Contains(s[1..], sub))
  }

  /** `sub` occurs in `s` starting at position `i`. */
  predicate OccursAt(s: string, sub: string, i: int) {
    0 <= i && i + |sub| <= |s| && s[i..i + |sub|] == sub
  }

  /** `Contains` holds exactly when `sub` occurs at some position of `s`. */
  lemma {:induction false} ContainsAt(s: string, sub: string)
    ensures Contains(s, sub) <==> exists i :: OccursAt(s, sub, i)
  {
    if StartsWith(s, sub) {
      assert OccursAt(s, sub, 0);
    } else if s == [] {
      assert forall i :: !OccursAt(s, sub, i);
    } else {
      ContainsAt(s[1..], sub);
      if exists i :: OccursAt(s, sub, i) {
        var i :| OccursAt(s, sub, i);
        assert i > 0;
        assert s[1..][i - 1..i - 1 + |sub|] == s[i..i + |sub|];
        assert OccursAt(s[1..], sub, i - 1);
      }
      if Contains(s[1..], sub) {
        var i :| OccursAt(s[1..], sub, i);
        assert s[1..][i..i + |sub|] == s[i + 1..i + 1 + |sub|];
        assert OccursAt(s, sub, i + 1);
      }
    }
  }

  predicate HasChar(s: string, c: char) { c in s }

  /** Index of the last occurrence of `c`, or -1. */
  function LastIndexOf(s: string, c: char): int {
    if s == [] then -1
    else if s[|s| - 1] == c then |s| - 1
    else LastIndexOf(s[..|s| - 1], c)
  }

  lemma {:induction false} LastIndexOfSpec(s: string, c: char)
    ensures var r := LastIndexOf(s, c);
      && -1 <= r < |s|
      && (r >= 0 ==> s[r] == c)
      && (forall i :: r < i < |s| ==> s[i] != c)
      && (r == -1 <==> c !in s)
  {
    if s != [] && s[|s| - 1] != c {
      LastIndexOfSpec(s[..|s| - 1], c);
      assert s == s[..|s| - 1] + [s[|s| - 1]];
    }
  }

  /** `ltrim($s, $chars)` */
  function TrimLeft(s: string, chars: set<char>): string {
    if s != [] && s[0] in chars then TrimLeft(s[1..], chars) else s
  }

  lemma {:induction false} TrimLeftSpec(s: string, chars: set<char>)
    ensures var r := TrimLeft(s, chars);
      |r| <= |s| && r == s[|s| - |r|..] && (r != [] ==> r[0] !in chars)
  {
    if s != [] && s[0] in chars {
      TrimLeftSpec(s[1..], chars);
    }
  }

  /** `rtrim($s, $chars)` */
  function TrimRight(s: string, chars: set<char>): string {
    if s != [] && s[|s| - 1] in chars then TrimRight(s[..|s| - 1], chars) else s
  }

  lemma {:induction false} TrimRightSpec(s: string, chars: set<char>)
    ensures var r := TrimRight(s, chars);
      |r| <= |s| && r == s[..|r|] && (r != [] ==> r[|r| - 1] !in chars)
  {
    if s != [] && s[|s| - 1] in chars {
      TrimRightSpec(s[..|s| - 1], chars);
    }
  }

  /** The characters PHP's `trim` strips by default: space, tab, newline, carriage return, NUL, vertical tab. */
  const TrimChars: set<char> := {' ', '\t', '\n', '\r', '\0', 11 as char}

  function Trim(s: string): string {
    TrimRight(TrimLeft(s, TrimChars), TrimChars)
  }

  /** PHP's `basename($path)` on a POSIX path: the part after the last '/', trailing slashes ignored. */
  function Basename(path: string): string {
    var t := TrimRight(path, {'/'});
    var i := LastIndexOf(t, '/');
    if 0 <= i + 1 <= |t| then t[i + 1..] else t
  }

  lemma BasenameHasNoSlash(path: string)
    ensures '/' !in Basename(path)
  {
    var t := TrimRight(path, {'/'});
    LastIndexOfSpec(t, '/');
  }

  /** PHP's `dirname($path)` on a POSIX path: the part before the last '/', "." when there is none. */
  function Dirname(path: string): string {
    var t := TrimRight(path, {'/'});
    if t == "" then (if path == "" then "" else "/")
    else
      var i := LastIndexOf(t, '/');
      if i < 0 || i > |t| then "."
      else
        var d := TrimRight(t[..i], {'/'});
        if d == "" then "/" else d
  }

  /** Trimming on the right keeps a first character that is not trimmed. */
  lemma {:induction false} TrimRightKeepsHead(s: string, chars: set<char>)
    requires s != [] && s[0] !in chars
    ensures TrimRight(s, chars) != [] && TrimRight(s, chars)[0] == s[0]
  {
    if s[|s| - 1] in chars {
      assert |s| > 1;
      TrimRightKeepsHead(s[..|s| - 1], chars);
    }
  }

  /**
   * The parent of a relative path that has a slash is shorter than the path and is itself
   * relative, so walking up from a relative path ends.
   */
  lemma DirnameOfRelative(path: string)
    requires '/' in path && path[0] != '/'
    ensures |Dirname(path)| < |path|
    ensures Dirname(path) != "" && Dirname(path)[0] != '/'
  {
    var t := TrimRight(path, {'/'});
    TrimRightKeepsHead(path, {'/'});
    TrimRightSpec(path, {'/'});
    LastIndexOfSpec(t, '/');
    var i := LastIndexOf(t, '/');
    if 0 < i {
      TrimRightKeepsHead(t[..i], {'/'});
      TrimRightSpec(t[..i], {'/'});
    }
  }

  /** `basename($path, $suffix)`: the suffix is cut when it ends the name and is not the whole name. */
  function BasenameWithout(path: string, suffix: string): string {
    var b := Basename(path);
    if EndsWith(b, suffix) && b != suffix then b[..|b| - |suffix|] else b
  }

  /** `implode($sep, $parts)` */
  function Implode(sep: string, parts: seq<string>): string {
    if parts == [] then ""
    else if |parts| == 1 then parts[0]
    else parts[0] + sep + Implode(sep, parts[1..])
  }
}
