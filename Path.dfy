/**
 * The string helpers of the `Path` utility class. `Join` runs the class's own slash collapsing
 * followed by Symfony's `Path::canonicalize` for POSIX paths: backslashes become slashes, a
 * leading '/' is the root, empty and '.' segments vanish, and '..' cancels the previous segment
 * (a relative path keeps the '..' it cannot cancel, an absolute one drops it).
 */
module Path {
  import opened Text

  /** `explode('/', $s)`: the pieces between slashes; there is always at least one. */
  function Split(s: string): (r: seq<string>)
    ensures |r| >= 1
  {
    if s == [] then [""]
    else
      var rest := Split(s[1..]);
      if s[0] == '/' then [""] + rest else [[s[0]] + rest[0]] + rest[1..]
  }

  /** Splitting on '/' and joining with '/' gives back the string, and no piece holds a '/'. */
  lemma {:induction false} SplitImplode(s: string)
    ensures Implode("/", Split(s)) == s
    ensures forall p :: p in Split(s) ==> '/' !in p
  {
    if s != [] {
      var rest := Split(s[1..]);
      SplitImplode(s[1..]);
      if s[0] == '/' {
        assert Split(s) == [""] + rest;
        assert Split(s)[1..] == rest;
      } else {
        var parts := [[s[0]] + rest[0]] + rest[1..];
        assert Split(s) == parts;
        if |rest| > 1 {
          assert Implode("/", rest) == rest[0] + "/" + Implode("/", rest[1..]);
          assert parts[1..] == rest[1..];
        }
        forall p | p in parts ensures '/' !in p {
          if p != parts[0] { assert p in rest; }
        }
      }
    }
  }

  /** A string without a '/' is a single piece. */
  lemma {:induction false} SplitPlain(s: string)
    requires '/' !in s
    ensures Split(s) == [s]
  {
    if s != [] {
      SplitPlain(s[1..]);
      assert [s[0]] + s[1..] == s;
    }
  }

  /** A '/' between two strings splits them apart. */
  lemma {:induction false} SplitAround(x: string, y: string)
    ensures Split(x + "/" + y) == Split(x) + Split(y)
  {
    if x == [] {
      assert x + "/" + y == "/" + y;
      assert ("/" + y)[1..] == y;
    } else {
      assert (x + "/" + y)[1..] == x[1..] + "/" + y;
      SplitAround(x[1..], y);
    }
  }

  /** `preg_replace('#(/)+#', '/', $s)`: every run of slashes becomes one slash. */
  function CollapseSlashes(s: string): string {
    if |s| < 2 then s
    else if s[0] == '/' && s[1] == '/' then CollapseSlashes(s[1..])
    else [s[0]] + CollapseSlashes(s[1..])
  }

  predicate NoDoubleSlash(s: string) {
    forall i :: 0 <= i < |s| - 1 ==> !(s[i] == '/' && s[i + 1] == '/')
  }

  /** No two slashes remain side by side, and the last character is kept. */
  lemma {:induction false} CollapseSlashesSpec(s: string)
    ensures NoDoubleSlash(CollapseSlashes(s))
    ensures |CollapseSlashes(s)| <= |s|
    ensures s != [] ==> CollapseSlashes(s) != [] && CollapseSlashes(s)[|CollapseSlashes(s)| - 1] == s[|s| - 1]
    ensures s != [] ==> CollapseSlashes(s)[0] == s[0]
  {
    if |s| >= 2 {
      CollapseSlashesSpec(s[1..]);
      var t := CollapseSlashes(s[1..]);
      if !(s[0] == '/' && s[1] == '/') {
        var r := [s[0]] + t;
        forall i | 0 <= i < |r| - 1 ensures !(r[i] == '/' && r[i + 1] == '/') {
          if i > 0 { assert r[i] == t[i - 1] && r[i + 1] == t[i]; }
        }
      }
    }
  }

  /** Collapsing works piecewise across a boundary that is not followed by a slash. */
  lemma {:induction false} CollapseAppend(x: string, y: string)
    requires y != [] && y[0] != '/'
    ensures CollapseSlashes(x + y) == CollapseSlashes(x) + CollapseSlashes(y)
  {
    if |x| == 1 {
      assert (x + y)[1..] == y;
    } else if |x| >= 2 {
      assert (x + y)[0] == x[0] && (x + y)[1] == x[1];
      assert (x + y)[1..] == x[1..] + y;
      CollapseAppend(x[1..], y);
      var cx := CollapseSlashes(x[1..]);
      var cy := CollapseSlashes(y);
      if x[0] == '/' && x[1] == '/' {
        assert CollapseSlashes(x + y) == CollapseSlashes(x[1..] + y);
        assert CollapseSlashes(x) == cx;
      } else {
        assert CollapseSlashes(x + y) == [x[0]] + (cx + cy);
        assert CollapseSlashes(x) == [x[0]] + cx;
        assert [x[0]] + (cx + cy) == ([x[0]] + cx) + cy;
      }
    } else {
      assert x + y == y;
    }
  }

  lemma {:induction false} CollapsePlain(s: string)
    requires '/' !in s
    ensures CollapseSlashes(s) == s
  {
    if |s| >= 2 {
      CollapsePlain(s[1..]);
    }
  }

  /** The canonical segments of a path, folding left over its pieces. */
  function CanonicalParts(absolute: bool, parts: seq<string>): seq<string>
    decreases |parts|
  {
    if parts == [] then []
    else
      var acc := CanonicalParts(absolute, parts[..|parts| - 1]);
      var part := parts[|parts| - 1];
      if part == "." || part == "" then acc
      else if part == ".." && |acc| > 0 && acc[|acc| - 1] != ".." then acc[..|acc| - 1]
      else if part != ".." || !absolute then acc + [part]
      else acc
  }

  /** Canonical segments are never empty or '.', hold no '/', and an absolute path keeps no '..'. */
  lemma {:induction false} CanonicalPartsClean(absolute: bool, parts: seq<string>)
    requires forall p :: p in parts ==> '/' !in p
    ensures forall q :: q in CanonicalParts(absolute, parts) ==>
      q != "" && q != "." && '/' !in q && (absolute ==> q != "..")
    decreases |parts|
  {
    if parts != [] {
      var init := parts[..|parts| - 1];
      assert forall p :: p in init ==> p in parts;
      CanonicalPartsClean(absolute, init);
      var acc := CanonicalParts(absolute, init);
      var part := parts[|parts| - 1];
      assert part in parts;
      if part == ".." && |acc| > 0 && acc[|acc| - 1] != ".." {
        assert forall q :: q in acc[..|acc| - 1] ==> q in acc;
      }
    }
  }

  /** `str_replace('\\', '/', $path)` */
  function MapBackslashes(s: string): (r: string)
    ensures |r| == |s|
  {
    if s == [] then [] else [if s[0] == '\\' then '/' else s[0]] + MapBackslashes(s[1..])
  }

  lemma {:induction false} MapBackslashesSpec(s: string)
    ensures forall i :: 0 <= i < |s| ==> MapBackslashes(s)[i] == (if s[i] == '\\' then '/' else s[i])
  {
    if s != [] {
      MapBackslashesSpec(s[1..]);
    }
  }

  /** Symfony's `Path::canonicalize` for a POSIX path. */
  function Canonicalize(path: string): string {
    if path == [] then []
    else
      var p := MapBackslashes(path);
      var absolute := p[0] == '/';
      var rest := if absolute then p[1..] else p;
      (if absolute then "/" else "") + Implode("/", CanonicalParts(absolute, Split(rest)))
  }

  /** `Path::join(...$parts)` */
  function Join(parts: seq<string>): string {
    Canonicalize(CollapseSlashes(Implode("/", parts)))
  }

  /** `joinWithBase`: `join` with the base path as the first part. */
  function JoinWithBase(base: string, parts: seq<string>): string {
    Join([base] + parts)
  }

  /** Joining clean segments with '/' never puts two slashes together, and starts and ends off a slash. */
  lemma {:induction false} ImplodeClean(parts: seq<string>)
    requires forall q :: q in parts ==> q != "" && '/' !in q
    ensures var s := Implode("/", parts);
      NoDoubleSlash(s) && (parts != [] ==> s != [] && s[0] != '/' && s[|s| - 1] != '/')
  {
    if |parts| > 1 {
      assert forall q :: q in parts[1..] ==> q in parts;
      ImplodeClean(parts[1..]);
      var t := Implode("/", parts[1..]);
      var s := parts[0] + "/" + t;
      assert parts[0] in parts;
      assert parts[0][|parts[0]| - 1] != '/' by { assert parts[0][|parts[0]| - 1] in parts[0]; }
      forall i | 0 <= i < |s| - 1 ensures !(s[i] == '/' && s[i + 1] == '/') {
        if i < |parts[0]| - 1 {
          assert s[i] == parts[0][i];
          assert s[i] in parts[0];
        } else if i == |parts[0]| - 1 {
          assert s[i] == parts[0][i];
        } else if i == |parts[0]| {
          assert s[i + 1] == t[0];
        } else {
          assert s[i] == t[i - |parts[0]| - 1] && s[i + 1] == t[i - |parts[0]|];
        }
      }
    } else if |parts| == 1 {
      var s := parts[0];
      assert s in parts;
      assert s[0] in s && s[|s| - 1] in s;
      forall i | 0 <= i < |s| - 1 ensures !(s[i] == '/' && s[i + 1] == '/') {
        assert s[i] in s;
      }
    }
  }

  /** A joined path never holds two slashes in a row and ends in a slash only when it is the root. */
  lemma JoinClean(parts: seq<string>)
    ensures var r := Join(parts);
      NoDoubleSlash(r) && (r != [] && r[|r| - 1] == '/' ==> r == "/")
  {
    var path := CollapseSlashes(Implode("/", parts));
    if path != [] {
      var p := MapBackslashes(path);
      var absolute := p[0] == '/';
      var rest := if absolute then p[1..] else p;
      SplitImplode(rest);
      CanonicalPartsClean(absolute, Split(rest));
      var cp := CanonicalParts(absolute, Split(rest));
      ImplodeClean(cp);
      var s := Implode("/", cp);
      var r := (if absolute then "/" else "") + s;
      assert Join(parts) == r;
      forall i | 0 <= i < |r| - 1 ensures !(r[i] == '/' && r[i + 1] == '/') {
        if absolute {
          if i == 0 { assert r[1] == s[0]; } else { assert r[i] == s[i - 1] && r[i + 1] == s[i]; }
        }
      }
      if absolute && s != [] {
        assert r[|r| - 1] == s[|s| - 1];
      }
    }
  }

  /** The pieces of `ps` that are not empty, in order. */
  function NonEmpty(ps: seq<string>): (r: seq<string>)
    ensures forall q :: q in r ==> q != "" && q in ps
  {
    if ps == [] then [] else (if ps[0] == "" then [] else [ps[0]]) + NonEmpty(ps[1..])
  }

  lemma {:induction false} NonEmptyAppend(x: seq<string>, y: seq<string>)
    ensures NonEmpty(x + y) == NonEmpty(x) + NonEmpty(y)
  {
    if x == [] {
      assert x + y == y;
    } else {
      assert (x + y)[0] == x[0] && (x + y)[1..] == x[1..] + y;
      NonEmptyAppend(x[1..], y);
    }
  }

  lemma {:induction false} NonEmptyKeeps(ps: seq<string>, q: string)
    requires q in ps && q != ""
    ensures q in NonEmpty(ps)
  {
    if ps[0] != q {
      NonEmptyKeeps(ps[1..], q);
    }
  }

  lemma {:induction false} NonEmptyOfNonEmpty(ps: seq<string>)
    requires forall q :: q in ps ==> q != ""
    ensures NonEmpty(ps) == ps
  {
    if ps != [] {
      assert ps[0] in ps;
      assert forall q :: q in ps[1..] ==> q in ps;
      NonEmptyOfNonEmpty(ps[1..]);
    }
  }

  /** `explode('/', ...)` of every part, one after the other. */
  function Pieces(parts: seq<string>): seq<string> {
    if parts == [] then [] else Split(parts[0]) + Pieces(parts[1..])
  }

  /** Splitting the joined parts splits each part. */
  lemma {:induction false} SplitImplodeAll(parts: seq<string>)
    requires parts != []
    ensures Split(Implode("/", parts)) == Pieces(parts)
  {
    if |parts| == 1 {
      assert Pieces(parts) == Split(parts[0]) + [];
    } else {
      SplitImplodeAll(parts[1..]);
      SplitAround(parts[0], Implode("/", parts[1..]));
    }
  }

  /** Collapsing slashes only removes empty pieces; the first piece stays. */
  lemma {:induction false} SplitCollapse(s: string)
    ensures Split(CollapseSlashes(s))[0] == Split(s)[0]
    ensures NonEmpty(Split(CollapseSlashes(s))[1..]) == NonEmpty(Split(s)[1..])
  {
    if |s| >= 2 {
      var t := s[1..];
      SplitCollapse(t);
      var u := CollapseSlashes(t);
      var st := Split(t);
      var su := Split(u);
      NonEmptyHead(st);
      NonEmptyHead(su);
      if s[0] == '/' && s[1] == '/' {
        assert st == [""] + Split(t[1..]);
      } else {
        var c := [s[0]] + u;
        assert CollapseSlashes(s) == c && c[0] == s[0] && c[1..] == u;
      }
    }
  }

  lemma NonEmptyHead(ps: seq<string>)
    requires ps != []
    ensures NonEmpty(ps) == NonEmpty([ps[0]]) + NonEmpty(ps[1..])
  {
    assert ps == [ps[0]] + ps[1..];
    NonEmptyAppend([ps[0]], ps[1..]);
  }

  lemma SplitCollapseAll(s: string)
    ensures NonEmpty(Split(CollapseSlashes(s))) == NonEmpty(Split(s))
  {
    SplitCollapse(s);
    NonEmptyHead(Split(CollapseSlashes(s)));
    NonEmptyHead(Split(s));
  }

  /** Canonical segments of pieces that hold no '.' or '..': just the non-empty pieces. */
  lemma {:induction false} CanonicalPartsKeep(absolute: bool, ps: seq<string>)
    requires forall q :: q in ps ==> q != "." && q != ".."
    ensures CanonicalParts(absolute, ps) == NonEmpty(ps)
    decreases |ps|
  {
    if ps != [] {
      var n := |ps| - 1;
      assert forall q :: q in ps[..n] ==> q in ps;
      CanonicalPartsKeep(absolute, ps[..n]);
      assert ps[n] in ps;
      assert ps == ps[..n] + [ps[n]];
      NonEmptyAppend(ps[..n], [ps[n]]);
    }
  }

  lemma {:induction false} CollapseKeepsOut(s: string, c: char)
    requires c !in s
    ensures c !in CollapseSlashes(s)
  {
    if |s| >= 2 {
      CollapseKeepsOut(s[1..], c);
    }
  }

  lemma {:induction false} ImplodeKeepsOut(parts: seq<string>, c: char)
    requires c != '/' && forall p :: p in parts ==> c !in p
    ensures c !in Implode("/", parts)
  {
    if |parts| > 1 {
      assert parts[0] in parts;
      assert forall p :: p in parts[1..] ==> p in parts;
      ImplodeKeepsOut(parts[1..], c);
    } else if |parts| == 1 {
      assert parts[0] in parts;
    }
  }

  lemma ImplodeFirst(parts: seq<string>)
    requires parts != [] && parts[0] != []
    ensures Implode("/", parts) != [] && Implode("/", parts)[0] == parts[0][0]
  {
  }

  /**
   * Joining parts whose first one is absolute, with no backslash and no '.' or '..' piece,
   * gives the root followed by every non-empty piece, one slash apart.
   */
  lemma JoinAbsolute(parts: seq<string>)
    requires parts != [] && parts[0] != [] && parts[0][0] == '/'
    requires forall p :: p in parts ==> '\\' !in p
    requires forall q :: q in Pieces(parts) ==> q != "." && q != ".."
    ensures Join(parts) == "/" + Implode("/", NonEmpty(Pieces(parts)))
  {
    var s := Implode("/", parts);
    ImplodeFirst(parts);
    var c := CollapseSlashes(s);
    CollapseSlashesSpec(s);
    ImplodeKeepsOut(parts, '\\');
    CollapseKeepsOut(s, '\\');
    MapBackslashesPlain(c);
    var rest := c[1..];
    assert Split(c) == [""] + Split(rest);
    NonEmptyHead(Split(c));
    SplitCollapseAll(s);
    SplitImplodeAll(parts);
    var segs := NonEmpty(Split(rest));
    assert segs == NonEmpty(Pieces(parts));
    forall q | q in Split(rest) ensures q != "." && q != ".." {
      if q != "" { NonEmptyKeeps(Split(rest), q); }
    }
    CanonicalPartsKeep(true, Split(rest));
    assert Join(parts) == Canonicalize(c);
  }

  /** Splitting clean segments joined by '/' gives them back. */
  lemma {:induction false} SplitOfImplode(bs: seq<string>)
    requires bs != [] && forall b :: b in bs ==> '/' !in b
    ensures Split(Implode("/", bs)) == bs
  {
    assert bs[0] in bs;
    SplitPlain(bs[0]);
    if |bs| > 1 {
      assert forall b :: b in bs[1..] ==> b in bs;
      SplitOfImplode(bs[1..]);
      SplitAround(bs[0], Implode("/", bs[1..]));
    }
  }

  lemma {:induction false} ImplodeConcat(x: seq<string>, y: seq<string>)
    requires x != [] && y != []
    ensures Implode("/", x + y) == Implode("/", x) + "/" + Implode("/", y)
  {
    if |x| == 1 {
      assert (x + y)[1..] == y;
    } else {
      assert (x + y)[1..] == x[1..] + y;
      ImplodeConcat(x[1..], y);
    }
  }

  /**
   * `joinWithBase` under a canonical absolute base: the base comes first, then every non-empty
   * piece of the parts in order, one slash apart; with no such piece the result is the base.
   */
  lemma JoinWithBaseAppends(bs: seq<string>, parts: seq<string>)
    requires bs != [] && forall b :: b in bs ==> PlainSegment(b)
    requires forall p :: p in parts ==> '\\' !in p
    requires forall q :: q in Pieces(parts) ==> q != "." && q != ".."
    ensures var base := "/" + Implode("/", bs);
      var segs := NonEmpty(Pieces(parts));
      JoinWithBase(base, parts) == if segs == [] then base else base + "/" + Implode("/", segs)
  {
    var base := "/" + Implode("/", bs);
    var segs := NonEmpty(Pieces(parts));
    BasePieces(bs, parts);
    JoinAbsolute([base] + parts);
    if segs == [] {
      assert bs + segs == bs;
    } else {
      ImplodeConcat(bs, segs);
    }
  }

  /** A canonical absolute base: a root, then plain segments. */
  lemma SplitBase(bs: seq<string>)
    requires bs != [] && forall b :: b in bs ==> PlainSegment(b)
    ensures var base := "/" + Implode("/", bs);
      base[0] == '/' && '\\' !in base && Split(base) == [""] + bs
  {
    ImplodeKeepsOut(bs, '\\');
    SplitOfImplode(bs);
  }

  /** The pieces of a canonical absolute base followed by the parts. */
  lemma BasePieces(bs: seq<string>, parts: seq<string>)
    requires bs != [] && forall b :: b in bs ==> PlainSegment(b)
    requires forall p :: p in parts ==> '\\' !in p
    requires forall q :: q in Pieces(parts) ==> q != "." && q != ".."
    ensures var all := ["/" + Implode("/", bs)] + parts;
      && all[0] != [] && all[0][0] == '/'
      && (forall p :: p in all ==> '\\' !in p)
      && NonEmpty(Pieces(all)) == bs + NonEmpty(Pieces(parts))
      && forall q :: q in Pieces(all) ==> q != "." && q != ".."
  {
    var base := "/" + Implode("/", bs);
    var all := [base] + parts;
    SplitBase(bs);
    assert all[0] == base && all[1..] == parts;
    assert Pieces(all) == ([""] + bs) + Pieces(parts);
    BaseNonEmpty(bs, Pieces(parts));
    forall p | p in all ensures '\\' !in p {
      if p != base { assert p in parts; }
    }
  }

  lemma BaseNonEmpty(bs: seq<string>, rest: seq<string>)
    requires forall b :: b in bs ==> b != ""
    ensures NonEmpty(([""] + bs) + rest) == bs + NonEmpty(rest)
  {
    var x := [""] + bs;
    NonEmptyAppend(x, rest);
    assert x != [] && x[0] == "" && x[1..] == bs;
    assert NonEmpty(x) == [] + NonEmpty(bs);
    NonEmptyOfNonEmpty(bs);
    assert [] + bs == bs;
  }

  /** A name that canonicalisation keeps as it is. */
  predicate PlainSegment(name: string) {
    name != "" && name != "." && name != ".." && '/' !in name && '\\' !in name
  }

  lemma {:induction false} MapBackslashesAppend(x: string, y: string)
    ensures MapBackslashes(x + y) == MapBackslashes(x) + MapBackslashes(y)
  {
    if x != [] {
      assert (x + y)[1..] == x[1..] + y;
      MapBackslashesAppend(x[1..], y);
    } else {
      assert x + y == y;
    }
  }

  lemma {:induction false} MapBackslashesPlain(s: string)
    requires '\\' !in s
    ensures MapBackslashes(s) == s
  {
    if s != [] {
      MapBackslashesPlain(s[1..]);
      assert [s[0]] + s[1..] == s;
    }
  }

  /** Appending a plain segment appends it to the canonical segments. */
  lemma CanonicalPartsAppend(absolute: bool, pre: seq<string>, name: string)
    requires PlainSegment(name)
    ensures CanonicalParts(absolute, pre + [name]) == CanonicalParts(absolute, pre) + [name]
  {
    assert (pre + [name])[..|pre + [name]| - 1] == pre;
  }

  /** The canonical form of a path whose last piece is a plain `name` ends with that segment. */
  lemma CanonicalRestLast(absolute: bool, rest: string, v: string, name: string)
    requires PlainSegment(name)
    requires rest == name || rest == v + "/" + name
    ensures var s := Implode("/", CanonicalParts(absolute, Split(rest)));
      s == name || exists u :: s == u + "/" + name
  {
    SplitPlain(name);
    var pre := if rest == name then [] else Split(v);
    if rest == name {
      assert Split(rest) == pre + [name];
    } else {
      SplitAround(v, name);
    }
    CanonicalPartsAppend(absolute, pre, name);
    var cp0 := CanonicalParts(absolute, pre);
    if cp0 != [] {
      ImplodeAppend(cp0, name);
    }
  }

  /** Canonicalising `w/name` ends with the segment `name`. */
  lemma CanonicalizeLast(w: string, name: string)
    requires PlainSegment(name)
    ensures var r := Canonicalize(w + "/" + name);
      r == name || r == "/" + name || exists u :: r == u + "/" + name
  {
    var path := w + "/" + name;
    MapBackslashesAppend(w + "/", name);
    MapBackslashesAppend(w, "/");
    MapBackslashesPlain(name);
    var mw := MapBackslashes(w);
    var p := MapBackslashes(path);
    assert p == mw + "/" + name;
    var absolute := p[0] == '/';
    var rest := if absolute then p[1..] else p;
    var v := if absolute && mw != [] then mw[1..] else mw;
    if absolute && mw == [] {
      assert rest == name;
    } else {
      assert rest == v + "/" + name;
    }
    CanonicalRestLast(absolute, rest, v, name);
    var root := if absolute then "/" else "";
    var s := Implode("/", CanonicalParts(absolute, Split(rest)));
    AssembleLast(root, s, name);
    assert Canonicalize(path) == root + s;
  }

  lemma AssembleLast(root: string, s: string, name: string)
    requires root == "" || root == "/"
    requires s == name || exists u :: s == u + "/" + name
    ensures root + s == name || root + s == "/" + name || exists u :: root + s == u + "/" + name
  {
    if s != name {
      var u :| s == u + "/" + name;
      assert root + s == (root + u) + "/" + name;
    }
  }

  lemma {:induction false} ImplodeAppend(parts: seq<string>, last: string)
    requires parts != []
    ensures Implode("/", parts + [last]) == Implode("/", parts) + "/" + last
  {
    if |parts| > 1 {
      assert (parts + [last])[1..] == parts[1..] + [last];
      ImplodeAppend(parts[1..], last);
    }
  }

  /** The base name of `u/name`, or of `name` itself, is `name`. */
  lemma BasenameOfLast(u: string, name: string)
    requires name != "" && '/' !in name
    requires u == "" || u[|u| - 1] == '/'
    ensures Basename(u + name) == name
  {
    var s := u + name;
    assert s[|s| - 1] == name[|name| - 1];
    assert name[|name| - 1] in name;
    assert TrimRight(s, {'/'}) == s;
    LastIndexOfSpec(s, '/');
    var i := LastIndexOf(s, '/');
    forall j | |u| <= j < |s| ensures s[j] != '/' { assert s[j] == name[j - |u|]; assert s[j] in name; }
    if u == "" {
      assert '/' !in s;
    } else {
      assert s[|u| - 1] == '/';
      assert i == |u| - 1;
      assert s[i + 1..] == name;
    }
  }

  /** A plain name joined onto a folder is the last component: its base name is that name. */
  lemma JoinedBasename(folder: string, name: string)
    requires PlainSegment(name)
    ensures Basename(Join([folder, name])) == name
  {
    var x := CollapseSlashes(folder + "/");
    assert Implode("/", [folder, name]) == (folder + "/") + name;
    CollapseAppend(folder + "/", name);
    CollapsePlain(name);
    CollapseSlashesSpec(folder + "/");
    assert x[|x| - 1] == '/';
    var w := x[..|x| - 1];
    assert x == w + "/";
    assert Join([folder, name]) == Canonicalize(w + "/" + name);
    CanonicalizeLast(w, name);
    var r := Canonicalize(w + "/" + name);
    if r == name {
      BasenameOfLast("", name);
      assert "" + name == name;
    } else if r == "/" + name {
      BasenameOfLast("/", name);
    } else {
      var u :| r == u + "/" + name;
      BasenameOfLast(u + "/", name);
    }
  }

  /** `str_replace($needle, $by, $s)`: left-to-right, non-overlapping; an empty needle changes nothing. */
  function ReplaceAll(s: string, needle: string, replacement: string): string
    decreases |s|
  {
    if needle == [] || s == [] then s
    else if StartsWith(s, needle) then replacement + ReplaceAll(s[|needle|..], needle, replacement)
    else [s[0]] + ReplaceAll(s[1..], needle, replacement)
  }

  /** Replacing a needle that does not occur changes nothing. */
  lemma {:induction false} ReplaceAbsent(s: string, needle: string, replacement: string)
    requires !Contains(s, needle)
    ensures ReplaceAll(s, needle, replacement) == s
  {
    if needle != [] && s != [] {
      ReplaceAbsent(s[1..], needle, replacement);
    }
  }

  /** Deleting occurrences never lengthens the string. */
  lemma {:induction false} ReplaceByNothingShortens(s: string, needle: string)
    ensures |ReplaceAll(s, needle, "")| <= |s|
    ensures needle != [] && Contains(s, needle) ==> |ReplaceAll(s, needle, "")| <= |s| - |needle|
  {
    if needle != [] && s != [] {
      if StartsWith(s, needle) {
        ReplaceByNothingShortens(s[|needle|..], needle);
      } else {
        ReplaceByNothingShortens(s[1..], needle);
      }
    }
  }

  /** `Path::remove`: every occurrence of the left-trimmed `toRemove` is deleted, then leading slashes. */
  function Remove(path: string, toRemove: string): string {
    TrimLeft(ReplaceAll(path, TrimLeft(toRemove, {'/'}), ""), {'/'})
  }

  function RemoveBase(base: string, absolutePath: string): string {
    Remove(absolutePath, base)
  }

  /** The result of `remove` never starts with a slash. */
  lemma RemoveNoLeadingSlash(path: string, toRemove: string)
    ensures var r := Remove(path, toRemove); r == "" || r[0] != '/'
  {
    TrimLeftSpec(ReplaceAll(path, TrimLeft(toRemove, {'/'}), ""), {'/'});
  }

  /**
   * Removing the base `/b` from `/b/rel` gives `rel`, and from `/b` itself gives "", when `rel`
   * does not contain `b` again.
   */
  lemma RemoveBaseOfChild(b: string, rel: string)
    requires b != "" && b[0] != '/'
    requires !Contains(rel, b) && (rel == "" || rel[0] != '/')
    ensures RemoveBase("/" + b, "/" + b + "/" + rel) == rel
    ensures RemoveBase("/" + b, "/" + b) == ""
  {
    assert TrimLeft("/" + b, {'/'}) == b by { assert ("/" + b)[1..] == b; }
    ReplaceAbsent(rel, b, "");
    ReplaceInChild(b, rel);
    TrimTwoSlashes(rel);
    var t := "/" + b;
    assert !StartsWith(t, b) && t[1..] == b && StartsWith(t[1..], b) && t[1..][|b|..] == "";
    assert ReplaceAll(t[1..], b, "") == "";
    assert ReplaceAll(t, b, "") == "/";
    assert TrimLeft("/", {'/'}) == "";
  }

  lemma ReplaceInChild(b: string, rel: string)
    requires b != "" && b[0] != '/'
    requires ReplaceAll(rel, b, "") == rel
    ensures ReplaceAll("/" + b + "/" + rel, b, "") == "//" + rel
  {
    var x := "/" + rel;
    var y := b + x;
    var z := "/" + y;
    assert x[1..] == rel && x[0] == '/';
    assert z[1..] == y && z[0] == '/';
    ReplaceChain(b, rel, x, y, z);
    assert z == "/" + b + "/" + rel;
  }

  lemma ReplaceChain(b: string, rel: string, x: string, y: string, z: string)
    requires b != "" && b[0] != '/'
    requires ReplaceAll(rel, b, "") == rel
    requires x != [] && x[0] == '/' && x[1..] == rel
    requires y == b + x
    requires z != [] && z[0] == '/' && z[1..] == y
    ensures ReplaceAll(z, b, "") == "//" + rel
  {
    ReplaceSkipsSlash(x, b);
    ReplaceHit(b, x);
    ReplaceSkipsSlash(z, b);
  }

  /** A needle that does not start with '/' is not found at a leading '/'. */
  lemma ReplaceSkipsSlash(s: string, needle: string)
    requires needle != [] && needle[0] != '/' && s != [] && s[0] == '/'
    ensures ReplaceAll(s, needle, "") == [s[0]] + ReplaceAll(s[1..], needle, "")
  {
    assert !StartsWith(s, needle) by {
      if |needle| <= |s| { assert s[..|needle|][0] == '/'; }
    }
  }

  /** A needle found at the front is deleted. */
  lemma ReplaceHit(needle: string, t: string)
    requires needle != []
    ensures ReplaceAll(needle + t, needle, "") == ReplaceAll(t, needle, "")
  {
    assert StartsWith(needle + t, needle) by { assert (needle + t)[..|needle|] == needle; }
    assert (needle + t)[|needle|..] == t;
  }

  lemma TrimTwoSlashes(rel: string)
    requires rel == "" || rel[0] != '/'
    ensures TrimLeft("//" + rel, {'/'}) == rel
  {
    assert ("//" + rel)[1..] == "/" + rel;
    assert ("/" + rel)[1..] == rel;
    assert TrimLeft("//" + rel, {'/'}) == TrimLeft("/" + rel, {'/'});
    assert TrimLeft("/" + rel, {'/'}) == TrimLeft(rel, {'/'});
  }

  /** `removeExtension`: `preg_replace('/\.[^.]*$/', '', $name)` cuts from the last '.' to the end. */
  function RemoveExtension(name: string): string {
    var i := LastIndexOf(name, '.');
    if 0 <= i <= |name| then name[..i] else name
  }

  lemma RemoveExtensionSpec(name: string)
    ensures var r := RemoveExtension(name);
      && r == name[..|r|]
      && ('.' !in name ==> r == name)
      && ('.' in name ==> |r| < |name| && name[|r|] == '.' && '.' !in name[|r| + 1..])
  {
    LastIndexOfSpec(name, '.');
  }

  /** Only the last extension goes: `stem.ext` becomes `stem` whatever dots `stem` holds. */
  lemma RemoveLastExtension(stem: string, ext: string)
    requires '.' !in ext
    ensures RemoveExtension(stem + "." + ext) == stem
  {
    var name := stem + "." + ext;
    LastIndexOfSpec(name, '.');
    var i := LastIndexOf(name, '.');
    assert name[|stem|] == '.';
    forall j | |stem| < j < |name| ensures name[j] != '.' {
      assert name[j] == ext[j - |stem| - 1];
      assert name[j] in ext;
    }
    assert name[..|stem|] == stem;
  }

  lemma RemoveExtensionExamples()
    ensures RemoveExtension("my_file.php") == "my_file"
    ensures RemoveExtension("readme.") == "readme"
    ensures RemoveExtension("readme") == "readme"
  {
    RemoveLastExtension("my_file", "php");
    assert "my_file" + "." + "php" == "my_file.php";
    RemoveLastExtension("readme", "");
    assert "readme" + "." + "" == "readme.";
    RemoveExtensionSpec("readme");
  }

  lemma RemoveExtensionDottedExamples()
    ensures RemoveExtension("a.b.c.d.file.php") == "a.b.c.d.file"
    ensures RemoveExtension("a.b.c.d.file.7z") == "a.b.c.d.file"
    ensures RemoveExtension("readme.archive") == "readme"
  {
    RemoveLastExtension("a.b.c.d.file", "php");
    assert "a.b.c.d.file" + "." + "php" == "a.b.c.d.file.php";
    RemoveLastExtension("a.b.c.d.file", "7z");
    assert "a.b.c.d.file" + "." + "7z" == "a.b.c.d.file.7z";
    RemoveLastExtension("readme", "archive");
    assert "readme" + "." + "archive" == "readme.archive";
  }

  /** The unit `formatBytes` chooses: megabytes above 10^6 bytes, kilobytes above 1000. */
  datatype SizeUnit = MB | KB | Bytes

  function SizeUnitOf(bytes: int): (u: SizeUnit)
    ensures u == MB <==> bytes > 1000000
    ensures u == KB <==> 1000 < bytes <= 1000000
    ensures u == Bytes <==> bytes <= 1000
  {
    if bytes > 1000 * 1000 then MB else if bytes > 1000 then KB else Bytes
  }

  /** PHP's `round($n / $d, 2)` for non-negative integers, in hundredths: half away from zero. */
  function RoundHundredths(n: nat, d: nat): nat
    requires d > 0
  {
    (200 * n + d) / (2 * d)
  }

  /** PHP prints a float with two decimals without trailing zeros. */
  function HundredthsToString(h: nat): string {
    var whole := NatToString(h / 100);
    var frac := h % 100;
    if frac == 0 then whole
    else if frac % 10 == 0 then whole + "." + [DigitChar(frac / 10)]
    else whole + "." + [DigitChar(frac / 10), DigitChar(frac % 10)]
  }

  /** `formatBytes` */
  function FormatBytes(bytes: int): string {
    match SizeUnitOf(bytes)
    case MB => HundredthsToString(RoundHundredths(bytes, 1000000)) + " MB"
    case KB => HundredthsToString(RoundHundredths(bytes, 1000)) + " KB"
    case Bytes => IntToString(bytes) + " B"
  }

  /** The rounded value is the closest hundredth, ties going up. */
  lemma RoundHundredthsNearest(n: nat, d: nat)
    requires d > 0
    ensures var h := RoundHundredths(n, d);
      2 * d * h <= 200 * n + d < 2 * d * (h + 1)
  {
  }

  /** At most 1000 bytes are printed exactly, with the unit " B". */
  lemma FormatSmall(bytes: int)
    requires bytes <= 1000
    ensures FormatBytes(bytes) == IntToString(bytes) + " B"
  {
  }

  function PrettifyRun(s: string, inRun: bool): string {
    if s == [] then []
    else if 'a' <= s[0] <= 'z' || IsDigit(s[0]) then [s[0]] + PrettifyRun(s[1..], false)
    else if inRun then PrettifyRun(s[1..], true)
    else "-" + PrettifyRun(s[1..], true)
  }

  /** `prettifyFilename`: lower-case, then each run of characters outside [a-z0-9] becomes one '-'. */
  function PrettifyFilename(filename: string): string {
    PrettifyRun(Lower(filename), false)
  }

  predicate SlugChar(c: char) { 'a' <= c <= 'z' || IsDigit(c) || c == '-' }

  /** Every character is in [a-z0-9-] and no two dashes are adjacent. */
  predicate IsSlug(r: string) {
    && (forall i :: 0 <= i < |r| ==> SlugChar(r[i]))
    && (forall i :: 0 <= i < |r| - 1 ==> !(r[i] == '-' && r[i + 1] == '-'))
  }

  lemma {:induction false} PrettifyRunSpec(s: string, inRun: bool)
    ensures IsSlug(PrettifyRun(s, inRun))
    ensures inRun && PrettifyRun(s, inRun) != [] ==> PrettifyRun(s, inRun)[0] != '-'
  {
    if s != [] {
      var c := s[0];
      var word := 'a' <= c <= 'z' || IsDigit(c);
      PrettifyRunSpec(s[1..], !word);
      var t := PrettifyRun(s[1..], !word);
      if word || !inRun {
        var r := [if word then c else '-'] + t;
        assert PrettifyRun(s, inRun) == r;
        forall i | 0 <= i < |r| ensures SlugChar(r[i]) {
          if i > 0 { assert r[i] == t[i - 1]; }
        }
        forall i | 0 <= i < |r| - 1 ensures !(r[i] == '-' && r[i + 1] == '-') {
          if i > 0 { assert r[i] == t[i - 1] && r[i + 1] == t[i]; }
        }
      }
    }
  }

  lemma PrettifyFilenameSpec(filename: string)
    ensures IsSlug(PrettifyFilename(filename))
  {
    PrettifyRunSpec(Lower(filename), false);
    assert PrettifyFilename(filename) == PrettifyRun(Lower(filename), false);
  }

  /** `pathToDash`: every '/' becomes '-'. */
  function PathToDash(path: string): (r: string)
    ensures |r| == |path|
    ensures forall i :: 0 <= i < |path| ==> r[i] == (if path[i] == '/' then '-' else path[i])
  {
    if path == [] then [] else [if path[0] == '/' then '-' else path[0]] + PathToDash(path[1..])
  }

  lemma PathToDashNoSlash(path: string)
    ensures '/' !in PathToDash(path)
  {
    var r := PathToDash(path);
    forall i | 0 <= i < |r| ensures r[i] != '/' { }
  }
}
