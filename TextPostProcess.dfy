/**
 * The text post-process: every image gets its title written on a background strip. The title is
 * the rom's display name (or a port's title), optionally with bracketed groups removed, and cut
 * to what fits on the 560-pixel text canvas. Text measurement is a parameter (`width`), so the
 * truncation is proved for every font.
 */
module TextPostProcess {
  import opened Wrappers
  import opened Text
  import Path
  import PhpArray

  /** The characters PCRE's `\s` matches: space, tab, newline, vertical tab, form feed, carriage return. */
  const Space: set<char> := {' ', '\t', '\n', 11 as char, 12 as char, '\r'}
  const Openers: set<char> := {'(', '['}
  const Closers: set<char> := {')', ']'}

  /** The length of the run of `\s` that starts `s`. */
  function SpaceRun(s: string): (n: nat)
    ensures n <= |s|
  {
    if s != [] && s[0] in Space then 1 + SpaceRun(s[1..]) else 0
  }

  lemma {:induction false} SpaceRunSpec(s: string)
    ensures forall k :: 0 <= k < SpaceRun(s) ==> s[k] in Space
    ensures SpaceRun(s) < |s| ==> s[SpaceRun(s)] !in Space
  {
    if s != [] && s[0] in Space {
      SpaceRunSpec(s[1..]);
      assert forall k :: 0 < k < |s| ==> s[k] == s[1..][k - 1];
    }
  }

  /** The first closing bracket at or after `i`, unless a newline (which `.` does not match) comes first. */
  function CloserFrom(s: string, i: nat): (r: Option<nat>)
    ensures r.Some? ==> i <= r.value < |s| && s[r.value] in Closers
    decreases |s| - i
  {
    if i >= |s| then None
    else if s[i] in Closers then Some(i)
    else if s[i] == '\n' then None
    else CloserFrom(s, i + 1)
  }

  /**
   * The length of the match of `\s*[\(\[].*?[\)\]]\s*` that starts at the beginning of `s`:
   * spaces, an opening bracket, everything up to the first closing bracket on the same line,
   * that bracket, and the spaces after it.
   */
  function GroupAt(s: string): (r: Option<nat>)
    ensures r.Some? ==> 2 <= r.value <= |s|
  {
    var w := SpaceRun(s);
    if w < |s| && s[w] in Openers then
      match CloserFrom(s, w + 1)
      case None => None
      case Some(c) => Some(c + 1 + SpaceRun(s[c + 1..]))
    else None
  }

  /** `preg_replace` of the pattern by one space: the leftmost match is replaced, then the scan goes on after it. */
  function ReplaceGroups(s: string): string
    decreases |s|
  {
    if s == [] then ""
    else
      match GroupAt(s)
      case Some(n) => " " + ReplaceGroups(s[n..])
      case None => [s[0]] + ReplaceGroups(s[1..])
  }

  /** `trimBrackets` */
  function TrimBrackets(s: string): string {
    Trim(ReplaceGroups(s))
  }

  predicate NoOpener(s: string) {
    forall k :: 0 <= k < |s| ==> s[k] !in Openers
  }

  /** A title without opening brackets is only trimmed. */
  lemma {:induction false} NoBracketsOnlyTrimmed(s: string)
    requires NoOpener(s)
    ensures ReplaceGroups(s) == s
    ensures TrimBrackets(s) == Trim(s)
  {
    if s != [] {
      SpaceRunSpec(s);
      assert GroupAt(s).None?;
      assert NoOpener(s[1..]) by {
        assert forall k :: 0 <= k < |s| - 1 ==> s[1..][k] == s[k + 1];
      }
      NoBracketsOnlyTrimmed(s[1..]);
      assert s == [s[0]] + s[1..];
    }
  }

  /** No match starts inside text without opening brackets that does not end in a space. */
  lemma NoGroupInPlain(p: string, t: string)
    requires p != [] && NoOpener(p) && p[|p| - 1] !in Space
    ensures GroupAt(p + t).None?
  {
    var s := p + t;
    SpaceRunSpec(s);
    var w := SpaceRun(s);
    assert s[|p| - 1] == p[|p| - 1];
    assert w < |p|;
    assert s[w] == p[w];
  }

  /** Text without opening brackets that does not end in a space is copied, whatever follows it. */
  lemma {:induction false} PlainPrefixCopied(p: string, t: string)
    requires NoOpener(p) && (p == "" || p[|p| - 1] !in Space)
    ensures ReplaceGroups(p + t) == p + ReplaceGroups(t)
  {
    if p == [] {
      assert p + t == t;
    } else {
      var s := p + t;
      NoGroupInPlain(p, t);
      assert ReplaceGroups(s) == [s[0]] + ReplaceGroups(s[1..]);
      var p' := p[1..];
      assert NoOpener(p') by {
        assert forall k :: 0 <= k < |p'| ==> p'[k] == p[k + 1];
      }
      assert s[1..] == p' + t;
      if p' != [] {
        assert p'[|p'| - 1] == p[|p| - 1];
      }
      PlainPrefixCopied(p', t);
      assert p == [p[0]] + p';
      assert s[0] == p[0];
    }
  }

  /** The run of spaces that starts `s` ends at `w`. */
  lemma {:induction false} SpaceRunIs(s: string, w: nat)
    requires w <= |s| && (forall k :: 0 <= k < w ==> s[k] in Space) && (w == |s| || s[w] !in Space)
    ensures SpaceRun(s) == w
  {
    if w > 0 {
      assert forall k :: 0 <= k < w - 1 ==> s[1..][k] == s[k + 1];
      SpaceRunIs(s[1..], w - 1);
    }
  }

  lemma {:induction false} CloserAfter(s: string, i: nat, c: nat)
    requires i <= c < |s| && s[c] in Closers
    requires forall k :: i <= k < c ==> s[k] !in Closers && s[k] != '\n'
    ensures CloserFrom(s, i) == Some(c)
    decreases c - i
  {
    if i < c {
      CloserAfter(s, i + 1, c);
    }
  }

  /**
   * The pattern matches at the start of `s` up to `e` when `s` is spaces up to `w`, an opening
   * bracket at `w`, no closing bracket or newline up to a closing bracket at `c`, and spaces up
   * to `e`.
   */
  predicate GroupEndingAt(s: string, w: nat, c: nat, e: nat) {
    && w < c < e <= |s|
    && (forall k :: 0 <= k < w ==> s[k] in Space)
    && s[w] in Openers
    && (forall k :: w < k < c ==> s[k] !in Closers && s[k] != '\n')
    && s[c] in Closers
    && (forall k :: c < k < e ==> s[k] in Space)
    && (e == |s| || s[e] !in Space)
  }

  lemma GroupMatched(s: string, w: nat, c: nat, e: nat)
    requires GroupEndingAt(s, w, c, e)
    ensures GroupAt(s) == Some(e)
  {
    SpaceRunIs(s, w);
    CloserAfter(s, w + 1, c);
    var t := s[c + 1..];
    assert forall k :: 0 <= k < e - c - 1 ==> t[k] == s[c + 1 + k];
    assert e - c - 1 < |t| ==> t[e - c - 1] == s[e];
    SpaceRunIs(t, e - c - 1);
  }

  /**
   * A bracketed group with the spaces around it becomes a single space: text before it without
   * brackets is kept, and the scan goes on after the group.
   */
  lemma GroupBecomesSpace(p: string, s: string, w: nat, c: nat, e: nat)
    requires NoOpener(p) && (p == "" || p[|p| - 1] !in Space)
    requires GroupEndingAt(s, w, c, e)
    ensures ReplaceGroups(p + s) == p + " " + ReplaceGroups(s[e..])
  {
    PlainPrefixCopied(p, s);
    GroupMatched(s, w, c, e);
    GroupReplaced(s, e, s[e..]);
  }

  lemma GroupReplaced(t: string, n: nat, q: string)
    requires GroupAt(t) == Some(n) && n <= |t| && t[n..] == q
    ensures ReplaceGroups(t) == " " + ReplaceGroups(q)
  {
  }

  /** The trimmed title neither starts nor ends with a character `trim` strips. */
  lemma TrimBracketsTrimmed(s: string)
    ensures var r := TrimBrackets(s);
      r == "" || (r[0] !in TrimChars && r[|r| - 1] !in TrimChars)
  {
    var l := TrimLeft(ReplaceGroups(s), TrimChars);
    TrimLeftSpec(ReplaceGroups(s), TrimChars);
    TrimRightSpec(l, TrimChars);
  }

  /** The text canvas is 560 pixels wide; a text must leave 50 of them free. */
  const TextCanvasWidth := 560
  const MaxWidth := TextCanvasWidth - 50

  /** The loop tries prefixes of 1 to 99 characters. */
  const MaxPrefix := 99

  /** The three characters the truncation appends, as they are written in the source file. */
  const Ellipsis := "\U{E2}\U{20AC}\U{A6}"

  /** `substr($s, 0, $n)` */
  function Prefix(s: string, n: nat): (r: string)
    ensures r == s[..if n <= |s| then n else |s|]
  {
    if n <= |s| then s[..n] else s
  }

  predicate Overflows(width: string -> int, t: string) {
    width(t) > MaxWidth
  }

  /** The first counter from `c` to 99 whose prefix is too wide. */
  function FirstOverflow(text: string, width: string -> int, c: nat): (r: Option<nat>)
    ensures r.Some? ==> c <= r.value <= MaxPrefix
    decreases 100 - c
  {
    if c > MaxPrefix then None
    else if Overflows(width, Prefix(text, c)) then Some(c)
    else FirstOverflow(text, width, c + 1)
  }

  lemma {:induction false} FirstOverflowSpec(text: string, width: string -> int, c: nat)
    ensures var r := FirstOverflow(text, width, c);
      && (r.None? ==> forall n :: c <= n <= MaxPrefix ==> !Overflows(width, Prefix(text, n)))
      && (r.Some? ==> c <= r.value <= MaxPrefix && Overflows(width, Prefix(text, r.value))
                      && forall n :: c <= n < r.value ==> !Overflows(width, Prefix(text, n)))
    decreases 100 - c
  {
    if c <= MaxPrefix && !Overflows(width, Prefix(text, c)) {
      FirstOverflowSpec(text, width, c + 1);
    }
  }

  /** What the truncation loop leaves: the specification of `TruncateText`. */
  function Truncate(text: string, width: string -> int): string {
    match FirstOverflow(text, width, 1)
    case None => Prefix(text, MaxPrefix)
    case Some(k) => (if k == 1 then text else Prefix(text, k - 1)) + Ellipsis
  }

  /**
   * When no prefix of up to 99 characters is too wide the title is its first 99 characters;
   * otherwise it is the longest prefix before the first one that is too wide, followed by the
   * ellipsis; when already the first character is too wide, the whole title gets the ellipsis.
   */
  lemma TruncateSpec(text: string, width: string -> int)
    ensures (forall n :: 1 <= n <= MaxPrefix ==> !Overflows(width, Prefix(text, n))) ==>
      Truncate(text, width) == Prefix(text, MaxPrefix)
    ensures forall k ::
      (2 <= k <= MaxPrefix && Overflows(width, Prefix(text, k)) && (forall n :: 1 <= n < k ==> !Overflows(width, Prefix(text, n))))
      ==> Truncate(text, width) == Prefix(text, k - 1) + Ellipsis
    ensures Overflows(width, Prefix(text, 1)) ==> Truncate(text, width) == text + Ellipsis
  {
    FirstOverflowSpec(text, width, 1);
  }

  /** The truncation loop of `getTextImage`. */
  method TruncateText(text: string, width: string -> int) returns (r: string)
    ensures r == Truncate(text, width)
  {
    var counter := 1;
    var truncated := text;
    while counter < 100
      invariant 1 <= counter <= 100
      invariant FirstOverflow(text, width, 1) == FirstOverflow(text, width, counter)
      invariant truncated == if counter == 1 then text else Prefix(text, counter - 1)
    {
      var attempt := Prefix(text, counter);
      if width(attempt) > TextCanvasWidth - 50 {
        return truncated + Ellipsis;
      }
      truncated := attempt;
      counter := counter + 1;
    }
    return truncated;
  }

  /** `text_size` to a font size in points. */
  function FontSize(size: string): int {
    match size
    case "xxxs" => 4 * 4
    case "xxs" => 4 * 5
    case "xs" => 4 * 6
    case "s" => 4 * 7
    case "m" => 4 * 8
    case "l" => 4 * 9
    case "xl" => 4 * 10
    case "xxl" => 4 * 11
    case "xxxl" => 4 * 12
    case _ => 4 * 8
  }

  const Sizes: seq<string> := ["xxxs", "xxs", "xs", "s", "m", "l", "xl", "xxl", "xxxl"]

  /** The nine sizes go from 16 to 48 points in steps of 4; any other size is the medium 32. */
  lemma FontSizeSteps(size: string)
    ensures forall i :: 0 <= i < |Sizes| ==> FontSize(Sizes[i]) == 16 + 4 * i
    ensures size !in Sizes ==> FontSize(size) == 32
    ensures 16 <= FontSize(size) <= 48
  {
  }

  /** The options the text post-process reads; an absent alternative colour is `None`. */
  datatype Options = Options(
    position: string,
    textColor: string,
    textColorAlt: Option<string>,
    useTextColorAlt: bool,
    textBgColor: string,
    invert: bool,
    textSize: string,
    trimBrackets: bool)

  /** The text and background colours: the alternative when set and asked for, then swapped when inverted. */
  function Colours(o: Options): (string, string) {
    var text := if o.textColorAlt.Some? && Truthy(o.textColorAlt.value) && o.useTextColorAlt then o.textColorAlt.value else o.textColor;
    if o.invert then (o.textBgColor, text) else (text, o.textBgColor)
  }

  lemma ColoursSpec(o: Options)
    ensures var useAlt := o.textColorAlt.Some? && Truthy(o.textColorAlt.value) && o.useTextColorAlt;
      var text := if useAlt then o.textColorAlt.value else o.textColor;
      && (!o.invert ==> Colours(o) == (text, o.textBgColor))
      && (o.invert ==> Colours(o) == (o.textBgColor, text))
      && Colours(o.(invert := !o.invert)) == (Colours(o).1, Colours(o).0)
      && (!o.useTextColorAlt ==> Colours(o) == Colours(o.(textColorAlt := None)))
  {
  }

  /** Where the text strip is placed on the image: the anchor, then the x and y offsets. */
  function Placement(position: string): (string, int, int) {
    var anchor := match position
      case "center-bottom" | "center-top" => "center"
      case "bottom-left" | "top-left" => "left"
      case "bottom-right" | "top-right" => "right"
      case _ => position;
    var x := match position
      case "left" | "right" | "top-left" | "bottom-left" | "top-right" | "bottom-right" => 20
      case _ => 0;
    var y := match position
      case "center-top" | "top-left" | "top-right" => -130
      case "center-bottom" | "bottom-left" | "bottom-right" => 130
      case "bottom" | "top" => 50
      case _ => 0;
    (anchor, x, y)
  }

  /** The text's horizontal alignment on its canvas. */
  function TextHAlign(position: string): string {
    match position
    case "left" | "bottom-left" | "top-left" => "left"
    case "right" | "bottom-right" | "top-right" => "right"
    case _ => "center"
  }

  /** The text's anchor x on the text canvas. */
  function TextX(position: string): real {
    match position
    case "left" | "bottom-left" | "top-left" => 1.0
    case "right" | "bottom-right" | "top-right" => (TextCanvasWidth - 1) as real
    case _ => TextCanvasWidth as real / 2.0
  }

  const Corners: set<string> := {"center-bottom", "center-top", "bottom-left", "top-left", "bottom-right", "top-right"}

  /**
   * A strip is offset 20 pixels sideways exactly when its text is aligned to a side, and then
   * it is anchored 1 pixel from that side; corner positions are anchored at their side and
   * moved 130 pixels up or down from the middle; the other positions are their own anchor.
   */
  lemma PlacementAgrees(position: string)
    ensures Placement(position).1 == 20 <==> TextHAlign(position) != "center"
    ensures Placement(position).1 != 20 ==> Placement(position).1 == 0
    ensures TextHAlign(position) == "left" ==> TextX(position) == 1.0
    ensures TextHAlign(position) == "right" ==> TextX(position) == 559.0
    ensures TextHAlign(position) == "center" ==> TextX(position) == 280.0
    ensures position !in Corners ==> Placement(position).0 == position
    ensures position in Corners ==> Placement(position).0 in {"center", "left", "right"} && (Placement(position).2 == 130 || Placement(position).2 == -130)
    ensures Placement(position).2 < 0 <==> position in {"center-top", "top-left", "top-right"}
  {
  }

  const PortsFolder := "External - Ports"

  /**
   * The title of an image: the file name without its extension, replaced by its entry in the
   * names list when there is one; for an image two levels below the ports folder, the port's
   * title when the port metadata has one.
   */
  function Title(file: string, names: map<string, string>, portTitle: string -> Option<string>): string {
    var stem := Path.RemoveExtension(Basename(file));
    var title := if stem in names then names[stem] else stem;
    if Basename(Dirname(Dirname(file))) == PortsFolder && portTitle(title).Some? then portTitle(title).value else title
  }

  lemma TitleSpec(file: string, names: map<string, string>, portTitle: string -> Option<string>)
    ensures var stem := Path.RemoveExtension(Basename(file));
      && (Basename(Dirname(Dirname(file))) != PortsFolder ==>
           Title(file, names, portTitle) == if stem in names then names[stem] else stem)
      && (stem !in names && Basename(Dirname(Dirname(file))) != PortsFolder ==>
           Title(file, names, portTitle) == stem && stem == Basename(file)[..|stem|])
  {
    Path.RemoveExtensionSpec(Basename(file));
  }

  /** One text strip as drawn on one image, saved over the image itself. */
  datatype TextDraw = TextDraw(text: string, anchor: string, offsetX: int, offsetY: int,
                               textColor: string, bgColor: string, fontSize: int,
                               align: string, textX: real, savePath: string)

  /** The title after the optional bracket trim and the truncation. */
  function ShownTitle(file: string, o: Options, names: map<string, string>, portTitle: string -> Option<string>, width: string -> int): string {
    var title := Title(file, names, portTitle);
    Truncate(if o.trimBrackets then TrimBrackets(title) else title, width)
  }

  function TextDrawFor(file: string, o: Options, names: map<string, string>, portTitle: string -> Option<string>, width: string -> int): TextDraw {
    var place := Placement(o.position);
    var colours := Colours(o);
    TextDraw(ShownTitle(file, o, names, portTitle, width), place.0, place.1, place.2, colours.0, colours.1,
             FontSize(o.textSize), TextHAlign(o.position), TextX(o.position), file)
  }

  /** The strip drawn on one image: the shown title comes from the truncation loop. */
  method DrawImage(file: string, o: Options, names: map<string, string>,
                   portTitle: string -> Option<string>, width: string -> int) returns (d: TextDraw)
    ensures d == TextDrawFor(file, o, names, portTitle, width)
  {
    var title := Title(file, names, portTitle);
    var trimmed := if o.trimBrackets then TrimBrackets(title) else title;
    var shown := TruncateText(trimmed, width);
    var place := Placement(o.position);
    var colours := Colours(o);
    d := TextDraw(shown, place.0, place.1, place.2, colours.0, colours.1,
                  FontSize(o.textSize), TextHAlign(o.position), TextX(o.position), file);
  }

  /** `processWorkset`: one strip per image of the working set, in order. */
  method ProcessWorkset(files: seq<string>, o: Options, names: map<string, string>,
                        portTitle: string -> Option<string>, width: string -> int) returns (r: seq<TextDraw>)
    ensures |r| == |files|
    ensures forall j :: 0 <= j < |files| ==> r[j] == TextDrawFor(files[j], o, names, portTitle, width)
  {
    ghost var strip := file => TextDrawFor(file, o, names, portTitle, width);
    r := [];
    for i := 0 to |files|
      invariant |r| == i
      invariant forall j :: 0 <= j < i ==> r[j] == strip(files[j])
    {
      var d := DrawImage(files[i], o, names, portTitle, width);
      PhpArray.MapAppend(r, d, files, strip);
      r := r + [d];
    }
  }
}
