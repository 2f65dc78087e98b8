/**
 * The geometry of the vertical scrollbar post-process: a track as tall as the configured height
 * and a thumb whose top moves down the track with the image's position in the working set.
 * Coordinates are exact rationals; the drawing calls are recorded as rectangles and circles.
 */
module VerticalScrollbar {
  import opened Wrappers
  import opened PhpArray
  import opened PhpMath

  const TrackPaddingX := 2
  const TrackPaddingY := 3
  const OuterPadding := 1

  datatype Rect = Rect(x: real, y: real, w: real, h: real)
  datatype Circle = Circle(x: real, y: real, radius: real)

  /** The end caps of a rounded track or thumb: the top circle, then the bottom one. */
  datatype Caps = Caps(top: Circle, bottom: Circle)

  /** The scrollbar image: its canvas size, the track, the thumb, and their caps when rounded. */
  datatype Bar = Bar(canvasW: int, canvasH: int, track: Rect, trackCaps: Option<Caps>, thumb: Rect, thumbCaps: Option<Caps>)

  function ThumbWidth(width: int): int {
    width - 2 * TrackPaddingX
  }

  /** How far the thumb's top can travel. */
  function TrackRange(height: int, thumbHeight: int): int {
    height - thumbHeight - 2 * TrackPaddingY - 2 * OuterPadding
  }

  /** The thumb's top for the item at `pos` of `total`: one item leaves nothing to divide the range by. */
  function ThumbY(pos: int, total: int, trackRange: int): Result<int> {
    if total == 1 then Failure(Exception(DivisionByZeroError, "Division by zero"))
    else Success(Round(pos as real * (trackRange as real / (total - 1) as real)) + TrackPaddingY + OuterPadding)
  }

  /** `getBarScrollBar` for `currentFile` of `files`. */
  function BarScrollBar(files: seq<string>, currentFile: string, width: int, height: int, thumbHeight: int, rounded: bool): Result<Bar> {
    var total := |files|;
    var pos := SearchIndex(files, currentFile);
    var thumbWidth := ThumbWidth(width);
    match ThumbY(pos, total, TrackRange(height, thumbHeight))
    case Failure(e) => Failure(e)
    case Success(thumbY) =>
      var thumbX := OuterPadding as real + (width - thumbWidth) as real / 2.0;
      var edge := OuterPadding as real;
      var track :=
        if rounded then
          var r := width as real / 2.0;
          Rect(edge, edge + r, width as real, height as real - 2.0 * r)
        else Rect(edge, edge, width as real, height as real);
      var trackCaps :=
        if rounded then
          var r := width as real / 2.0;
          Some(Caps(Circle(edge + r, edge + r, r), Circle(edge + r, height as real - r - edge, r)))
        else None;
      var thumb :=
        if rounded then
          var r := thumbWidth as real / 2.0;
          Rect(thumbX, thumbY as real + r, thumbWidth as real, thumbHeight as real - 2.0 * r)
        else Rect(thumbX, thumbY as real, thumbWidth as real, thumbHeight as real);
      var thumbCaps :=
        if rounded then
          var r := thumbWidth as real / 2.0;
          Some(Caps(Circle(thumbX + r, thumbY as real + r, r), Circle(thumbX + r, thumbY as real + r + (thumbHeight as real - 2.0 * r), r)))
        else None;
      Success(Bar(width + 2 * OuterPadding, height + 2 * OuterPadding, track, trackCaps, thumb, thumbCaps))
  }

  /** The thumb position fails exactly for a working set of one image. */
  lemma ThumbYFails(pos: int, total: int, trackRange: int)
    ensures ThumbY(pos, total, trackRange).Failure? <==> total == 1
    ensures ThumbY(pos, total, trackRange).Failure? ==> ThumbY(pos, total, trackRange).error.kind == DivisionByZeroError
  {
  }

  /** The first image puts the thumb at the top of its range and the last one at the bottom. */
  lemma ThumbYEnds(total: int, trackRange: int)
    requires total >= 2
    ensures ThumbY(0, total, trackRange) == Success(TrackPaddingY + OuterPadding)
    ensures ThumbY(total - 1, total, trackRange) == Success(trackRange + TrackPaddingY + OuterPadding)
  {
    StepAtEnd(total, trackRange);
    RoundOfInt(trackRange);
    RoundOfInt(0);
  }

  /** Later images never put the thumb higher. */
  lemma ThumbYMonotone(p: int, q: int, total: int, trackRange: int)
    requires total >= 2 && trackRange >= 0 && 0 <= p <= q
    ensures ThumbY(p, total, trackRange).value <= ThumbY(q, total, trackRange).value
  {
    var step := trackRange as real / (total - 1) as real;
    StepAtEnd(total, trackRange);
    ScaleMonotone(p as real, q as real, step);
    RoundMonotone(p as real * step, q as real * step);
    assert ThumbY(p, total, trackRange).value == Round(p as real * step) + TrackPaddingY + OuterPadding;
    assert ThumbY(q, total, trackRange).value == Round(q as real * step) + TrackPaddingY + OuterPadding;
  }

  /** The thumb's top stays between the top and the bottom of its range. */
  lemma ThumbYInRange(p: int, total: int, trackRange: int)
    requires total >= 2 && trackRange >= 0 && 0 <= p <= total - 1
    ensures TrackPaddingY + OuterPadding <= ThumbY(p, total, trackRange).value <= trackRange + TrackPaddingY + OuterPadding
  {
    var step := trackRange as real / (total - 1) as real;
    StepAtEnd(total, trackRange);
    ScaleMonotone(0.0, p as real, step);
    ScaleMonotone(p as real, (total - 1) as real, step);
    RoundMonotone(0.0, p as real * step);
    RoundMonotone(p as real * step, trackRange as real);
    RoundOfInt(trackRange);
    RoundOfInt(0);
    assert ThumbY(p, total, trackRange).value == Round(p as real * step) + TrackPaddingY + OuterPadding;
  }

  lemma ScaleMonotone(a: real, b: real, s: real)
    requires a <= b && s >= 0.0
    ensures a * s <= b * s
  {
  }

  lemma StepAtEnd(total: int, trackRange: int)
    requires total >= 2
    ensures (total - 1) as real * (trackRange as real / (total - 1) as real) == trackRange as real
    ensures trackRange >= 0 ==> trackRange as real / (total - 1) as real >= 0.0
  {
  }

  /**
   * The canvas is the track plus the outer padding on every side; the thumb is 4 pixels narrower
   * than the track and centred in it; without rounding the track fills the padded canvas.
   */
  lemma BarLayout(files: seq<string>, currentFile: string, width: int, height: int, thumbHeight: int, rounded: bool)
    requires BarScrollBar(files, currentFile, width, height, thumbHeight, rounded).Success?
    ensures var b := BarScrollBar(files, currentFile, width, height, thumbHeight, rounded).value;
      && b.canvasW == width + 2 && b.canvasH == height + 2
      && b.thumb.w == (width - 4) as real && b.track.w == width as real
      && b.thumb.x - b.track.x == (b.track.x + b.track.w) - (b.thumb.x + b.thumb.w)
      && (!rounded ==> b.track == Rect(1.0, 1.0, width as real, height as real) && b.trackCaps.None? && b.thumbCaps.None?)
  {
  }

  /**
   * A rounded track is a rectangle shortened by its width, with caps of radius `width / 2`: the
   * top cap is centred on the rectangle's top edge, the bottom cap two pixels (twice the outer
   * padding) above its bottom edge. A rounded thumb keeps the thumb's vertical extent: its caps
   * sit on the ends of its shortened rectangle and reach exactly to the unrounded thumb's ends.
   */
  lemma RoundedShapes(files: seq<string>, currentFile: string, width: int, height: int, thumbHeight: int)
    requires BarScrollBar(files, currentFile, width, height, thumbHeight, true).Success?
    ensures var b := BarScrollBar(files, currentFile, width, height, thumbHeight, true).value;
      var plain := BarScrollBar(files, currentFile, width, height, thumbHeight, false).value;
      && b.trackCaps.Some? && b.thumbCaps.Some?
      && b.trackCaps.value.top.radius == width as real / 2.0 == b.trackCaps.value.bottom.radius
      && b.track.h == height as real - width as real
      && b.trackCaps.value.top.y == b.track.y
      && b.trackCaps.value.bottom.y == b.track.y + b.track.h - 2.0 * OuterPadding as real
      && b.trackCaps.value.top.y - b.trackCaps.value.top.radius == plain.track.y
      && b.thumbCaps.value.top.y == b.thumb.y
      && b.thumbCaps.value.bottom.y == b.thumb.y + b.thumb.h
      && b.thumbCaps.value.top.y - b.thumbCaps.value.top.radius == plain.thumb.y
      && b.thumbCaps.value.bottom.y + b.thumbCaps.value.bottom.radius == plain.thumb.y + plain.thumb.h
  {
  }

  /**
   * In a working set without repeated paths and with a track range of at least zero, the bar of
   * a later image never has its thumb above the bar of an earlier one.
   */
  lemma ThumbFollowsImage(files: seq<string>, i: nat, j: nat, width: int, height: int, thumbHeight: int)
    requires forall a, b :: 0 <= a < b < |files| ==> files[a] != files[b]
    requires i <= j < |files| && |files| >= 2 && TrackRange(height, thumbHeight) >= 0
    ensures BarScrollBar(files, files[i], width, height, thumbHeight, false).Success?
    ensures BarScrollBar(files, files[j], width, height, thumbHeight, false).Success?
    ensures BarScrollBar(files, files[i], width, height, thumbHeight, false).value.thumb.y
         <= BarScrollBar(files, files[j], width, height, thumbHeight, false).value.thumb.y
  {
    SearchIndexListed(files, i);
    SearchIndexListed(files, j);
    ThumbYMonotone(i, j, |files|, TrackRange(height, thumbHeight));
  }
}
