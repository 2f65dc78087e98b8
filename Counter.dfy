/**
 * The counter post-process: every image of the working set gets a "current / total" counter,
 * either a simple text line or a circular one. The drawing itself is left to the image library;
 * the model records what is drawn, where and with which offsets.
 */
module Counter {
  import opened Wrappers
  import opened Text
  import opened PhpArray

  /** The options the counter reads; an offset is `None` when it is not set. */
  datatype Options = Options(
    position: string,
    offsetX: Option<int>,
    offsetY: Option<int>,
    variant: string,
    background: bool)

  const DefaultOffset := 40

  /** Positions at a side or corner, which get a horizontal default offset. */
  predicate HorizontalEdge(position: string) {
    position in {"top-left", "top-right", "bottom-left", "bottom-right", "left", "right"}
  }

  /** Positions at the top, bottom or a corner, which get a vertical default offset. */
  predicate VerticalEdge(position: string) {
    position in {"top-left", "top-right", "bottom-left", "bottom-right", "top", "bottom"}
  }

  /** `reProcessOptions`: unset offsets get their defaults from the position. */
  function ReProcessOptions(o: Options): Options {
    o.(offsetX := if o.offsetX.Some? then o.offsetX else Some(if HorizontalEdge(o.position) then DefaultOffset else 0),
       offsetY := if o.offsetY.Some? then o.offsetY else Some(if VerticalEdge(o.position) then DefaultOffset else 0))
  }

  /**
   * After re-processing both offsets are set; an explicit offset is kept; a default is 40 at an
   * edge the offset points away from and 0 otherwise; re-processing again changes nothing.
   */
  lemma ReProcessOptionsSpec(o: Options)
    ensures var r := ReProcessOptions(o);
      && r.offsetX.Some? && r.offsetY.Some?
      && r.position == o.position && r.variant == o.variant && r.background == o.background
      && (o.offsetX.Some? ==> r.offsetX == o.offsetX)
      && (o.offsetY.Some? ==> r.offsetY == o.offsetY)
      && (o.offsetX.None? ==> (r.offsetX.value == 40 <==> HorizontalEdge(o.position)) && r.offsetX.value in {0, 40})
      && (o.offsetY.None? ==> (r.offsetY.value == 40 <==> VerticalEdge(o.position)) && r.offsetY.value in {0, 40})
      && ReProcessOptions(r) == r
  {
  }

  /** The position on the canvas: the four `absolute-` positions become their plain ones. */
  function PlacementPosition(position: string): string {
    match position
    case "absolute-bottom-right" => "bottom-right"
    case "absolute-bottom-left" => "bottom-left"
    case "absolute-bottom" => "bottom"
    case "absolute-top" => "top"
    case _ => position
  }

  const AbsolutePositions: set<string> := {"absolute-bottom-right", "absolute-bottom-left", "absolute-bottom", "absolute-top"}

  /** Only the four `absolute-` names are rewritten, each to itself without the prefix. */
  lemma PlacementPositionSpec(position: string)
    ensures position !in AbsolutePositions ==> PlacementPosition(position) == position
    ensures position in AbsolutePositions ==> position == "absolute-" + PlacementPosition(position)
    ensures PlacementPosition(PlacementPosition(position)) == PlacementPosition(position)
  {
  }

  const SimpleWidth := 160
  const SimpleHeight := 60

  function Align(position: string): string {
    match position
    case "top-right" | "right" | "bottom-right" => "right"
    case "top-left" | "left" | "bottom-left" => "left"
    case _ => "center"
  }

  function Valign(position: string): string {
    match position
    case "top-right" | "top-left" | "top" => "top"
    case "bottom-right" | "bottom-left" | "bottom" => "bottom"
    case _ => "middle"
  }

  /** The text anchor's x on the 160-pixel counter. */
  function TextX(position: string): int {
    match position
    case "top-right" | "right" | "bottom-right" => SimpleWidth - 5
    case "top-left" | "left" | "bottom-left" => 5
    case _ => SimpleWidth / 2
  }

  /** The counter's x offset on its background: half the 30-pixel padding at a side. */
  function CounterX(position: string): int {
    match position
    case "top-right" | "right" | "bottom-right" | "top-left" | "left" | "bottom-left" => 30 / 2
    case _ => 0
  }

  /**
   * The text is anchored 5 pixels inside the edge it is aligned to, or in the middle; it is
   * offset on its background exactly when it is aligned to a side; a side or corner position
   * is exactly one with a horizontal default offset.
   */
  lemma AlignmentAgrees(position: string)
    ensures Align(position) == "right" ==> TextX(position) == SimpleWidth - 5
    ensures Align(position) == "left" ==> TextX(position) == 5
    ensures Align(position) == "center" ==> TextX(position) == SimpleWidth / 2
    ensures CounterX(position) != 0 <==> Align(position) != "center"
    ensures Align(position) != "center" <==> HorizontalEdge(position)
    ensures Valign(position) != "middle" <==> VerticalEdge(position)
  {
  }

  /** The simple counter's label `sprintf('%s / %s', $current, $total)`. */
  function Label(current: int, total: int): string {
    IntToString(current) + " / " + IntToString(total)
  }

  /** The circle's radius by the number of digits of the total. */
  function CircleRadius(total: nat): int {
    match |NatToString(total)|
    case 1 => 35
    case 2 => 46
    case 3 => 57
    case 4 => 69
    case 5 => 82
    case _ => 75
  }

  lemma {:induction false} DigitCount(n: nat)
    ensures var d := |NatToString(n)|;
      && (n < 10 <==> d == 1)
      && (10 <= n < 100 <==> d == 2)
      && (100 <= n < 1000 <==> d == 3)
      && (1000 <= n < 10000 <==> d == 4)
      && (10000 <= n < 100000 <==> d == 5)
      && (100000 <= n <==> d >= 6)
  {
    if n >= 10 {
      DigitCount(n / 10);
    }
  }

  /** The radius by the size of the total: 35 below 10, then 46, 57, 69, 82, and 75 from 100000. */
  lemma CircleRadiusByTotal(total: nat)
    ensures total < 10 ==> CircleRadius(total) == 35
    ensures 10 <= total < 100 ==> CircleRadius(total) == 46
    ensures 100 <= total < 1000 ==> CircleRadius(total) == 57
    ensures 1000 <= total < 10000 ==> CircleRadius(total) == 69
    ensures 10000 <= total < 100000 ==> CircleRadius(total) == 82
    ensures 100000 <= total ==> CircleRadius(total) == 75
  {
    DigitCount(total);
  }

  /**
   * A counter as drawn. A simple counter with a background is sized from a copy whose current
   * number is the total, so that every background in the set is equally wide.
   */
  datatype CounterImage =
    | SimpleCounter(text: string, align: string, valign: string, x: int, sizingLabel: Option<string>, counterX: int)
    | CircularCounter(current: string, total: string, radius: int)

  /** One placement on an image: the counter, where it goes, its offsets, and the saved path. */
  datatype Draw = Draw(counter: CounterImage, position: string, offsetX: int, offsetY: int, savePath: string)

  datatype Variant = Simple | Circular

  /** The variant switch of `getCounter`. */
  function VariantOf(name: string): (r: Result<Variant>)
    ensures r.Success? <==> name == "simple" || name == "circular"
    ensures r.Failure? ==> r.error == Exception(InvalidArgumentException, "unknown variant " + name)
  {
    if name == "simple" then Success(Simple)
    else if name == "circular" then Success(Circular)
    else Failure(Exception(InvalidArgumentException, "unknown variant " + name))
  }

  /** The counter of image `j` of the working set. */
  function CounterFor(files: seq<string>, o: Options, v: Variant, j: nat): CounterImage
    requires j < |files|
  {
    var total := |files|;
    var current := SearchIndex(files, files[j]) + 1;
    match v
    case Simple =>
      SimpleCounter(Label(current, total), Align(o.position), Valign(o.position), TextX(o.position),
        if o.background then Some(Label(total, total)) else None,
        if o.background then CounterX(o.position) else 0)
    case Circular =>
      CircularCounter(IntToString(current), IntToString(total), CircleRadius(total))
  }

  function DrawFor(files: seq<string>, o: Options, v: Variant, j: nat): Draw
    requires j < |files| && o.offsetX.Some? && o.offsetY.Some?
  {
    Draw(CounterFor(files, o, v, j), PlacementPosition(o.position), o.offsetX.value, o.offsetY.value, files[j])
  }

  /**
   * `processWorkset` after `reProcessOptions`: one counter per image, in order, saved over the
   * image itself (the counter does not stage). An unknown variant fails on the first image.
   */
  method ProcessWorkset(files: seq<string>, options: Options) returns (r: Result<seq<Draw>>)
    ensures var o := ReProcessOptions(options);
      && (files == [] ==> r == Success([]))
      && (files != [] && VariantOf(o.variant).Failure? ==> r == Failure(VariantOf(o.variant).error))
      && (VariantOf(o.variant).Success? ==>
           r.Success? && |r.value| == |files|
           && forall j :: 0 <= j < |files| ==> r.value[j] == DrawFor(files, o, VariantOf(o.variant).value, j))
  {
    var o := ReProcessOptions(options);
    var draws: seq<Draw> := [];
    var i := 0;
    while i < |files|
      invariant 0 <= i <= |files|
      invariant i > 0 ==> VariantOf(o.variant).Success?
      invariant |draws| == i
      invariant forall j :: 0 <= j < i ==> draws[j] == DrawFor(files, o, VariantOf(o.variant).value, j)
    {
      var v := VariantOf(o.variant);
      if v.Failure? {
        return Failure(v.error);
      }
      draws := draws + [DrawFor(files, o, v.value, i)];
      i := i + 1;
    }
    return Success(draws);
  }

  /**
   * For a working set without repeated paths, image `j` reads "j+1 / n": the counters number
   * the images in order from 1.
   */
  lemma LabelsCountUp(files: seq<string>, o: Options, j: nat)
    requires j < |files|
    requires forall a, b :: 0 <= a < b < |files| ==> files[a] != files[b]
    ensures CounterFor(files, o, Simple, j).text == Label(j + 1, |files|)
    ensures CounterFor(files, o, Circular, j).current == IntToString(j + 1)
  {
    SearchIndexListed(files, j);
  }

  /** Every counter's current number is between 1 and the total. */
  lemma CurrentInRange(files: seq<string>, j: nat)
    requires j < |files|
    ensures 1 <= SearchIndex(files, files[j]) + 1 <= |files|
  {
    SearchIndexListed(files, j);
  }
}
