/**
 * The dot-pagination scrollbar: a column of at most 18 dots, of which the one for the current
 * image's page is drawn with a border instead of a fill.
 */
module VerticalDotScrollbar {
  import opened Wrappers
  import opened PhpArray
  import opened PhpMath

  const DotDiameter := 8
  const Height := 300
  const YPadding := 10
  const Width := 30

  /** `floor($height / ($dotDiameter + 8))` */
  function MaxNumberOfDots(): int {
    Floor(Height as real / (DotDiameter + 8) as real)
  }

  lemma MaxNumberOfDotsIs18()
    ensures MaxNumberOfDots() == 18
  {
    assert 18.0 <= Height as real / (DotDiameter + 8) as real < 19.0;
  }

  function NumberOfDots(count: nat): int {
    if count < MaxNumberOfDots() then count else MaxNumberOfDots()
  }

  /** One dot as drawn: centre, radius, and whether it is the active (bordered) one. */
  datatype Dot = Dot(x: int, y: int, radius: int, active: bool)

  /** The gap between two dots; one dot leaves no gap to divide the free space by. */
  function SingleSpace(dots: int): Result<int> {
    var spaces := dots - 1;
    var totalSpace := Height - dots * DotDiameter;
    if spaces == 0 then Failure(Exception(DivisionByZeroError, "Division by zero"))
    else Success(Floor(totalSpace as real / spaces as real))
  }

  /** `(int) max(round($totalFiles / $numberOfDots), 1)` */
  function ItemsPerPage(total: nat, dots: int): Result<int> {
    if dots == 0 then Failure(Exception(DivisionByZeroError, "Division by zero"))
    else
      var perPage := Round(total as real / dots as real);
      Success(if perPage < 1 then 1 else perPage)
  }

  function DotAt(x: int, singleSpace: int, currentPage: int): Dot {
    Dot(Width / 2, YPadding + x * DotDiameter + x * singleSpace, DotDiameter / 2, x == currentPage)
  }

  /** The page of the current image, or the division by zero that stops the drawing. */
  function CurrentPage(files: seq<string>, currentFile: string): Result<int> {
    match ItemsPerPage(|files|, NumberOfDots(|files|))
    case Failure(e) => Failure(e)
    case Success(perPage) => Success(SearchIndex(files, currentFile) / perPage)
  }

  /** `getDotsScrollBar`: the dots drawn for `currentFile` of `files`, top to bottom. */
  method DotsScrollBar(files: seq<string>, currentFile: string) returns (r: Result<seq<Dot>>)
    ensures SingleSpace(NumberOfDots(|files|)).Failure? ==> r == Failure(SingleSpace(NumberOfDots(|files|)).error)
    ensures SingleSpace(NumberOfDots(|files|)).Success? && CurrentPage(files, currentFile).Failure? ==>
      r == Failure(CurrentPage(files, currentFile).error)
    ensures SingleSpace(NumberOfDots(|files|)).Success? && CurrentPage(files, currentFile).Success? ==>
      r.Success? && |r.value| == NumberOfDots(|files|)
      && forall x :: 0 <= x < |r.value| ==>
           r.value[x] == DotAt(x, SingleSpace(NumberOfDots(|files|)).value, CurrentPage(files, currentFile).value)
  {
    var dots := NumberOfDots(|files|);
    var space := SingleSpace(dots);
    if space.Failure? {
      return Failure(space.error);
    }
    var page := CurrentPage(files, currentFile);
    if page.Failure? {
      return Failure(page.error);
    }
    var drawn: seq<Dot> := [];
    for x := 0 to dots
      invariant |drawn| == x
      invariant forall k :: 0 <= k < x ==> drawn[k] == DotAt(k, space.value, page.value)
    {
      drawn := drawn + [DotAt(x, space.value, page.value)];
    }
    return Success(drawn);
  }

  /** The drawing fails, dividing by zero, exactly for a working set of at most one image. */
  lemma DotsFailExactly(files: seq<string>, currentFile: string)
    ensures (SingleSpace(NumberOfDots(|files|)).Success? && CurrentPage(files, currentFile).Success?) <==> |files| >= 2
    ensures SingleSpace(NumberOfDots(|files|)).Failure? ==> SingleSpace(NumberOfDots(|files|)).error.kind == DivisionByZeroError
    ensures CurrentPage(files, currentFile).Failure? ==> CurrentPage(files, currentFile).error.kind == DivisionByZeroError
  {
    MaxNumberOfDotsIs18();
  }

  /** There are as many dots as images, up to 18, and at least one image per page. */
  lemma PagesCover(files: seq<string>, currentFile: string)
    requires |files| >= 2
    ensures NumberOfDots(|files|) == if |files| < 18 then |files| else 18
    ensures ItemsPerPage(|files|, NumberOfDots(|files|)).value >= 1
    ensures 0 <= CurrentPage(files, currentFile).value <= SearchIndex(files, currentFile)
  {
    MaxNumberOfDotsIs18();
    var perPage := ItemsPerPage(|files|, NumberOfDots(|files|)).value;
    DivAtMost(SearchIndex(files, currentFile), perPage);
  }

  lemma DivAtMost(n: nat, d: int)
    requires d >= 1
    ensures 0 <= n / d <= n
  {
  }

  lemma MulStrict(a: int, b: int, s: int)
    requires a < b && s > 0
    ensures a * s < b * s
  {
  }

  lemma MulAtMost(a: int, b: int, s: int)
    requires 0 <= a <= b && s >= 0
    ensures 0 <= a * s <= b * s
  {
  }

  /** Exactly the dot whose index is the current page is active. */
  lemma ActiveDotIsCurrentPage(x: int, y: int, singleSpace: int, currentPage: int)
    ensures DotAt(x, singleSpace, currentPage).active <==> x == currentPage
    ensures DotAt(x, singleSpace, currentPage).active && DotAt(y, singleSpace, currentPage).active ==> x == y
  {
  }

  lemma {:induction false} GapNotNegative(dots: int)
    requires 2 <= dots <= 18
    ensures 0 <= SingleSpace(dots).value
    ensures (dots - 1) * SingleSpace(dots).value <= Height - dots * DotDiameter
  {
    var spaces := dots - 1;
    var totalSpace := Height - dots * DotDiameter;
    var s := SingleSpace(dots).value;
    assert s as real <= totalSpace as real / spaces as real;
    assert (s as real) * (spaces as real) <= totalSpace as real;
    assert s >= 0 by {
      assert 0.0 <= totalSpace as real / spaces as real;
      assert 0 as real <= totalSpace as real / spaces as real;
    }
  }

  /**
   * With two to eighteen dots the dots go strictly down the column and all of them, with their
   * radius, lie between the top padding and the canvas's bottom edge.
   */
  lemma {:induction false} DotsDescend(dots: int, a: int, b: int, currentPage: int)
    requires 2 <= dots <= 18 && 0 <= a < b < dots
    ensures DotAt(a, SingleSpace(dots).value, currentPage).y < DotAt(b, SingleSpace(dots).value, currentPage).y
    ensures YPadding <= DotAt(b, SingleSpace(dots).value, currentPage).y
    ensures DotAt(b, SingleSpace(dots).value, currentPage).y + DotDiameter / 2 <= Height + 2 * YPadding
  {
    GapNotNegative(dots);
    DotsDescendBy(dots, a, b, SingleSpace(dots).value, currentPage);
  }

  lemma DotsDescendBy(dots: int, a: int, b: int, s: int, currentPage: int)
    requires 0 <= a < b < dots && 0 <= s && (dots - 1) * s <= Height - dots * DotDiameter
    ensures DotAt(a, s, currentPage).y < DotAt(b, s, currentPage).y
    ensures YPadding <= DotAt(b, s, currentPage).y
    ensures DotAt(b, s, currentPage).y + DotDiameter / 2 <= Height + 2 * YPadding
  {
    var step := DotDiameter + s;
    DotRow(a, s);
    DotRow(b, s);
    DotRow(dots - 1, s);
    MulStrict(a, b, step);
    MulAtMost(b, dots - 1, step);
  }

  /** The y offset of dot x below the padding is x whole steps of a dot and a gap. */
  lemma DotRow(x: int, s: int)
    ensures x * DotDiameter + x * s == x * (DotDiameter + s)
  {
  }

  /**
   * A page can run past the last dot: with 19 to 26 images there is one image per page, so
   * from the 19th image on the current page has no dot and none is active.
   */
  lemma LastImagesHaveNoActiveDot(files: seq<string>, j: nat, x: int)
    requires forall a, b :: 0 <= a < b < |files| ==> files[a] != files[b]
    requires 18 < |files| < 27 && 18 <= j < |files|
    ensures CurrentPage(files, files[j]) == Success(j)
    ensures 0 <= x < NumberOfDots(|files|) ==> !DotAt(x, SingleSpace(NumberOfDots(|files|)).value, j).active
  {
    MaxNumberOfDotsIs18();
    var q := |files| as real / 18.0;
    assert 1.0 < q < 1.5;
    RoundSpec(q);
    SearchIndexListed(files, j);
  }

  /** `match` of the option position: the bar hangs from the top corner of that side. */
  function DotPlacement(position: string): (r: Result<string>)
    ensures position == "left" ==> r == Success("top-left")
    ensures position == "right" ==> r == Success("top-right")
    ensures position != "left" && position != "right" ==> r.Failure? && r.error.kind == RuntimeException
  {
    match position
    case "left" => Success("top-left")
    case "right" => Success("top-right")
    case _ => Failure(Exception(RuntimeException, ""))
  }
}
