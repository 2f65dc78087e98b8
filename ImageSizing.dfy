/**
 * `ImageSizing`: the size a source image of `width` x `height` is scaled to so that it covers,
 * or fits inside, a target box. Scale factors are exact rationals.
 */
module ImageSizing {
  import opened Wrappers
  import opened PhpMath

  datatype Size = Size(w: int, h: int)

  datatype ImageSizing = ImageSizing(width: int, height: int) {

    /** `getWidthAndHeightToCover`: scaled by the larger of the two factors and rounded up. */
    function Cover(w: int, h: int): Result<Size> {
      if width == 0 || height == 0 then Failure(Exception(DivisionByZeroError, "Division by zero"))
      else
        var scaleWidth := w as real / width as real;
        var scaleHeight := h as real / height as real;
        var scale := if scaleWidth >= scaleHeight then scaleWidth else scaleHeight;
        Success(Size(Ceil(scale * width as real), Ceil(scale * height as real)))
    }

    /** `getWidthAndHeightToFit`: scaled by the smaller of the two factors and rounded up. */
    function Fit(w: int, h: int): Result<Size> {
      if width == 0 || height == 0 then Failure(Exception(DivisionByZeroError, "Division by zero"))
      else
        var scaleWidth := w as real / width as real;
        var scaleHeight := h as real / height as real;
        var scale := if scaleWidth <= scaleHeight then scaleWidth else scaleHeight;
        Success(Size(Ceil(scale * width as real), Ceil(scale * height as real)))
    }
  }

  /** Scaling a side by the factor that takes it to `t` gives `t`; by a factor at least as large, at least `t`. */
  lemma Scaled(t: int, side: int, scale: real)
    requires side > 0
    ensures scale == t as real / side as real ==> Ceil(scale * side as real) == t
    ensures scale >= t as real / side as real ==> Ceil(scale * side as real) >= t
    ensures scale <= t as real / side as real ==> Ceil(scale * side as real) <= t
  {
    var f := t as real / side as real;
    assert f * side as real == t as real;
    if scale >= f {
      assert scale * side as real >= f * side as real;
    }
    if scale <= f {
      assert scale * side as real <= f * side as real;
    }
    CeilSpec(scale * side as real);
  }

  /** A source without width or height divides by zero. */
  lemma ZeroSideFails(s: ImageSizing, w: int, h: int)
    ensures s.Cover(w, h).Failure? <==> s.width == 0 || s.height == 0
    ensures s.Fit(w, h).Failure? <==> s.width == 0 || s.height == 0
  {
  }

  /**
   * For a source of positive size, the cover size is at least the target on both sides and is
   * the target exactly on the side whose factor was chosen.
   */
  lemma CoverCovers(s: ImageSizing, w: int, h: int)
    requires s.width > 0 && s.height > 0
    ensures var r := s.Cover(w, h).value;
      && r.w >= w && r.h >= h
      && (w as real / s.width as real >= h as real / s.height as real ==> r.w == w)
      && (w as real / s.width as real <= h as real / s.height as real ==> r.h == h)
  {
    var sw := w as real / s.width as real;
    var sh := h as real / s.height as real;
    var scale := if sw >= sh then sw else sh;
    Scaled(w, s.width, scale);
    Scaled(h, s.height, scale);
  }

  /**
   * For a source of positive size, the fit size is at most the target on both sides and is the
   * target exactly on the side whose factor was chosen.
   */
  lemma FitFits(s: ImageSizing, w: int, h: int)
    requires s.width > 0 && s.height > 0
    ensures var r := s.Fit(w, h).value;
      && r.w <= w && r.h <= h
      && (w as real / s.width as real <= h as real / s.height as real ==> r.w == w)
      && (w as real / s.width as real >= h as real / s.height as real ==> r.h == h)
  {
    var sw := w as real / s.width as real;
    var sh := h as real / s.height as real;
    var scale := if sw <= sh then sw else sh;
    Scaled(w, s.width, scale);
    Scaled(h, s.height, scale);
  }

  /** A source already of the target size is left at that size by both. */
  lemma SameSizeUnchanged(w: int, h: int)
    requires w > 0 && h > 0
    ensures ImageSizing(w, h).Cover(w, h) == Success(Size(w, h))
    ensures ImageSizing(w, h).Fit(w, h) == Success(Size(w, h))
  {
    assert w as real / w as real == 1.0 == h as real / h as real;
    CoverCovers(ImageSizing(w, h), w, h);
    FitFits(ImageSizing(w, h), w, h);
  }
}
