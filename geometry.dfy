/**
 * Layout geometry of the photo-plus-signature editor: the uniform fit ratio,
 * the share of the viewport a fresh drawing surface may take, and where a
 * signature overlay is placed on that surface.
 *
 * All quantities are exact `real`s; the rounding of JavaScript's 64-bit
 * floating-point numbers is not modelled.
 */
module Geometry {

  /** Share of the viewport's client width a fresh surface may use. */
  const WidthShare: real := 0.95
  /** Share of the viewport's client height a fresh surface may use. */
  const HeightShare: real := 0.9
  /** Damping applied to the fit ratio of a signature overlay. */
  const SignatureShare: real := 0.6

  /** The host document's client area, in whole display pixels. */
  datatype Viewport = Viewport(clientWidth: nat, clientHeight: nat)

  function MaxWidth(vp: Viewport): real {
    vp.clientWidth as real * WidthShare
  }

  function MaxHeight(vp: Viewport): real {
    vp.clientHeight as real * HeightShare
  }

  function Min(a: real, b: real): real {
    if a <= b then a else b
  }

  /**
   * The uniform scale that fits a `srcWidth` x `srcHeight` picture inside a
   * `maxWidth` x `maxHeight` box.
   */
  function CalculateRatio(srcWidth: real, srcHeight: real, maxWidth: real, maxHeight: real): real
    requires srcWidth > 0.0 && srcHeight > 0.0
  {
    Min(maxWidth / srcWidth, maxHeight / srcHeight)
  }

  /**
   * The picture scaled by the fit ratio never exceeds either bound of the
   * box and touches at least one of them.
   */
  lemma RatioFitsBox(srcWidth: real, srcHeight: real, maxWidth: real, maxHeight: real)
    requires srcWidth > 0.0 && srcHeight > 0.0
    ensures var r := CalculateRatio(srcWidth, srcHeight, maxWidth, maxHeight);
      && srcWidth * r <= maxWidth && srcHeight * r <= maxHeight
      && (srcWidth * r == maxWidth || srcHeight * r == maxHeight)
  {
    var r := CalculateRatio(srcWidth, srcHeight, maxWidth, maxHeight);
    assert srcWidth * (maxWidth / srcWidth) == maxWidth;
    assert srcHeight * (maxHeight / srcHeight) == maxHeight;
    if maxWidth / srcWidth <= maxHeight / srcHeight {
      assert srcHeight * r <= srcHeight * (maxHeight / srcHeight);
    } else {
      assert srcWidth * r <= srcWidth * (maxWidth / srcWidth);
    }
  }

  /** No scale larger than the fit ratio keeps the picture inside the box. */
  lemma RatioIsGreatestFit(srcWidth: real, srcHeight: real, maxWidth: real, maxHeight: real, t: real)
    requires srcWidth > 0.0 && srcHeight > 0.0
    requires srcWidth * t <= maxWidth && srcHeight * t <= maxHeight
    ensures t <= CalculateRatio(srcWidth, srcHeight, maxWidth, maxHeight)
  {
    var r := CalculateRatio(srcWidth, srcHeight, maxWidth, maxHeight);
    RatioFitsBox(srcWidth, srcHeight, maxWidth, maxHeight);
    if srcWidth * r == maxWidth {
      assert srcWidth * t <= srcWidth * r;
    } else {
      assert srcHeight * t <= srcHeight * r;
    }
  }

  /** A non-negative box gives a non-negative ratio. */
  lemma RatioNonNegative(srcWidth: real, srcHeight: real, maxWidth: real, maxHeight: real)
    requires srcWidth > 0.0 && srcHeight > 0.0
    requires maxWidth >= 0.0 && maxHeight >= 0.0
    ensures CalculateRatio(srcWidth, srcHeight, maxWidth, maxHeight) >= 0.0
  {
    RatioIsGreatestFit(srcWidth, srcHeight, maxWidth, maxHeight, 0.0);
  }

  /**
   * Fitting a picture into a box that is the picture itself scaled by `r`
   * gives back `r`: the ratio recomputed against a surface sized by `r`
   * is `r` again.
   */
  lemma RatioOfScaledBox(srcWidth: real, srcHeight: real, r: real)
    requires srcWidth > 0.0 && srcHeight > 0.0
    ensures CalculateRatio(srcWidth, srcHeight, srcWidth * r, srcHeight * r) == r
  {
    RatioIsGreatestFit(srcWidth, srcHeight, srcWidth * r, srcHeight * r, r);
  }

  /**
   * A fresh surface for a `w` x `h` photo, `w * r` by `h * r` with `r` the
   * fit ratio into 95% x 90% of the viewport, is non-negative, fits that
   * share of the viewport, fills it in at least one direction, and has the
   * photo's proportions.
   */
  lemma FreshSurfaceFits(w: nat, h: nat, vp: Viewport)
    requires w > 0 && h > 0
    ensures var r := CalculateRatio(w as real, h as real, MaxWidth(vp), MaxHeight(vp));
      && 0.0 <= w as real * r <= MaxWidth(vp)
      && 0.0 <= h as real * r <= MaxHeight(vp)
      && (w as real * r == MaxWidth(vp) || h as real * r == MaxHeight(vp))
      && (w as real * r) * h as real == (h as real * r) * w as real
  {
    RatioFitsBox(w as real, h as real, MaxWidth(vp), MaxHeight(vp));
    RatioNonNegative(w as real, h as real, MaxWidth(vp), MaxHeight(vp));
  }

  /**
   * Where a signature of `width` x `height` pixels goes on a surface of
   * `surfaceWidth` x `surfaceHeight`: scaled to the damped fit ratio and
   * anchored at the bottom centre.
   */
  datatype Placement = Placement(left: real, top: real, scale: real)

  function SignaturePlacement(width: real, height: real, surfaceWidth: real, surfaceHeight: real): (p: Placement)
    requires width > 0.0 && height > 0.0
    ensures p.scale == SignatureShare * CalculateRatio(width, height, surfaceWidth, surfaceHeight)
    ensures p.left + width * p.scale / 2.0 == surfaceWidth / 2.0
    ensures p.top + height * p.scale == surfaceHeight
  {
    var ratio := CalculateRatio(width, height, surfaceWidth, surfaceHeight) * SignatureShare;
    Placement(surfaceWidth / 2.0 - width / 2.0 * ratio, surfaceHeight - height * ratio, ratio)
  }

  /**
   * On a non-degenerate surface the placed signature is at most 0.6 of the
   * surface in each direction, reaches 0.6 in one of them, and lies wholly
   * inside the surface.
   */
  lemma SignatureInsideSurface(width: real, height: real, surfaceWidth: real, surfaceHeight: real)
    requires width > 0.0 && height > 0.0
    requires surfaceWidth >= 0.0 && surfaceHeight >= 0.0
    ensures var p := SignaturePlacement(width, height, surfaceWidth, surfaceHeight);
      && width * p.scale <= SignatureShare * surfaceWidth
      && height * p.scale <= SignatureShare * surfaceHeight
      && (width * p.scale == SignatureShare * surfaceWidth || height * p.scale == SignatureShare * surfaceHeight)
      && 0.0 <= p.left && p.left + width * p.scale <= surfaceWidth
      && 0.0 <= p.top && p.top + height * p.scale <= surfaceHeight
  {
    var r := CalculateRatio(width, height, surfaceWidth, surfaceHeight);
    var p := SignaturePlacement(width, height, surfaceWidth, surfaceHeight);
    RatioFitsBox(width, height, surfaceWidth, surfaceHeight);
    RatioNonNegative(width, height, surfaceWidth, surfaceHeight);
    assert width * p.scale == SignatureShare * (width * r);
    assert height * p.scale == SignatureShare * (height * r);
  }
}
