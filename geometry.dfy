/**
 * The size arithmetic shared by the renderers: `ceil` and the aspect-fit
 * scale, the `min` of the two side ratios, that maps a frame into a bounding
 * box. `CGFloat` values are modelled as exact reals.
 */
module Geometry {

  /** `ceil(x)` as an integer: the one integer in `[x, x + 1)`. */
  function Ceil(x: real): (n: int)
    ensures x <= n as real < x + 1.0
  {
    var f := x.Floor;
    assert x <= (if f as real == x then f else f + 1) as real < x + 1.0;
    var n :| x <= n as real < x + 1.0;
    n
  }

  /** An integer at or above `x` is at or above its ceiling. */
  lemma CeilLeast(x: real, k: int)
    requires x <= k as real
    ensures Ceil(x) <= k
  {
  }

  lemma ProductPositive(a: real, b: real)
    requires a > 0.0 && b > 0.0
    ensures a * b > 0.0
  {
  }

  /** A positive side no longer than the view's stays, scaled and rounded up, within the view's. */
  lemma ScaledSide(side: real, view: real, backingScale: real)
    requires 0.0 < side <= view && backingScale > 0.0
    ensures 1 <= Ceil(side * backingScale) <= Ceil(view * backingScale)
    ensures side == view ==> Ceil(side * backingScale) == Ceil(view * backingScale)
  {
    assert side * backingScale > 0.0;
    assert side * backingScale <= view * backingScale;
    CeilLeast(side * backingScale, Ceil(view * backingScale));
  }

  /** `min(boxWidth / frameWidth, boxHeight / frameHeight)`. */
  function AspectFitScale(boxWidth: real, boxHeight: real, frameWidth: real, frameHeight: real): (s: real)
    requires frameWidth > 0.0 && frameHeight > 0.0
    ensures frameWidth * s <= boxWidth && frameHeight * s <= boxHeight
    ensures frameWidth * s == boxWidth || frameHeight * s == boxHeight
  {
    var sw := boxWidth / frameWidth;
    var sh := boxHeight / frameHeight;
    assert frameWidth * sw == boxWidth && frameHeight * sh == boxHeight;
    if sw <= sh then
      assert frameHeight * sw <= frameHeight * sh;
      sw
    else
      assert frameWidth * sh <= frameWidth * sw;
      sh
  }

  /** The scale is positive exactly when the box has room in both directions. */
  lemma AspectFitScalePositive(boxWidth: real, boxHeight: real, frameWidth: real, frameHeight: real)
    requires frameWidth > 0.0 && frameHeight > 0.0
    ensures AspectFitScale(boxWidth, boxHeight, frameWidth, frameHeight) > 0.0 <==> boxWidth > 0.0 && boxHeight > 0.0
  {
    var s := AspectFitScale(boxWidth, boxHeight, frameWidth, frameHeight);
    if s > 0.0 {
      assert frameWidth * s > 0.0 && frameHeight * s > 0.0;
    } else {
      assert frameWidth * s <= 0.0 || frameHeight * s <= 0.0;
    }
  }

  /**
   * A `width` by `height` pixel size has the aspect ratio of a `frameWidth` by
   * `frameHeight` frame up to less than one pixel in either direction.
   */
  predicate KeepsAspect(width: int, height: int, frameWidth: real, frameHeight: real)
  {
    -frameWidth < width as real * frameHeight - height as real * frameWidth < frameHeight
  }

  /**
   * Rounding both scaled sides up keeps the frame's aspect ratio up to one unit:
   * `w/h` differs from `fw/fh` by less than the rounding of either side.
   */
  lemma CeilKeepsAspect(frameWidth: real, frameHeight: real, s: real)
    requires frameWidth > 0.0 && frameHeight > 0.0
    ensures KeepsAspect(Ceil(frameWidth * s), Ceil(frameHeight * s), frameWidth, frameHeight)
  {
    var w := Ceil(frameWidth * s) as real;
    var h := Ceil(frameHeight * s) as real;
    var a := w - frameWidth * s;
    var b := h - frameHeight * s;
    assert 0.0 <= a < 1.0 && 0.0 <= b < 1.0;
    assert w * frameHeight - h * frameWidth == a * frameHeight - b * frameWidth;
    assert 0.0 <= a * frameHeight < frameHeight;
    assert 0.0 <= b * frameWidth < frameWidth;
    assert -frameWidth < w * frameHeight - h * frameWidth < frameHeight;
  }
}
