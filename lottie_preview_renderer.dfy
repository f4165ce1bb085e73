/**
 * `LottiePreviewRenderer.renderFrame`: renders one frame into a fresh buffer
 * sized to fit a maximum size and wraps the result as an image. The pure
 * function `RenderedImage` says what the call yields; the method
 * `RenderFrame` does it with a zero-filled array the rasterizer writes into.
 */
module LottiePreviewRenderer {
  import opened Wrappers
  import opened Bytes
  import opened Geometry
  import opened Imaging
  import opened ThorVG

  /** The default arguments: frame 0, at most 800 by 800. */
  const DefaultFrameIndex: real := 0.0
  const DefaultMaxWidth: real := 800.0
  const DefaultMaxHeight: real := 800.0

  lemma CeilMonotone(x: real, y: real)
    requires x <= y
    ensures Ceil(x) <= Ceil(y)
  {
    CeilLeast(x, Ceil(y));
  }

  /**
   * The pixel size of the rendered frame: the frame scaled to fit inside the
   * maximum size and rounded up, or `None` when either guard fails.
   */
  datatype RenderedSize = RenderedSize(width: int, height: int)

  function RenderSize(lottie: Lottie, maxWidth: real, maxHeight: real): (size: Option<RenderedSize>)
    ensures size.Some? ==> lottie.frameWidth > 0.0 && lottie.frameHeight > 0.0 && size.value.width >= 1 && size.value.height >= 1
  {
    if !(lottie.frameWidth > 0.0 && lottie.frameHeight > 0.0) then
      None
    else
      var scale := AspectFitScale(maxWidth, maxHeight, lottie.frameWidth, lottie.frameHeight);
      var width := Ceil(lottie.frameWidth * scale);
      var height := Ceil(lottie.frameHeight * scale);
      if !(width > 0 && height > 0) then None else Some(RenderedSize(width, height))
  }

  /** A size is produced exactly when the frame and the maximum size are both non-degenerate. */
  lemma RenderSizeWhen(lottie: Lottie, maxWidth: real, maxHeight: real)
    ensures RenderSize(lottie, maxWidth, maxHeight).Some? <==>
      lottie.frameWidth > 0.0 && lottie.frameHeight > 0.0 && maxWidth > 0.0 && maxHeight > 0.0
  {
    if lottie.frameWidth > 0.0 && lottie.frameHeight > 0.0 {
      var scale := AspectFitScale(maxWidth, maxHeight, lottie.frameWidth, lottie.frameHeight);
      AspectFitScalePositive(maxWidth, maxHeight, lottie.frameWidth, lottie.frameHeight);
      ScaledCeilPositive(lottie.frameWidth, scale);
      ScaledCeilPositive(lottie.frameHeight, scale);
    }
  }

  /** A produced size keeps the frame's aspect ratio up to rounding. */
  lemma RenderSizeAspect(lottie: Lottie, maxWidth: real, maxHeight: real)
    ensures RenderSize(lottie, maxWidth, maxHeight).Some? ==>
      var size := RenderSize(lottie, maxWidth, maxHeight).value;
      KeepsAspect(size.width, size.height, lottie.frameWidth, lottie.frameHeight)
  {
    if RenderSize(lottie, maxWidth, maxHeight).Some? {
      var scale := AspectFitScale(maxWidth, maxHeight, lottie.frameWidth, lottie.frameHeight);
      assert RenderSize(lottie, maxWidth, maxHeight).value
        == RenderedSize(Ceil(lottie.frameWidth * scale), Ceil(lottie.frameHeight * scale));
      ScaledSizeAspect(RenderSize(lottie, maxWidth, maxHeight).value, lottie.frameWidth, lottie.frameHeight, scale);
    }
  }

  /** Both sides of a frame scaled by `scale` and rounded up keep its aspect ratio up to rounding. */
  lemma ScaledSizeAspect(size: RenderedSize, frameWidth: real, frameHeight: real, scale: real)
    requires frameWidth > 0.0 && frameHeight > 0.0
    requires size == RenderedSize(Ceil(frameWidth * scale), Ceil(frameHeight * scale))
    ensures KeepsAspect(size.width, size.height, frameWidth, frameHeight)
  {
    CeilKeepsAspect(frameWidth, frameHeight, scale);
  }

  /** For a positive length, rounding up the scaled length is positive exactly when the scale is. */
  lemma ScaledCeilPositive(length: real, scale: real)
    requires length > 0.0
    ensures Ceil(length * scale) > 0 <==> scale > 0.0
  {
    if scale > 0.0 {
      assert length * scale > 0.0;
    } else {
      assert length * scale <= 0.0;
      CeilLeast(length * scale, 0);
    }
  }

  /**
   * A produced size fits the maximum size (after rounding up) and fills it in
   * at least one direction.
   */
  lemma RenderSizeFits(lottie: Lottie, maxWidth: real, maxHeight: real)
    ensures RenderSize(lottie, maxWidth, maxHeight).Some? ==>
      var size := RenderSize(lottie, maxWidth, maxHeight).value;
      && 1 <= size.width <= Ceil(maxWidth) && 1 <= size.height <= Ceil(maxHeight)
      && (size.width == Ceil(maxWidth) || size.height == Ceil(maxHeight))
  {
    if lottie.frameWidth > 0.0 && lottie.frameHeight > 0.0 {
      var scale := AspectFitScale(maxWidth, maxHeight, lottie.frameWidth, lottie.frameHeight);
      var width := Ceil(lottie.frameWidth * scale);
      var height := Ceil(lottie.frameHeight * scale);
      CeilMonotone(lottie.frameWidth * scale, maxWidth);
      CeilMonotone(lottie.frameHeight * scale, maxHeight);
      assert width == Ceil(maxWidth) || height == Ceil(maxHeight);
    }
  }

  /** What `renderFrame(lottie:frameIndex:maxSize:)` returns. */
  function RenderedImage(lottie: Lottie, frameIndex: real, maxWidth: real, maxHeight: real,
                         rasterize: Rasterizer): (image: Option<Image>)
    ensures image.Some? ==>
      && RenderSize(lottie, maxWidth, maxHeight).Some?
      && image.value.width == RenderSize(lottie, maxWidth, maxHeight).value.width
      && image.value.height == RenderSize(lottie, maxWidth, maxHeight).value.height
  {
    match RenderSize(lottie, maxWidth, maxHeight)
    case None => None
    case Some(RenderedSize(width, height)) =>
      var outcome := rasterize(FullFrameRequest(frameIndex, width, height));
      if outcome.succeeded then
        Some(CreateImage(Painted(Zeroes(width * height), outcome.writes), width, height))
      else
        None
  }

  method RenderFrame(lottie: Lottie, frameIndex: real, maxWidth: real, maxHeight: real,
                     rasterize: Rasterizer) returns (image: Option<Image>)
    ensures image == RenderedImage(lottie, frameIndex, maxWidth, maxHeight, rasterize)
  {
    if !(lottie.frameWidth > 0.0 && lottie.frameHeight > 0.0) {
      return None;
    }
    var scale := AspectFitScale(maxWidth, maxHeight, lottie.frameWidth, lottie.frameHeight);
    var width := Ceil(lottie.frameWidth * scale);
    var height := Ceil(lottie.frameHeight * scale);
    if !(width > 0 && height > 0) {
      assert RenderSize(lottie, maxWidth, maxHeight) == None;
      return None;
    }
    assert RenderSize(lottie, maxWidth, maxHeight).Some?;
    assert RenderSize(lottie, maxWidth, maxHeight).value.width == width;
    assert RenderSize(lottie, maxWidth, maxHeight).value.height == height;
    assert RenderSize(lottie, maxWidth, maxHeight) == Some(RenderedSize(width, height));
    var buffer := new uint32[width * height](_ => 0);
    assert buffer[..] == Zeroes(width * height);
    var success := Render(rasterize, FullFrameRequest(frameIndex, width, height), buffer);
    if !success {
      return None;
    }
    image := Some(CreateImage(buffer[..], width, height));
  }

  /**
   * The renderer yields an image exactly when the frame and the maximum size
   * are non-degenerate and the rasterizer reports success.
   */
  lemma RenderedImageWhen(lottie: Lottie, frameIndex: real, maxWidth: real, maxHeight: real, rasterize: Rasterizer)
    ensures RenderedImage(lottie, frameIndex, maxWidth, maxHeight, rasterize).Some? <==>
      && lottie.frameWidth > 0.0 && lottie.frameHeight > 0.0 && maxWidth > 0.0 && maxHeight > 0.0
      && var RenderedSize(w, h) := RenderSize(lottie, maxWidth, maxHeight).value;
         rasterize(FullFrameRequest(frameIndex, w, h)).succeeded
  {
  }

  /**
   * A rendered image has the computed size, rows of `width * 4` bytes and
   * `width * height * 4` bytes of data.
   */
  lemma RenderedImageLayout(lottie: Lottie, frameIndex: real, maxWidth: real, maxHeight: real,
                            rasterize: Rasterizer)
    ensures RenderedImage(lottie, frameIndex, maxWidth, maxHeight, rasterize).Some? ==>
      var img := RenderedImage(lottie, frameIndex, maxWidth, maxHeight, rasterize).value;
      && Some(RenderedSize(img.width, img.height)) == RenderSize(lottie, maxWidth, maxHeight)
      && img.layout.bytesPerRow == img.width * 4
      && |img.data| == img.width * img.height * 4
  {
    var size := RenderSize(lottie, maxWidth, maxHeight);
    if size.Some? {
      var w, h := size.value.width, size.value.height;
      var buffer := Painted(Zeroes(w * h), rasterize(FullFrameRequest(frameIndex, w, h)).writes);
      assert |buffer| == w * h;
      assert |CreateImage(buffer, w, h).data| == 4 * (w * h);
    }
  }

  /**
   * Each pixel of a rendered image is what the rasterizer wrote at its index
   * in the buffer, and every pixel it did not write is 0 (transparent).
   */
  lemma RenderedImagePixels(lottie: Lottie, frameIndex: real, maxWidth: real, maxHeight: real,
                            rasterize: Rasterizer, x: nat, y: nat)
    ensures RenderedImage(lottie, frameIndex, maxWidth, maxHeight, rasterize).Some? ==>
      var img := RenderedImage(lottie, frameIndex, maxWidth, maxHeight, rasterize).value;
      x < img.width && y < img.height ==>
        var writes := rasterize(FullFrameRequest(frameIndex, img.width, img.height)).writes;
        var i := y * img.width + x;
        PixelAt(img, x, y) == Some(if i in writes then writes[i] else 0)
  {
    var size := RenderSize(lottie, maxWidth, maxHeight);
    if size.Some? && x < size.value.width && y < size.value.height {
      var w, h := size.value.width, size.value.height;
      var outcome := rasterize(FullFrameRequest(frameIndex, w, h));
      if outcome.succeeded {
        assert RenderedImage(lottie, frameIndex, maxWidth, maxHeight, rasterize).value
          == CreateImage(Painted(Zeroes(w * h), outcome.writes), w, h);
        PaintedPixel(w, h, outcome.writes, x, y);
      }
    }
  }

  /** A pixel of a zero-filled buffer painted with `writes`, read back from the image. */
  lemma PaintedPixel(w: nat, h: nat, writes: map<nat, uint32>, x: nat, y: nat)
    requires x < w && y < h
    ensures var i := y * w + x;
      PixelAt(CreateImage(Painted(Zeroes(w * h), writes), w, h), x, y) == Some(if i in writes then writes[i] else 0)
  {
    var n := w * h;
    var buffer := Painted(Zeroes(n), writes);
    var i := y * w + x;
    CreateImageLayout(buffer, w, h, x, y);
    PaintedAt(Zeroes(n), writes, i);
  }

  /** With the default maximum size the image is at most 800 by 800 pixels. */
  lemma DefaultSizeBound(lottie: Lottie, rasterize: Rasterizer)
    requires RenderedImage(lottie, DefaultFrameIndex, DefaultMaxWidth, DefaultMaxHeight, rasterize).Some?
    ensures var img := RenderedImage(lottie, DefaultFrameIndex, DefaultMaxWidth, DefaultMaxHeight, rasterize).value;
      img.width <= 800 && img.height <= 800 && (img.width == 800 || img.height == 800)
  {
    RenderSizeFits(lottie, DefaultMaxWidth, DefaultMaxHeight);
    assert Ceil(800.0) == 800;
  }
}
