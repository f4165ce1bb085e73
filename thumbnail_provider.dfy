/**
 * `ThumbnailProvider.provideThumbnail(for:_:)`: the decision that hands
 * Quick Look either a drawing reply or an error, or neither (so the system
 * falls back to its default icon). The request is the file, the maximum size
 * in points and the device scale; the rasterizer's open outcome, the
 * rasterizer itself and whether the rendered image yields a `CGImage` are
 * parameters. The result is the one `(reply, error)` pair passed to the
 * handler.
 */
module ThumbnailProvider {
  import opened Wrappers
  import opened Text
  import opened Geometry
  import opened Imaging
  import opened ThorVG
  import opened LottieFileHandler
  import opened LottiePreviewRenderer

  datatype ThumbnailRequest = ThumbnailRequest(file: FileRef, maximumWidth: real, maximumHeight: real, scale: real)

  datatype Size = Size(width: real, height: real)

  datatype Box = Box(x: real, y: real, width: real, height: real)

  /**
   * A `QLThumbnailReply` whose drawing block fills `fillRect` with white and
   * draws `image` into `drawRect`, in a context of `contextSize` points.
   */
  datatype ThumbnailReply = ThumbnailReply(contextSize: Size, fillRect: Box, drawRect: Box, image: Image)

  /** The arguments of the single `handler(reply, error)` call. */
  datatype HandlerCall = HandlerCall(reply: Option<ThumbnailReply>, error: Option<LottieFileError>)

  /** The frame scaled to fit the maximum size, rounded up: `thumbnailSize`. */
  function ThumbnailSize(lottie: Lottie, request: ThumbnailRequest): (size: Size)
    requires lottie.frameWidth > 0.0 && lottie.frameHeight > 0.0
    ensures size.width == size.width.Floor as real && size.height == size.height.Floor as real
  {
    var scale := AspectFitScale(request.maximumWidth, request.maximumHeight, lottie.frameWidth, lottie.frameHeight);
    Size(Ceil(lottie.frameWidth * scale) as real, Ceil(lottie.frameHeight * scale) as real)
  }

  /** The same, also multiplied by the device scale before rounding up: `pixelSize`. */
  function PixelSize(lottie: Lottie, request: ThumbnailRequest): (size: Size)
    requires lottie.frameWidth > 0.0 && lottie.frameHeight > 0.0
    ensures size.width == size.width.Floor as real && size.height == size.height.Floor as real
  {
    var scale := AspectFitScale(request.maximumWidth, request.maximumHeight, lottie.frameWidth, lottie.frameHeight);
    Size(PixelSide(lottie.frameWidth, scale, request.scale) as real, PixelSide(lottie.frameHeight, scale, request.scale) as real)
  }

  /** One side of `pixelSize`: the frame side scaled to fit, then by the device scale, rounded up. */
  function PixelSide(frameSide: real, fitScale: real, deviceScale: real): (side: int)
  {
    Ceil(frameSide * fitScale * deviceScale)
  }

  /** On a 1x display the bitmap is exactly the size of the context. */
  lemma PixelSizeAtUnitScale(lottie: Lottie, request: ThumbnailRequest)
    requires lottie.frameWidth > 0.0 && lottie.frameHeight > 0.0
    ensures request.scale == 1.0 ==> PixelSize(lottie, request) == ThumbnailSize(lottie, request)
  {
    ThumbnailSizeSides(lottie, request);
    PixelSizeSides(lottie, request);
    UnitDeviceScale(lottie.frameWidth, AspectFitScale(request.maximumWidth, request.maximumHeight, lottie.frameWidth, lottie.frameHeight), request.scale);
    UnitDeviceScale(lottie.frameHeight, AspectFitScale(request.maximumWidth, request.maximumHeight, lottie.frameWidth, lottie.frameHeight), request.scale);
    SameWholeSize(PixelSide(lottie.frameWidth, AspectFitScale(request.maximumWidth, request.maximumHeight, lottie.frameWidth, lottie.frameHeight), request.scale), PixelSide(lottie.frameHeight, AspectFitScale(request.maximumWidth, request.maximumHeight, lottie.frameWidth, lottie.frameHeight), request.scale),
      Ceil(lottie.frameWidth * AspectFitScale(request.maximumWidth, request.maximumHeight, lottie.frameWidth, lottie.frameHeight)), Ceil(lottie.frameHeight * AspectFitScale(request.maximumWidth, request.maximumHeight, lottie.frameWidth, lottie.frameHeight)));
  }

  /** Equal whole-number sides make equal sizes. */
  lemma SameWholeSize(width: int, height: int, otherWidth: int, otherHeight: int)
    ensures width == otherWidth && height == otherHeight ==>
      Size(width as real, height as real) == Size(otherWidth as real, otherHeight as real)
  {
  }

  /** At a device scale of 1 a pixel side is the thumbnail side. */
  lemma UnitDeviceScale(frameSide: real, fitScale: real, deviceScale: real)
    ensures deviceScale == 1.0 ==> PixelSide(frameSide, fitScale, deviceScale) == Ceil(frameSide * fitScale)
  {
    if deviceScale == 1.0 {
      assert frameSide * fitScale * deviceScale == frameSide * fitScale;
    }
  }

  function Origin(size: Size): (box: Box)
  {
    Box(0.0, 0.0, size.width, size.height)
  }

  /** The rectangle the drawing block fills and draws into, as written: `pixelRect`, the pixel size. */
  function DrawRectAsWritten(thumbnailSize: Size, pixelSize: Size): (rect: Box)
    ensures rect == DrawRect(thumbnailSize, pixelSize) <==> pixelSize == thumbnailSize
  {
    Origin(pixelSize)
  }

  /** The rectangle that fills the whole context the reply asks for. */
  function DrawRect(thumbnailSize: Size, pixelSize: Size): (rect: Box)
  {
    Origin(thumbnailSize)
  }

  /** The request's file passes the `json` content gate. */
  predicate PassesGate(file: FileRef)
  {
    !(Lowercased(file.pathExtension) == "json" && !IsLikelyLottieFile(file))
  }

  /**
   * The body of `provideThumbnail(for:_:)`, with the rectangle its drawing
   * block fills and draws into computed by `drawRect` from the thumbnail
   * size and the pixel size.
   */
  function ThumbnailDecision(request: ThumbnailRequest, openResult: Option<Lottie>, rasterize: Rasterizer,
                             cgImageAvailable: bool, drawRect: (Size, Size) -> Box): (call: HandlerCall)
  {
    if Lowercased(request.file.pathExtension) == "json" && !IsLikelyLottieFile(request.file) then
      HandlerCall(None, None)
    else
      match LoadLottie(request.file, openResult)
      case Failure(e) => HandlerCall(None, Some(e))
      case Success(lottie) =>
        if !(lottie.frameWidth > 0.0 && lottie.frameHeight > 0.0) then
          HandlerCall(None, Some(InvalidFormat))
        else
          var thumbnailSize := ThumbnailSize(lottie, request);
          var pixelSize := PixelSize(lottie, request);
          match RenderedImage(lottie, 0.0, pixelSize.width, pixelSize.height, rasterize)
          case None => HandlerCall(None, None)
          case Some(image) =>
            if !cgImageAvailable then
              HandlerCall(None, None)
            else
              var rect := drawRect(thumbnailSize, pixelSize);
              HandlerCall(Some(ThumbnailReply(thumbnailSize, rect, rect, image)), None)
  }

  /**
   * `provideThumbnail(for:_:)` as written: the drawing block fills and draws
   * into `pixelRect`, a rectangle of the pixel size.
   */
  function ProvideThumbnail(request: ThumbnailRequest, openResult: Option<Lottie>, rasterize: Rasterizer,
                            cgImageAvailable: bool): (call: HandlerCall)
    ensures !(call.reply.Some? && call.error.Some?)
  {
    ThumbnailDecision(request, openResult, rasterize, cgImageAvailable, DrawRectAsWritten)
  }

  /**
   * The same decision with the drawing block corrected: a reply fills and
   * draws into the whole context it asks for.
   */
  function ProvideThumbnailCorrected(request: ThumbnailRequest, openResult: Option<Lottie>, rasterize: Rasterizer,
                                     cgImageAvailable: bool): (call: HandlerCall)
  {
    ThumbnailDecision(request, openResult, rasterize, cgImageAvailable, DrawRect)
  }

  /**
   * A `json` file the content heuristic rejects gets neither a reply nor an error,
   * whatever opening it would have given: it is never loaded.
   */
  lemma RejectedJsonIgnored(request: ThumbnailRequest, openResult: Option<Lottie>, other: Option<Lottie>,
                            rasterize: Rasterizer, cgImageAvailable: bool)
    ensures !PassesGate(request.file) ==>
      && ProvideThumbnail(request, openResult, rasterize, cgImageAvailable) == HandlerCall(None, None)
      && ProvideThumbnail(request, other, rasterize, cgImageAvailable) == HandlerCall(None, None)
  {
  }

  /** A failed load is reported as its own error, and no reply is given. */
  lemma LoadErrorReported(request: ThumbnailRequest, openResult: Option<Lottie>, rasterize: Rasterizer,
                          cgImageAvailable: bool)
    ensures PassesGate(request.file) && LoadLottie(request.file, openResult).Failure? ==>
      ProvideThumbnail(request, openResult, rasterize, cgImageAvailable)
        == HandlerCall(None, Some(LoadLottie(request.file, openResult).error))
  {
  }

  /**
   * The only errors reported are `invalidFormat` (an unsupported extension or
   * an empty frame) and `notALottieFile` (the rasterizer would not open a
   * supported file); `loadFailed` never is.
   */
  lemma ReportedErrors(request: ThumbnailRequest, openResult: Option<Lottie>, rasterize: Rasterizer,
                       cgImageAvailable: bool)
    ensures var call := ProvideThumbnail(request, openResult, rasterize, cgImageAvailable);
      && (call.error == Some(NotALottieFile) <==>
            PassesGate(request.file) && IsSupportedExtension(Lowercased(request.file.pathExtension)) && openResult.None?)
      && (call.error == Some(InvalidFormat) <==>
            PassesGate(request.file) &&
            (!IsSupportedExtension(Lowercased(request.file.pathExtension)) ||
             (openResult.Some? && !(openResult.value.frameWidth > 0.0 && openResult.value.frameHeight > 0.0))))
      && (call.error.Some? ==> call.error == Some(NotALottieFile) || call.error == Some(InvalidFormat))
  {
  }

  /**
   * A reply is given exactly when the file passes the gate and opens with a
   * non-empty frame, the frame renders at the pixel size, and the image
   * yields a `CGImage`.
   */
  lemma ReplyWhen(request: ThumbnailRequest, openResult: Option<Lottie>, rasterize: Rasterizer, cgImageAvailable: bool)
    ensures ProvideThumbnail(request, openResult, rasterize, cgImageAvailable).reply.Some? <==>
      && PassesGate(request.file)
      && LoadLottie(request.file, openResult).Success?
      && var lottie := LoadLottie(request.file, openResult).value;
         && lottie.frameWidth > 0.0 && lottie.frameHeight > 0.0
         && RenderedImage(lottie, 0.0, PixelSize(lottie, request).width, PixelSize(lottie, request).height, rasterize).Some?
         && cgImageAvailable
  {
  }

  /**
   * A reply asks for a context of `thumbnailSize` points, fills and draws into
   * a rectangle of `pixelSize` at the origin, and carries frame 0 rendered to
   * fit `pixelSize`.
   */
  lemma ReplyContents(request: ThumbnailRequest, openResult: Option<Lottie>, rasterize: Rasterizer, cgImageAvailable: bool)
    ensures var call := ProvideThumbnail(request, openResult, rasterize, cgImageAvailable);
      call.reply.Some? ==>
        && openResult.Some?
        && var lottie := openResult.value;
           && lottie.frameWidth > 0.0 && lottie.frameHeight > 0.0
           && var pixelSize := PixelSize(lottie, request);
              && call.reply.value.contextSize == ThumbnailSize(lottie, request)
              && call.reply.value.fillRect == Origin(pixelSize)
              && call.reply.value.drawRect == Origin(pixelSize)
              && Some(call.reply.value.image) == RenderedImage(lottie, 0.0, pixelSize.width, pixelSize.height, rasterize)
  {
  }

  /**
   * The rendered image fits the pixel size and fills it in one direction: the
   * thumbnail is drawn from a bitmap at the device's resolution.
   */
  lemma ImageFillsPixelSize(request: ThumbnailRequest, openResult: Option<Lottie>, rasterize: Rasterizer,
                            cgImageAvailable: bool)
    ensures var call := ProvideThumbnail(request, openResult, rasterize, cgImageAvailable);
      call.reply.Some? ==>
        var pixelSize := PixelSize(openResult.value, request);
        var image := call.reply.value.image;
        && 1 <= image.width && image.width as real <= pixelSize.width
        && 1 <= image.height && image.height as real <= pixelSize.height
        && (image.width as real == pixelSize.width || image.height as real == pixelSize.height)
  {
    var call := ProvideThumbnail(request, openResult, rasterize, cgImageAvailable);
    if call.reply.Some? {
      ReplyContents(request, openResult, rasterize, cgImageAvailable);
      var lottie := openResult.value;
      var pixelSize := PixelSize(lottie, request);
      RenderSizeFits(lottie, pixelSize.width, pixelSize.height);
      RenderedImageLayout(lottie, 0.0, pixelSize.width, pixelSize.height, rasterize);
      CeilOfWhole(pixelSize.width);
      CeilOfWhole(pixelSize.height);
    }
  }

  /** Rounding up an integer-valued size gives it back. */
  lemma CeilOfWhole(x: real)
    ensures x == x.Floor as real ==> Ceil(x) as real == x
  {
    if x == x.Floor as real {
      CeilLeast(x, x.Floor);
    }
  }

  /**
   * The thumbnail size is the size the shared renderer computes for the
   * maximum size, so it fits that size (after rounding up) and fills it in
   * one direction.
   */
  lemma ThumbnailSizeIsRenderSize(lottie: Lottie, request: ThumbnailRequest)
    requires lottie.frameWidth > 0.0 && lottie.frameHeight > 0.0
    requires request.maximumWidth > 0.0 && request.maximumHeight > 0.0
    ensures var size := RenderSize(lottie, request.maximumWidth, request.maximumHeight);
      && size.Some?
      && ThumbnailSize(lottie, request) == Size(size.value.width as real, size.value.height as real)
  {
    RenderSizeSides(lottie, request.maximumWidth, request.maximumHeight);
    ThumbnailSizeSides(lottie, request);
  }

  /**
   * The context keeps the frame's aspect ratio up to rounding: its sides are
   * off the frame's proportions by less than one point in either direction.
   */
  lemma ThumbnailSizeAspect(lottie: Lottie, request: ThumbnailRequest)
    requires lottie.frameWidth > 0.0 && lottie.frameHeight > 0.0
    requires request.maximumWidth > 0.0 && request.maximumHeight > 0.0
    ensures var t := ThumbnailSize(lottie, request);
      -lottie.frameWidth < t.width * lottie.frameHeight - t.height * lottie.frameWidth < lottie.frameHeight
  {
    ThumbnailSizeIsRenderSize(lottie, request);
    RenderSizeAspect(lottie, request.maximumWidth, request.maximumHeight);
    var size := RenderSize(lottie, request.maximumWidth, request.maximumHeight).value;
    AspectCarries(ThumbnailSize(lottie, request), size.width, size.height, lottie.frameWidth, lottie.frameHeight);
  }

  /** Whole-number sides that keep an aspect ratio carry it over to the size they make. */
  lemma AspectCarries(size: Size, width: int, height: int, frameWidth: real, frameHeight: real)
    requires size == Size(width as real, height as real) && KeepsAspect(width, height, frameWidth, frameHeight)
    ensures -frameWidth < size.width * frameHeight - size.height * frameWidth < frameHeight
  {
  }

  /** The thumbnail size's sides, with the fitting scale written out. */
  lemma ThumbnailSizeSides(lottie: Lottie, request: ThumbnailRequest)
    requires lottie.frameWidth > 0.0 && lottie.frameHeight > 0.0
    ensures ThumbnailSize(lottie, request) == Size(
      Ceil(lottie.frameWidth * AspectFitScale(request.maximumWidth, request.maximumHeight, lottie.frameWidth, lottie.frameHeight)) as real,
      Ceil(lottie.frameHeight * AspectFitScale(request.maximumWidth, request.maximumHeight, lottie.frameWidth, lottie.frameHeight)) as real)
  {
    var t := ThumbnailSize(lottie, request);
    assert t.width == t.width.Floor as real && t.height == t.height.Floor as real;
    assert t.width.Floor == Ceil(lottie.frameWidth * AspectFitScale(request.maximumWidth, request.maximumHeight, lottie.frameWidth, lottie.frameHeight));
    assert t.height.Floor == Ceil(lottie.frameHeight * AspectFitScale(request.maximumWidth, request.maximumHeight, lottie.frameWidth, lottie.frameHeight));
  }

  /** The pixel size's sides, with the fitting scale written out. */
  lemma PixelSizeSides(lottie: Lottie, request: ThumbnailRequest)
    requires lottie.frameWidth > 0.0 && lottie.frameHeight > 0.0
    ensures PixelSize(lottie, request) == Size(
      PixelSide(lottie.frameWidth, AspectFitScale(request.maximumWidth, request.maximumHeight, lottie.frameWidth, lottie.frameHeight), request.scale) as real,
      PixelSide(lottie.frameHeight, AspectFitScale(request.maximumWidth, request.maximumHeight, lottie.frameWidth, lottie.frameHeight), request.scale) as real)
  {
    var p := PixelSize(lottie, request);
    assert p.width == p.width.Floor as real && p.height == p.height.Floor as real;
    assert p.width.Floor == PixelSide(lottie.frameWidth, AspectFitScale(request.maximumWidth, request.maximumHeight, lottie.frameWidth, lottie.frameHeight), request.scale);
    assert p.height.Floor == PixelSide(lottie.frameHeight, AspectFitScale(request.maximumWidth, request.maximumHeight, lottie.frameWidth, lottie.frameHeight), request.scale);
  }

  /**
   * The bitmap size of a reply lies within the maximum size times the device
   * scale, rounded up, and reaches it in one direction.
   */
  lemma PixelSizeFits(lottie: Lottie, request: ThumbnailRequest)
    requires lottie.frameWidth > 0.0 && lottie.frameHeight > 0.0
    requires request.maximumWidth > 0.0 && request.maximumHeight > 0.0 && request.scale > 0.0
    ensures var p := PixelSize(lottie, request);
      && 1.0 <= p.width <= Ceil(request.maximumWidth * request.scale) as real
      && 1.0 <= p.height <= Ceil(request.maximumHeight * request.scale) as real
      && (p.width == Ceil(request.maximumWidth * request.scale) as real
          || p.height == Ceil(request.maximumHeight * request.scale) as real)
  {
    PixelSizeSides(lottie, request);
    AspectFitScalePositive(request.maximumWidth, request.maximumHeight, lottie.frameWidth, lottie.frameHeight);
    PixelSideFits(lottie.frameWidth, AspectFitScale(request.maximumWidth, request.maximumHeight, lottie.frameWidth, lottie.frameHeight),
      request.maximumWidth, request.scale);
    PixelSideFits(lottie.frameHeight, AspectFitScale(request.maximumWidth, request.maximumHeight, lottie.frameWidth, lottie.frameHeight),
      request.maximumHeight, request.scale);
    WholeSidesFit(PixelSize(lottie, request),
      PixelSide(lottie.frameWidth, AspectFitScale(request.maximumWidth, request.maximumHeight, lottie.frameWidth, lottie.frameHeight), request.scale),
      PixelSide(lottie.frameHeight, AspectFitScale(request.maximumWidth, request.maximumHeight, lottie.frameWidth, lottie.frameHeight), request.scale),
      Ceil(request.maximumWidth * request.scale), Ceil(request.maximumHeight * request.scale));
  }

  /** One side: the frame side scaled to fit, then by the device scale, rounded up. */
  lemma PixelSideFits(frameSide: real, fitScale: real, maxSide: real, deviceScale: real)
    requires frameSide > 0.0 && fitScale > 0.0 && frameSide * fitScale <= maxSide && deviceScale > 0.0
    ensures 1 <= PixelSide(frameSide, fitScale, deviceScale) <= Ceil(maxSide * deviceScale)
    ensures frameSide * fitScale == maxSide ==> PixelSide(frameSide, fitScale, deviceScale) == Ceil(maxSide * deviceScale)
  {
    ProductPositive(frameSide, fitScale);
    ScaledSide(frameSide * fitScale, maxSide, deviceScale);
  }

  /** Whole-number sides that fit carry their fit over to the size they make. */
  lemma WholeSidesFit(size: Size, width: int, height: int, maxWidth: int, maxHeight: int)
    requires size == Size(width as real, height as real)
    requires 1 <= width <= maxWidth && 1 <= height <= maxHeight && (width == maxWidth || height == maxHeight)
    ensures 1.0 <= size.width <= maxWidth as real && 1.0 <= size.height <= maxHeight as real
    ensures size.width == maxWidth as real || size.height == maxHeight as real
  {
  }

  lemma RenderSizeSides(lottie: Lottie, maxWidth: real, maxHeight: real)
    requires lottie.frameWidth > 0.0 && lottie.frameHeight > 0.0
    requires maxWidth > 0.0 && maxHeight > 0.0
    ensures RenderSize(lottie, maxWidth, maxHeight) == Some(RenderedSize(
      Ceil(lottie.frameWidth * AspectFitScale(maxWidth, maxHeight, lottie.frameWidth, lottie.frameHeight)),
      Ceil(lottie.frameHeight * AspectFitScale(maxWidth, maxHeight, lottie.frameWidth, lottie.frameHeight))))
  {
    RenderSizeWhen(lottie, maxWidth, maxHeight);
    var size := RenderSize(lottie, maxWidth, maxHeight);
    assert size.value.width == Ceil(lottie.frameWidth * AspectFitScale(maxWidth, maxHeight, lottie.frameWidth, lottie.frameHeight));
    assert size.value.height == Ceil(lottie.frameHeight * AspectFitScale(maxWidth, maxHeight, lottie.frameWidth, lottie.frameHeight));
  }

  /**
   * Hence the context a reply asks for lies within the maximum size, rounded
   * up, and reaches it in one direction.
   */
  lemma ThumbnailSizeFits(lottie: Lottie, request: ThumbnailRequest)
    requires lottie.frameWidth > 0.0 && lottie.frameHeight > 0.0
    requires request.maximumWidth > 0.0 && request.maximumHeight > 0.0
    ensures var t := ThumbnailSize(lottie, request);
      && 1.0 <= t.width <= Ceil(request.maximumWidth) as real
      && 1.0 <= t.height <= Ceil(request.maximumHeight) as real
      && (t.width == Ceil(request.maximumWidth) as real || t.height == Ceil(request.maximumHeight) as real)
  {
    ThumbnailSizeIsRenderSize(lottie, request);
    RenderSizeFits(lottie, request.maximumWidth, request.maximumHeight);
  }

  /**
   * A 512 by 512 animation asked for at most 800 by 800 points on a 2x
   * display: the context is 800 by 800 points, the pixel size 1600 by 1600.
   */
  lemma RetinaSizes(lottie: Lottie, file: FileRef)
    requires lottie.frameWidth == 512.0 && lottie.frameHeight == 512.0
    ensures ThumbnailSize(lottie, ThumbnailRequest(file, 800.0, 800.0, 2.0)) == Size(800.0, 800.0)
    ensures PixelSize(lottie, ThumbnailRequest(file, 800.0, 800.0, 2.0)) == Size(1600.0, 1600.0)
  {
    var scale := AspectFitScale(800.0, 800.0, 512.0, 512.0);
    assert scale == 800.0 / 512.0;
    assert 512.0 * scale == 800.0;
    assert 512.0 * scale * 2.0 == 1600.0;
    assert Ceil(800.0) == 800;
    assert Ceil(1600.0) == 1600;
  }

  /**
   * As written, the white fill and the image go into `pixelRect`, which is
   * larger than the context whenever the device scale is above 1: for the
   * request above the image is drawn 1600 points wide in an 800-point context,
   * so only a quarter of it shows.
   */
  lemma DrawRectAsWrittenOverflows(lottie: Lottie, file: FileRef, rasterize: Rasterizer, cgImageAvailable: bool)
    requires lottie.frameWidth == 512.0 && lottie.frameHeight == 512.0
    ensures var call := ProvideThumbnail(ThumbnailRequest(file, 800.0, 800.0, 2.0), Some(lottie), rasterize, cgImageAvailable);
      call.reply.Some? ==>
        && call.reply.value.contextSize == Size(800.0, 800.0)
        && call.reply.value.fillRect == Box(0.0, 0.0, 1600.0, 1600.0)
        && call.reply.value.drawRect == Box(0.0, 0.0, 1600.0, 1600.0)
  {
    ReplyContents(ThumbnailRequest(file, 800.0, 800.0, 2.0), Some(lottie), rasterize, cgImageAvailable);
    RetinaSizes(lottie, file);
  }

  /**
   * The corrected decision gives the same error and a reply in the same
   * cases, with the same context size and image, and its reply fills and
   * draws into exactly the context, whatever the device scale.
   */
  lemma CorrectedReplyFillsContext(request: ThumbnailRequest, openResult: Option<Lottie>, rasterize: Rasterizer,
                                   cgImageAvailable: bool)
    ensures var call := ProvideThumbnail(request, openResult, rasterize, cgImageAvailable);
      var corrected := ProvideThumbnailCorrected(request, openResult, rasterize, cgImageAvailable);
      && corrected.error == call.error
      && (corrected.reply.Some? <==> call.reply.Some?)
      && (corrected.reply.Some? ==>
            && corrected.reply.value.contextSize == call.reply.value.contextSize
            && corrected.reply.value.image == call.reply.value.image
            && corrected.reply.value.fillRect == Box(0.0, 0.0, call.reply.value.contextSize.width, call.reply.value.contextSize.height)
            && corrected.reply.value.drawRect == Box(0.0, 0.0, call.reply.value.contextSize.width, call.reply.value.contextSize.height))
  {
  }

  /** Under the correction, the 2x request above fills exactly its 800 by 800 point context. */
  lemma CorrectedRetinaReply(lottie: Lottie, file: FileRef, rasterize: Rasterizer, cgImageAvailable: bool)
    requires lottie.frameWidth == 512.0 && lottie.frameHeight == 512.0
    ensures var call := ProvideThumbnailCorrected(ThumbnailRequest(file, 800.0, 800.0, 2.0), Some(lottie), rasterize, cgImageAvailable);
      call.reply.Some? ==>
        && call.reply.value.contextSize == Size(800.0, 800.0)
        && call.reply.value.fillRect == Box(0.0, 0.0, 800.0, 800.0)
        && call.reply.value.drawRect == Box(0.0, 0.0, 800.0, 800.0)
  {
    ReplyContents(ThumbnailRequest(file, 800.0, 800.0, 2.0), Some(lottie), rasterize, cgImageAvailable);
    RetinaSizes(lottie, file);
  }

}
