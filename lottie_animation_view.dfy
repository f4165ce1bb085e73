/**
 * `LottieAnimationView`: the preview's playing view. A display link fires at
 * the screen's refresh rate; a firing is accepted only when at least one frame
 * interval of the animation has passed since the last accepted one, and each
 * accepted firing queues one frame advance on the main queue. Advancing wraps
 * the frame counter at the animation's frame count and renders the new frame
 * into a fresh zeroed buffer that becomes the layer's contents.
 *
 * Times, sizes and the `Float` frame counter are exact reals; the display link
 * is a flag, and its callback is the method `Tick`, called with the current time.
 */
module LottieAnimationView {
  import opened Wrappers
  import opened Bytes
  import opened Geometry
  import opened Imaging
  import opened ThorVG
  import LottiePreviewRenderer

  /** The frame rate used when the animation reports no positive frame duration. */
  const FallbackFrameRate: real := 30.0

  /** `frameDuration > 0 ? 1 / frameDuration : 30`, fixed at `init`. */
  function FrameRate(frameDuration: real): (rate: real)
    ensures rate > 0.0
  {
    if frameDuration > 0.0 then 1.0 / frameDuration else FallbackFrameRate
  }

  /**
   * The interval the callback waits for, `1 / frameRate`, is the frame
   * duration itself, or a thirtieth of a second when there is none.
   */
  lemma TargetInterval(frameDuration: real)
    ensures 1.0 / FrameRate(frameDuration) == if frameDuration > 0.0 then frameDuration else 1.0 / 30.0
  {
    if frameDuration > 0.0 {
      var rate := 1.0 / frameDuration;
      assert rate * frameDuration == 1.0;
      assert 1.0 / rate == frameDuration;
    }
  }

  /** An animation authored at 24 frames per second is played at 24 frames per second. */
  lemma TwentyFourFps()
    ensures FrameRate(1.0 / 24.0) == 24.0
  {
  }

  /** Whether the callback at time `now` accepts the firing. */
  predicate TickDue(lastRenderTime: real, now: real, frameRate: real)
    requires frameRate > 0.0
    ensures TickDue(lastRenderTime, now, frameRate) ==> now > lastRenderTime
  {
    now - lastRenderTime >= 1.0 / frameRate
  }

  /** A firing is accepted exactly when a whole frame duration (or 1/30 s) has elapsed. */
  lemma TickDueAfterInterval(lastRenderTime: real, now: real, frameDuration: real)
    ensures TickDue(lastRenderTime, now, FrameRate(frameDuration)) <==>
      now - lastRenderTime >= if frameDuration > 0.0 then frameDuration else 1.0 / 30.0
  {
    TargetInterval(frameDuration);
  }

  /** `currentFrame += 1`, back to 0 once it reaches `numberOfFrames`. */
  function NextFrame(current: real, numberOfFrames: real): (next: real)
    ensures FrameInRange(current, numberOfFrames) ==> FrameInRange(next, numberOfFrames)
  {
    if current + 1.0 >= numberOfFrames then 0.0 else current + 1.0
  }

  /** The frame counter is 0, or a non-negative value below the frame count. */
  predicate FrameInRange(current: real, numberOfFrames: real)
  {
    current == 0.0 || 0.0 <= current < numberOfFrames
  }

  /** Advancing keeps the counter in range, whatever the frame count. */
  lemma NextFrameInRange(current: real, numberOfFrames: real)
    ensures FrameInRange(current, numberOfFrames) ==> FrameInRange(NextFrame(current, numberOfFrames), numberOfFrames)
    ensures FrameInRange(current, numberOfFrames) && numberOfFrames >= 1.0 ==>
      0.0 <= NextFrame(current, numberOfFrames) < numberOfFrames
  {
  }

  /** With whole-numbered frames, advancing is the successor modulo the frame count. */
  lemma NextFrameModulo(current: nat, numberOfFrames: nat)
    ensures current < numberOfFrames ==>
      NextFrame(current as real, numberOfFrames as real) == ((current + 1) % numberOfFrames) as real
  {
    if current < numberOfFrames {
      if current + 1 == numberOfFrames {
        ModUnique(current + 1, numberOfFrames, 1, 0);
      } else {
        ModUnique(current + 1, numberOfFrames, 0, current + 1);
      }
    }
  }

  /** The last frame of a 100-frame animation is followed by frame 0. */
  lemma LastFrameWraps()
    ensures NextFrame(99.0, 100.0) == 0.0
    ensures NextFrame(98.0, 100.0) == 99.0
  {
  }

  /** The counter after `k` advances. */
  function Advanced(current: real, numberOfFrames: real, k: nat): real
  {
    if k == 0 then current else NextFrame(Advanced(current, numberOfFrames, k - 1), numberOfFrames)
  }

  /**
   * From a whole-numbered frame, `k` advances land on frame
   * `(current + k) % numberOfFrames`: playback cycles through every frame in order.
   */
  lemma {:induction false} AdvancedModulo(current: nat, numberOfFrames: nat, k: nat)
    ensures current < numberOfFrames ==>
      Advanced(current as real, numberOfFrames as real, k) == ((current + k) % numberOfFrames) as real
  {
    if current < numberOfFrames && k > 0 {
      AdvancedModulo(current, numberOfFrames, k - 1);
      AdvanceStep(current, numberOfFrames, current + (k - 1), k);
    }
  }

  /**
   * One more advance from frame `a % n` lands on frame `(a + 1) % n`; from
   * whole-numbered frame `c`, `a` is `c + k - 1` after `k - 1` advances.
   */
  lemma AdvanceStep(c: nat, n: nat, a: nat, k: nat)
    requires n > 0 && k > 0 && Advanced(c as real, n as real, k - 1) == (a % n) as real
    ensures Advanced(c as real, n as real, k) == ((a + 1) % n) as real
    ensures a == c + (k - 1) ==> Advanced(c as real, n as real, k) == ((c + k) % n) as real
  {
    var before: nat := a % n;
    assert Advanced(c as real, n as real, k) == NextFrame(before as real, n as real);
    NextFrameModulo(before, n);
    ModuloSuccessor(a, n);
  }

  lemma ModuloSuccessor(a: nat, n: nat)
    requires n > 0
    ensures (a % n + 1) % n == (a + 1) % n
  {
    var q, r := a / n, a % n;
    assert a == q * n + r;
    if r + 1 == n {
      assert a + 1 == (q + 1) * n + 0;
      ModUnique(a + 1, n, q + 1, 0);
      ModUnique(r + 1, n, 1, 0);
    } else {
      ModUnique(a + 1, n, q, r + 1);
      ModUnique(r + 1, n, 0, r + 1);
    }
  }

  /** The remainder is the one `r` in `[0, n)` with `a == q * n + r`. */
  lemma ModUnique(a: int, n: int, q: int, r: int)
    requires n > 0 && a == q * n + r && 0 <= r < n
    ensures a % n == r
  {
    var q0, r0 := a / n, a % n;
    assert a == q0 * n + r0;
    var d := q - q0;
    assert d * n == r0 - r by {
      assert q * n - q0 * n == (q - q0) * n;
    }
    if d >= 1 {
      MulAtLeast(d, n);
    } else if d <= -1 {
      assert (-d) * n == -(d * n);
      MulAtLeast(-d, n);
    }
  }

  lemma MulAtLeast(d: int, n: int)
    requires d >= 1 && n > 0
    ensures d * n >= n
  {
    assert d * n == (d - 1) * n + n;
    assert (d - 1) * n >= 0;
  }

  /** After a whole number of frames' worth of advances the animation is back where it started. */
  lemma AdvancedFullCycle(current: nat, numberOfFrames: nat)
    ensures current < numberOfFrames ==>
      Advanced(current as real, numberOfFrames as real, numberOfFrames) == current as real
  {
    AdvancedModulo(current, numberOfFrames, numberOfFrames);
    if current < numberOfFrames {
      ModUnique(current + numberOfFrames, numberOfFrames, 1, current);
    }
  }

  /** `window?.backingScaleFactor ?? NSScreen.main?.backingScaleFactor ?? 1.0`. */
  function BackingScale(windowScale: Option<real>, screenScale: Option<real>): (scale: real)
    ensures windowScale.Some? ==> scale == windowScale.value
    ensures windowScale.None? && screenScale.Some? ==> scale == screenScale.value
    ensures windowScale.None? && screenScale.None? ==> scale == 1.0
  {
    if windowScale.Some? then windowScale.value
    else if screenScale.Some? then screenScale.value
    else 1.0
  }

  /** `(width, height)` of the render target, when `updateRenderSize` computes one. */
  datatype RenderTarget = RenderTarget(width: int, height: int)

  /**
   * The target `updateRenderSize` computes for a view of the given size: the
   * frame scaled to fit the view, times the backing scale, rounded up; `None`
   * when the view or the frame has a non-positive side.
   */
  function RenderTargetFor(lottie: Lottie, viewWidth: real, viewHeight: real, backingScale: real): (target: Option<RenderTarget>)
    ensures target.Some? ==> viewWidth > 0.0 && viewHeight > 0.0 && lottie.frameWidth > 0.0 && lottie.frameHeight > 0.0
  {
    if !(viewWidth > 0.0 && viewHeight > 0.0) then None
    else if !(lottie.frameWidth > 0.0 && lottie.frameHeight > 0.0) then None
    else
      var scale := AspectFitScale(viewWidth, viewHeight, lottie.frameWidth, lottie.frameHeight);
      Some(RenderTarget(Ceil(lottie.frameWidth * scale * backingScale), Ceil(lottie.frameHeight * scale * backingScale)))
  }

  /** A target is computed exactly when the view and the frame both have positive sides. */
  lemma RenderTargetWhen(lottie: Lottie, viewWidth: real, viewHeight: real, backingScale: real)
    ensures RenderTargetFor(lottie, viewWidth, viewHeight, backingScale).Some? <==>
      viewWidth > 0.0 && viewHeight > 0.0 && lottie.frameWidth > 0.0 && lottie.frameHeight > 0.0
  {
  }

  /** The target's sides are the frame's sides, scaled to fit the view and by the backing scale, rounded up. */
  lemma RenderTargetSides(lottie: Lottie, viewWidth: real, viewHeight: real, backingScale: real, scale: real)
    requires viewWidth > 0.0 && viewHeight > 0.0 && lottie.frameWidth > 0.0 && lottie.frameHeight > 0.0
    requires scale == AspectFitScale(viewWidth, viewHeight, lottie.frameWidth, lottie.frameHeight)
    ensures RenderTargetFor(lottie, viewWidth, viewHeight, backingScale).Some?
    ensures RenderTargetFor(lottie, viewWidth, viewHeight, backingScale).value.width == Ceil(lottie.frameWidth * scale * backingScale)
    ensures RenderTargetFor(lottie, viewWidth, viewHeight, backingScale).value.height == Ceil(lottie.frameHeight * scale * backingScale)
  {
  }

  /**
   * With a positive backing scale the target is positive, lies within the view
   * in device pixels (after rounding up) in both directions, and fills it in one.
   */
  lemma RenderTargetFits(lottie: Lottie, viewWidth: real, viewHeight: real, backingScale: real)
    ensures RenderTargetFor(lottie, viewWidth, viewHeight, backingScale).Some? && backingScale > 0.0 ==>
      var t := RenderTargetFor(lottie, viewWidth, viewHeight, backingScale).value;
      && 1 <= t.width <= Ceil(viewWidth * backingScale)
      && 1 <= t.height <= Ceil(viewHeight * backingScale)
      && (t.width == Ceil(viewWidth * backingScale) || t.height == Ceil(viewHeight * backingScale))
  {
    if viewWidth > 0.0 && viewHeight > 0.0 && lottie.frameWidth > 0.0 && lottie.frameHeight > 0.0 && backingScale > 0.0 {
      var scale := AspectFitScale(viewWidth, viewHeight, lottie.frameWidth, lottie.frameHeight);
      AspectFitScalePositive(viewWidth, viewHeight, lottie.frameWidth, lottie.frameHeight);
      ProductPositive(lottie.frameWidth, scale);
      ProductPositive(lottie.frameHeight, scale);
      ScaledSide(lottie.frameWidth * scale, viewWidth, backingScale);
      ScaledSide(lottie.frameHeight * scale, viewHeight, backingScale);
    }
  }

  /**
   * At a backing scale of 1 the view sizes its target exactly as the static
   * renderer sizes an image whose maximum size is the view's size.
   */
  lemma RenderTargetMatchesRenderSize(lottie: Lottie, viewWidth: real, viewHeight: real)
    ensures viewWidth > 0.0 && viewHeight > 0.0 ==>
      match RenderTargetFor(lottie, viewWidth, viewHeight, 1.0)
      case None => LottiePreviewRenderer.RenderSize(lottie, viewWidth, viewHeight).None?
      case Some(t) => LottiePreviewRenderer.RenderSize(lottie, viewWidth, viewHeight)
                        == Some(LottiePreviewRenderer.RenderedSize(t.width, t.height))
  {
    if viewWidth > 0.0 && viewHeight > 0.0 && lottie.frameWidth > 0.0 && lottie.frameHeight > 0.0 {
      var scale := AspectFitScale(viewWidth, viewHeight, lottie.frameWidth, lottie.frameHeight);
      RenderTargetSides(lottie, viewWidth, viewHeight, 1.0, scale);
      SameSize(lottie, viewWidth, viewHeight, scale);
      var t := RenderTargetFor(lottie, viewWidth, viewHeight, 1.0).value;
      assert LottiePreviewRenderer.RenderedSize(t.width, t.height)
        == LottiePreviewRenderer.RenderedSize(Ceil(lottie.frameWidth * scale * 1.0), Ceil(lottie.frameHeight * scale * 1.0));
    }
  }

  /** Scaling by 1 changes no side, so both computations round the same products up. */
  lemma SameSize(lottie: Lottie, viewWidth: real, viewHeight: real, scale: real)
    requires viewWidth > 0.0 && viewHeight > 0.0 && lottie.frameWidth > 0.0 && lottie.frameHeight > 0.0
    requires scale == AspectFitScale(viewWidth, viewHeight, lottie.frameWidth, lottie.frameHeight)
    ensures LottiePreviewRenderer.RenderSize(lottie, viewWidth, viewHeight)
      == Some(LottiePreviewRenderer.RenderedSize(Ceil(lottie.frameWidth * scale * 1.0), Ceil(lottie.frameHeight * scale * 1.0)))
  {
    LottiePreviewRenderer.RenderSizeWhen(lottie, viewWidth, viewHeight);
    var w, h := Ceil(lottie.frameWidth * scale), Ceil(lottie.frameHeight * scale);
    assert lottie.frameWidth * scale * 1.0 == lottie.frameWidth * scale;
    assert lottie.frameHeight * scale * 1.0 == lottie.frameHeight * scale;
    assert Ceil(lottie.frameWidth * scale * 1.0) == w;
    assert Ceil(lottie.frameHeight * scale * 1.0) == h;
    var size := LottiePreviewRenderer.RenderSize(lottie, viewWidth, viewHeight);
    assert size.Some?;
    assert size.value.width == w && size.value.height == h;
    assert size == Some(LottiePreviewRenderer.RenderedSize(w, h));
  }

  /**
   * The target keeps the animation's aspect ratio up to the rounding of one
   * pixel in each direction: `width / height` differs from
   * `frameWidth / frameHeight` by less than one pixel's worth.
   */
  lemma RenderTargetAspect(lottie: Lottie, viewWidth: real, viewHeight: real, backingScale: real)
    ensures RenderTargetFor(lottie, viewWidth, viewHeight, backingScale).Some? ==>
      var t := RenderTargetFor(lottie, viewWidth, viewHeight, backingScale).value;
      KeepsAspect(t.width, t.height, lottie.frameWidth, lottie.frameHeight)
  {
    if RenderTargetFor(lottie, viewWidth, viewHeight, backingScale).Some? {
      var scale := TargetScale(lottie, viewWidth, viewHeight, backingScale);
      ScaledAspect(RenderTargetFor(lottie, viewWidth, viewHeight, backingScale).value,
                   lottie.frameWidth, lottie.frameHeight, scale, backingScale);
    }
  }

  /** The fitting scale behind a computed target, handed over without its own facts. */
  lemma TargetScale(lottie: Lottie, viewWidth: real, viewHeight: real, backingScale: real) returns (scale: real)
    requires RenderTargetFor(lottie, viewWidth, viewHeight, backingScale).Some?
    ensures lottie.frameWidth > 0.0 && lottie.frameHeight > 0.0
    ensures RenderTargetFor(lottie, viewWidth, viewHeight, backingScale).value
      == RenderTarget(Ceil(lottie.frameWidth * scale * backingScale), Ceil(lottie.frameHeight * scale * backingScale))
  {
    scale := AspectFitScale(viewWidth, viewHeight, lottie.frameWidth, lottie.frameHeight);
    RenderTargetSides(lottie, viewWidth, viewHeight, backingScale, scale);
  }

  lemma ScaledAspect(t: RenderTarget, frameWidth: real, frameHeight: real, scale: real, backingScale: real)
    requires frameWidth > 0.0 && frameHeight > 0.0
    requires t == RenderTarget(Ceil(frameWidth * scale * backingScale), Ceil(frameHeight * scale * backingScale))
    ensures KeepsAspect(t.width, t.height, frameWidth, frameHeight)
  {
    var s := scale * backingScale;
    assert frameWidth * scale * backingScale == frameWidth * s;
    assert frameHeight * scale * backingScale == frameHeight * s;
    assert Ceil(frameWidth * scale * backingScale) == Ceil(frameWidth * s);
    assert Ceil(frameHeight * scale * backingScale) == Ceil(frameHeight * s);
    CeilKeepsAspect(frameWidth, frameHeight, s);
  }

  /** A 512 by 512 animation in an 800 by 800 view on a 2x display renders at 1600 by 1600 pixels. */
  lemma RetinaScenario(lottie: Lottie)
    requires lottie.frameWidth == 512.0 && lottie.frameHeight == 512.0
    ensures RenderTargetFor(lottie, 800.0, 800.0, BackingScale(Some(2.0), None)) == Some(RenderTarget(1600, 1600))
  {
    var scale := AspectFitScale(800.0, 800.0, 512.0, 512.0);
    assert scale == 800.0 / 512.0;
    assert 512.0 * scale * 2.0 == 1600.0;
    assert Ceil(1600.0) == 1600;
  }

  /**
   * The layer contents `renderFrame` publishes for a target of `width` by
   * `height` pixels at frame `frame`: whatever the rasterizer wrote into the
   * zeroed buffer, whether or not it reported success. A non-positive target
   * publishes nothing and the old contents stay.
   */
  function PublishedFrame(old_contents: Option<Image>, frame: real, width: int, height: int,
                          rasterize: Rasterizer): (contents: Option<Image>)
    ensures width > 0 && height > 0 ==>
      contents.Some? && contents.value.width == width && contents.value.height == height
    ensures !(width > 0 && height > 0) ==> contents == old_contents
  {
    if !(width > 0 && height > 0) then old_contents
    else
      var writes := rasterize(FullFrameRequest(frame, width, height)).writes;
      Some(CreateImage(Painted(Zeroes(width * height), writes), width, height))
  }

  /**
   * Each pixel of the published contents holds what the rasterizer wrote at
   * that pixel's buffer index, or zero where it wrote nothing.
   */
  lemma PublishedFramePixels(old_contents: Option<Image>, frame: real, width: int, height: int,
                             rasterize: Rasterizer, x: nat, y: nat)
    requires x < width && y < height
    ensures var writes := rasterize(FullFrameRequest(frame, width, height)).writes;
      var i := y * width + x;
      PixelAt(PublishedFrame(old_contents, frame, width, height, rasterize).value, x, y)
        == Some(if i in writes then writes[i] else 0)
  {
    LottiePreviewRenderer.PaintedPixel(width, height, rasterize(FullFrameRequest(frame, width, height)).writes, x, y);
  }

  /**
   * A failed render still replaces the contents: what is published depends
   * only on what the rasterizer wrote, not on whether it threw.
   */
  lemma FailedRenderStillPublished(old_contents: Option<Image>, frame: real, width: int, height: int,
                                   rasterize: Rasterizer, other: Rasterizer)
    ensures var request := FullFrameRequest(frame, width, height);
      rasterize(request).writes == other(request).writes ==>
        PublishedFrame(old_contents, frame, width, height, rasterize)
          == PublishedFrame(old_contents, frame, width, height, other)
    ensures width > 0 && height > 0 ==> PublishedFrame(old_contents, frame, width, height, rasterize).Some?
  {
  }

  /** A published frame has the target's size and rows of `width * 4` bytes. */
  lemma PublishedFrameLayout(old_contents: Option<Image>, frame: real, width: int, height: int,
                             rasterize: Rasterizer)
    ensures width > 0 && height > 0 ==>
      var img := PublishedFrame(old_contents, frame, width, height, rasterize).value;
      && img.width == width && img.height == height
      && img.layout.bytesPerRow == width * 4
      && |img.data| == img.layout.bytesPerRow * height
  {
    if width > 0 && height > 0 {
      var buffer := Painted(Zeroes(width * height), rasterize(FullFrameRequest(frame, width, height)).writes);
      assert |buffer| == width * height;
      ScaleByFour(width, height, 0);
    }
  }

  class AnimationView {
    const lottie: Lottie
    const frameRate: real
    /** Whether a display link exists (and so is running). */
    var displayLinkRunning: bool
    var currentFrame: real
    var renderWidth: int
    var renderHeight: int
    var lastRenderTime: real
    /** `advanceFrame` blocks the callback has queued on the main queue and that have not run yet. */
    var queuedAdvances: nat
    /** `layer.contents`. */
    var layerContents: Option<Image>

    ghost predicate Valid()
      reads this
    {
      && frameRate == FrameRate(lottie.frameDuration)
      && FrameInRange(currentFrame, lottie.numberOfFrames)
    }

    /** `init(lottie:)`: stopped, at frame 0, with no render target yet. */
    constructor(lottie: Lottie)
      ensures Valid()
      ensures this.lottie == lottie && frameRate == FrameRate(lottie.frameDuration)
      ensures !displayLinkRunning && currentFrame == 0.0 && lastRenderTime == 0.0
      ensures renderWidth == 0 && renderHeight == 0
      ensures queuedAdvances == 0 && layerContents == None
    {
      this.lottie := lottie;
      var frameDuration := lottie.frameDuration;
      frameRate := if frameDuration > 0.0 then 1.0 / frameDuration else 30.0;
      displayLinkRunning := false;
      currentFrame := 0.0;
      renderWidth := 0;
      renderHeight := 0;
      lastRenderTime := 0.0;
      queuedAdvances := 0;
      layerContents := None;
    }

    /**
     * `play()`: does nothing when a display link exists; otherwise sets one up.
     * `linkCreated` is whether `CVDisplayLinkCreateWithActiveCGDisplays` gave a
     * link, and `now` the time it was started. The frame counter is never reset.
     */
    method Play(now: real, linkCreated: bool)
      requires Valid()
      modifies this
      ensures Valid()
      ensures old(displayLinkRunning) ==> unchanged(this)
      ensures !old(displayLinkRunning) ==>
        && displayLinkRunning == linkCreated
        && lastRenderTime == (if linkCreated then now else old(lastRenderTime))
      ensures currentFrame == old(currentFrame) && queuedAdvances == old(queuedAdvances)
      ensures renderWidth == old(renderWidth) && renderHeight == old(renderHeight)
      ensures layerContents == old(layerContents)
    {
      if displayLinkRunning {
        return;
      }
      SetupDisplayLink(now, linkCreated);
    }

    /** `setupDisplayLink()`: installs the callback, starts the link and restarts the interval clock. */
    method SetupDisplayLink(now: real, linkCreated: bool)
      requires Valid()
      modifies this
      ensures Valid()
      ensures displayLinkRunning == (linkCreated || old(displayLinkRunning))
      ensures lastRenderTime == (if linkCreated then now else old(lastRenderTime))
      ensures currentFrame == old(currentFrame) && queuedAdvances == old(queuedAdvances)
      ensures renderWidth == old(renderWidth) && renderHeight == old(renderHeight)
      ensures layerContents == old(layerContents)
    {
      if !linkCreated {
        return;
      }
      displayLinkRunning := true;
      lastRenderTime := now;
    }

    /** `stop()`: stops and drops the display link if there is one; nothing else changes. */
    method Stop()
      requires Valid()
      modifies this
      ensures Valid()
      ensures !displayLinkRunning
      ensures !old(displayLinkRunning) ==> unchanged(this)
      ensures currentFrame == old(currentFrame) && lastRenderTime == old(lastRenderTime)
      ensures queuedAdvances == old(queuedAdvances)
      ensures renderWidth == old(renderWidth) && renderHeight == old(renderHeight)
      ensures layerContents == old(layerContents)
    {
      if displayLinkRunning {
        displayLinkRunning := false;
      }
    }

    /** `deinit`: always stops the display link. */
    method Deinit()
      requires Valid()
      modifies this
      ensures Valid()
      ensures !displayLinkRunning
      ensures currentFrame == old(currentFrame) && lastRenderTime == old(lastRenderTime)
      ensures queuedAdvances == old(queuedAdvances) && layerContents == old(layerContents)
      ensures renderWidth == old(renderWidth) && renderHeight == old(renderHeight)
    {
      Stop();
    }

    /**
     * One firing of the display link's callback at time `now`. It is accepted
     * when `1 / frameRate` has elapsed since the last accepted firing; then one
     * frame advance is queued on the main queue and the clock restarts at `now`.
     * A rejected firing changes nothing.
     */
    method Tick(now: real) returns (accepted: bool)
      requires Valid() && displayLinkRunning
      modifies this
      ensures Valid()
      ensures accepted <==> TickDue(old(lastRenderTime), now, frameRate)
      ensures lastRenderTime == (if accepted then now else old(lastRenderTime))
      ensures queuedAdvances == old(queuedAdvances) + (if accepted then 1 else 0)
      ensures !accepted ==> unchanged(this)
      ensures displayLinkRunning && currentFrame == old(currentFrame)
      ensures renderWidth == old(renderWidth) && renderHeight == old(renderHeight)
      ensures layerContents == old(layerContents)
    {
      var timeSinceLastFrame := now - lastRenderTime;
      var targetInterval := 1.0 / frameRate;
      accepted := timeSinceLastFrame >= targetInterval;
      if accepted {
        queuedAdvances := queuedAdvances + 1;
        lastRenderTime := now;
      }
    }

    /** The main queue runs one queued `advanceFrame` block. */
    method RunQueuedAdvance(rasterize: Rasterizer)
      requires Valid() && queuedAdvances > 0
      modifies this
      ensures Valid()
      ensures queuedAdvances == old(queuedAdvances) - 1
      ensures currentFrame == NextFrame(old(currentFrame), lottie.numberOfFrames)
      ensures layerContents == PublishedFrame(old(layerContents), currentFrame, renderWidth, renderHeight, rasterize)
      ensures displayLinkRunning == old(displayLinkRunning) && lastRenderTime == old(lastRenderTime)
      ensures renderWidth == old(renderWidth) && renderHeight == old(renderHeight)
    {
      queuedAdvances := queuedAdvances - 1;
      AdvanceFrame(rasterize);
    }

    /** `advanceFrame()`: moves to the next frame (wrapping to 0) and renders it. */
    method AdvanceFrame(rasterize: Rasterizer)
      requires Valid()
      modifies this
      ensures Valid()
      ensures currentFrame == NextFrame(old(currentFrame), lottie.numberOfFrames)
      ensures layerContents == PublishedFrame(old(layerContents), currentFrame, renderWidth, renderHeight, rasterize)
      ensures displayLinkRunning == old(displayLinkRunning) && lastRenderTime == old(lastRenderTime)
      ensures queuedAdvances == old(queuedAdvances)
      ensures renderWidth == old(renderWidth) && renderHeight == old(renderHeight)
    {
      NextFrameInRange(currentFrame, lottie.numberOfFrames);
      currentFrame := currentFrame + 1.0;
      if currentFrame >= lottie.numberOfFrames {
        currentFrame := 0.0;
      }
      RenderFrame(rasterize);
    }

    /**
     * `renderFrame()`: with a positive target, renders the current frame into
     * a fresh zeroed buffer of `renderWidth * renderHeight` pixels, rows
     * `renderWidth` apart, and publishes the buffer even when the render throws.
     */
    method RenderFrame(rasterize: Rasterizer)
      requires Valid()
      modifies this
      ensures Valid()
      ensures layerContents == PublishedFrame(old(layerContents), currentFrame, renderWidth, renderHeight, rasterize)
      ensures currentFrame == old(currentFrame) && displayLinkRunning == old(displayLinkRunning)
      ensures lastRenderTime == old(lastRenderTime) && queuedAdvances == old(queuedAdvances)
      ensures renderWidth == old(renderWidth) && renderHeight == old(renderHeight)
    {
      if !(renderWidth > 0 && renderHeight > 0) {
        return;
      }
      var pixelCount := renderWidth * renderHeight;
      var buffer := new uint32[pixelCount](_ => 0);
      assert buffer[..] == Zeroes(pixelCount);
      var _ := Render(rasterize, FullFrameRequest(currentFrame, renderWidth, renderHeight), buffer);
      UpdateLayer(buffer[..]);
    }

    /** `updateLayer(with:)`: the buffer, as a `renderWidth` by `renderHeight` image, becomes the layer's contents. */
    method UpdateLayer(buffer: seq<uint32>)
      requires Valid()
      modifies this
      ensures Valid()
      ensures layerContents == Some(CreateImage(buffer, renderWidth, renderHeight))
      ensures currentFrame == old(currentFrame) && displayLinkRunning == old(displayLinkRunning)
      ensures lastRenderTime == old(lastRenderTime) && queuedAdvances == old(queuedAdvances)
      ensures renderWidth == old(renderWidth) && renderHeight == old(renderHeight)
    {
      layerContents := Some(CreateImage(buffer, renderWidth, renderHeight));
    }

    /**
     * `updateRenderSize()` for a view of `viewWidth` by `viewHeight` points,
     * with the window's and the main screen's backing scale when there are
     * such: sets the render target, or leaves it as it was when the view or the
     * frame has a non-positive side.
     */
    method UpdateRenderSize(viewWidth: real, viewHeight: real, windowScale: Option<real>, screenScale: Option<real>)
      requires Valid()
      modifies this
      ensures Valid()
      ensures var target := RenderTargetFor(lottie, viewWidth, viewHeight, BackingScale(windowScale, screenScale));
        if target.Some? then renderWidth == target.value.width && renderHeight == target.value.height
        else renderWidth == old(renderWidth) && renderHeight == old(renderHeight)
      ensures currentFrame == old(currentFrame) && displayLinkRunning == old(displayLinkRunning)
      ensures lastRenderTime == old(lastRenderTime) && queuedAdvances == old(queuedAdvances)
      ensures layerContents == old(layerContents)
    {
      if !(viewWidth > 0.0 && viewHeight > 0.0) {
        return;
      }
      var frameWidth, frameHeight := lottie.frameWidth, lottie.frameHeight;
      if !(frameWidth > 0.0 && frameHeight > 0.0) {
        return;
      }
      var backingScale := if windowScale.Some? then windowScale.value
        else if screenScale.Some? then screenScale.value
        else 1.0;
      var scale := AspectFitScale(viewWidth, viewHeight, frameWidth, frameHeight);
      renderWidth := Ceil(frameWidth * scale * backingScale);
      renderHeight := Ceil(frameHeight * scale * backingScale);
      RenderTargetSides(lottie, viewWidth, viewHeight, BackingScale(windowScale, screenScale), scale);
    }

    /** `layout()`: recomputes the render target for the view's size, then renders the current frame. */
    method Layout(viewWidth: real, viewHeight: real, windowScale: Option<real>, screenScale: Option<real>,
                  rasterize: Rasterizer)
      requires Valid()
      modifies this
      ensures Valid()
      ensures var target := RenderTargetFor(lottie, viewWidth, viewHeight, BackingScale(windowScale, screenScale));
        if target.Some? then renderWidth == target.value.width && renderHeight == target.value.height
        else renderWidth == old(renderWidth) && renderHeight == old(renderHeight)
      ensures layerContents == PublishedFrame(old(layerContents), currentFrame, renderWidth, renderHeight, rasterize)
      ensures currentFrame == old(currentFrame) && displayLinkRunning == old(displayLinkRunning)
      ensures lastRenderTime == old(lastRenderTime) && queuedAdvances == old(queuedAdvances)
    {
      UpdateRenderSize(viewWidth, viewHeight, windowScale, screenScale);
      RenderFrame(rasterize);
    }
  }
}
