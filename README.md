# thorvg.quicklook — a Dafny model of the Quick Look plug-in's core

thorvg.quicklook is a macOS Quick Look plug-in for Lottie animations (`.json`
and `.lot` files). It has two extensions built on one shared layer:

- **Shared**: `LottieFileHandler` decides from the extension and the first
  2048 bytes whether a file is likely a Lottie animation, and loads it
  through the ThorVG rasterizer. `LottiePreviewRenderer` renders one frame
  into a zero-filled ARGB buffer scaled to fit a maximum size. It then wraps
  the buffer as a 32-bit premultiplied-first, little-endian `CGImage`.
- **Preview extension**: `PreviewViewController` runs the content gate and
  the load. Depending on the outcome it installs a playing
  `LottieAnimationView`, reports `notALottieFile` silently, or shows a
  "Failed to load animation" label. `LottieAnimationView` is driven by a
  display link. A firing is accepted once a frame interval has passed. Each
  accepted firing advances the frame counter, wrapping it at the frame count,
  and renders the new frame at the view's size times the backing scale.
- **Thumbnail extension**: `ThumbnailProvider` answers a thumbnail request in
  one of three ways: a drawing reply, an error, or neither (the system then
  uses its default icon).

The model has these modules:

- `Wrappers`: `Option` and `Result`.
- `Bytes`: bytes, 32-bit words and little-endian packing.
- `Text`: ASCII lower-casing and substring search.
- `Utf8`: a strict UTF-8 decoder and encoder, per RFC 3629, with both round
  trips proved.
- `Geometry`: `ceil`, `min` and the aspect-fit scale, on exact reals.
- `Imaging`: the `CGImage` layout, and reading a pixel back from it.
- `ThorVG`: the rasterizer, treated as an oracle. It maps a render request
  to the pixels it writes and a success flag. `Render` applies those writes
  to an `array` in place.
- One module per core file: `LottieFileHandler`, `LottiePreviewRenderer`,
  `LottieAnimationView`, `PreviewViewController` and `ThumbnailProvider`.

Which form each part takes:

- `LottieAnimationView.AnimationView` and
  `PreviewViewController.PreviewController` are classes. Their methods
  update fields in place.
- `LottiePreviewRenderer.RenderFrame` is a method. It fills an array and is
  proved equal to the pure function `RenderedImage`.
- The file handler and the thumbnail decision are pure functions.
  `ProvideThumbnail` draws into the rectangle the source uses;
  `ProvideThumbnailCorrected` is the same decision with the drawing
  rectangle corrected (see "## Findings").

What the model takes as inputs:

- A file is its path extension plus the bytes `Data(contentsOf:)` would
  read, or `None` when the read fails.
- The rasterizer's own open-and-validate outcome is an `Option<Lottie>`
  parameter.
- Clock readings (`CFAbsoluteTimeGetCurrent`), whether a display link could
  be created, and the window and screen backing scales are parameters.

## Model

| member | source | states |
|---|---|---|
| LottieFileHandler.ErrorDescription | Shared/LottieFileHandler.swift:10-19 | `loadFailed`'s description is the fixed prefix followed by the underlying error's description |
| LottieFileHandler.ErrorDescriptionInjective | Shared/LottieFileHandler.swift:10-19 | two errors with the same description are the same error |
| LottieFileHandler.LoadLottie | Shared/LottieFileHandler.swift:29-44 | `invalidFormat` exactly when the lower-cased extension is neither `json` nor `lot`; `notALottieFile` exactly when it is one of them and the rasterizer does not open the file; success only with the opened animation; never `loadFailed` |
| LottieFileHandler.SniffedPrefix | Shared/LottieFileHandler.swift:61 | the inspected prefix is a prefix of the data, at most 2048 bytes long, and the whole data when that is shorter |
| LottieFileHandler.MatchingTokens | Shared/LottieFileHandler.swift:67 | the filter keeps exactly the indicators that occur in the content, and no more of them than there are |
| LottieFileHandler.MatchCountIsDistinct | Shared/LottieFileHandler.swift:66-67 | the filtered count equals the number of distinct indicators present; repeated keys count once |
| LottieFileHandler.IsLikelyLottieFile | Shared/LottieFileHandler.swift:50-74 | only a `json` or `lot` extension can pass, and a passing `json` file was read and its prefix decoded as UTF-8 |
| LottieFileHandler.LotIsLikely | Shared/LottieFileHandler.swift:53-56 | a `lot` extension, in any case, is accepted without reading the file |
| LottieFileHandler.OtherExtensionsUnlikely | Shared/LottieFileHandler.swift:73 | any extension other than `json` and `lot` is rejected |
| LottieFileHandler.JsonVerdict | Shared/LottieFileHandler.swift:59-71 | for `json`: an unreadable file or a prefix that is not UTF-8 is rejected; otherwise the file is likely Lottie exactly when at least 3 distinct indicators occur in the decoded text |
| LottieFileHandler.JsonVerdictOnBytes | Shared/LottieFileHandler.swift:60-70 | for a decodable prefix, the same verdict is obtained by searching the indicators' bytes in the raw prefix |
| LottieFileHandler.CutCharacterUnlikely | Shared/LottieFileHandler.swift:60-63 | a `json` file whose 2048-byte prefix splits a multi-byte character is rejected, whatever precedes the split |
| LottieFileHandler.NoIndicatorsUnlikely | Shared/LottieFileHandler.swift:66-70 | a `json` file whose decoded prefix contains no indicator is rejected |
| LottieFileHandler.PlainJsonUnlikely | Shared/LottieFileHandler.swift:66-70 | the ordinary JSON text `{"foo": 1}` is rejected |
| LottieFileHandler.SpacedKeysUnlikely | Shared/LottieFileHandler.swift:66-70 | keys are matched literally: `"v" :`, `"fr" :`, `"ip" :` with a space before the colon match no indicator, so the file is rejected |
| Text.Contains | Shared/LottieFileHandler.swift:67 | `content.contains(t)` holds exactly when `t` occurs at some position of `content` |
| Text.LowercasedAt | Shared/LottieFileHandler.swift:30 | each character of the lower-cased extension is the lower-case form of the original character, and no capital remains |
| Utf8.DecodeEncode | Shared/LottieFileHandler.swift:61 | the decoder used for `String(data:encoding: .utf8)` inverts UTF-8 encoding |
| Utf8.EncodeDecode | Shared/LottieFileHandler.swift:61 | every byte sequence the decoder accepts is the encoding of the decoded string, so decoding is strict |
| Utf8.AsciiContains | Shared/LottieFileHandler.swift:61-67 | a 7-bit indicator occurs in the decoded text exactly when its bytes occur in the raw data |
| Utf8.TruncatedTailRejected | Shared/LottieFileHandler.swift:61 | a decodable prefix followed by one stray byte of value 0x80 or more does not decode |
| Geometry.AspectFitScale | Shared/LottiePreviewRenderer.swift:19 | the scaled frame fits inside the box in both directions and reaches it in at least one |
| Geometry.AspectFitScalePositive | Shared/LottiePreviewRenderer.swift:19 | for a non-empty frame, the scale is positive exactly when the box has positive sides |
| Geometry.Ceil | Shared/LottiePreviewRenderer.swift:20-21 | `ceil(x)` is the integer `n` with `x <= n < x + 1` |
| Geometry.CeilKeepsAspect | Shared/LottiePreviewRenderer.swift:20-21 | rounding both scaled sides up changes the aspect ratio by less than one pixel's worth |
| LottiePreviewRenderer.RenderSize | Shared/LottiePreviewRenderer.swift:14-25 | a size is produced only for a frame with positive sides, and it is at least 1 pixel in each direction |
| LottiePreviewRenderer.RenderSizeWhen | Shared/LottiePreviewRenderer.swift:14-25 | a pixel size is produced exactly when the frame and the maximum size both have positive sides |
| LottiePreviewRenderer.RenderSizeFits | Shared/LottiePreviewRenderer.swift:19-25 | the produced size is at least 1 and at most the rounded-up maximum in each direction, and equals it in one |
| LottiePreviewRenderer.RenderSizeAspect | Shared/LottiePreviewRenderer.swift:19-21 | the produced size keeps the frame's aspect ratio up to rounding |
| LottiePreviewRenderer.RenderFrame | Shared/LottiePreviewRenderer.swift:9-53 | the method, which zero-fills an array and lets the rasterizer paint it in place, returns exactly `RenderedImage` |
| LottiePreviewRenderer.RenderedImage | Shared/LottiePreviewRenderer.swift:14-52 | a returned image has exactly the pixel size `RenderSize` computes |
| LottiePreviewRenderer.RenderedImageWhen | Shared/LottiePreviewRenderer.swift:14-50 | an image is returned exactly when both guards pass and the render call succeeds |
| LottiePreviewRenderer.RenderedImageLayout | Shared/LottiePreviewRenderer.swift:52-66 | a returned image has the computed size, rows of `width * 4` bytes and `width * height * 4` bytes of data |
| LottiePreviewRenderer.RenderedImagePixels | Shared/LottiePreviewRenderer.swift:27-66 | pixel `(x, y)` read back from the image is what the rasterizer wrote at buffer index `y * width + x`, or 0 (transparent) if it wrote nothing there |
| LottiePreviewRenderer.DefaultSizeBound | Shared/LottiePreviewRenderer.swift:11-12 | with the default maximum size, the image is at most 800 by 800 pixels and 800 in one direction |
| Imaging.CreateImageLayout | Shared/LottiePreviewRenderer.swift:55-66 | the image's stride agrees with the buffer's: its data is `bytesPerRow * height` bytes, and pixel `(x, y)` is buffer element `y * width + x` |
| Imaging.AlphaIsTopByte | Shared/LottiePreviewRenderer.swift:66 | with premultiplied-first alpha in a little-endian word, the alpha byte of each pixel is its word's top byte |
| Bytes.LittleEndianReadBack | Shared/LottiePreviewRenderer.swift:56 | reading a word back from the buffer's bytes gives the word that was stored |
| ThorVG.Render | Shared/LottiePreviewRenderer.swift:42-47 | the buffer afterwards is the old buffer with the rasterizer's writes applied, and the result is the render call's success |
| ThorVG.FullFrameRequest | Shared/LottiePreviewRenderer.swift:32-40 | the renderer is given the buffer's size, a stride equal to the width, and a content rect covering the whole buffer |
| ThorVG.PaintedAt | Shared/LottiePreviewRenderer.swift:27-43 | painting keeps the buffer's length; each cell holds the write aimed at it, or its old value |
| LottieAnimationView.FrameRate | PreviewExtension/LottieAnimationView.swift:18-19 | the frame rate is always positive |
| LottieAnimationView.TargetInterval | PreviewExtension/LottieAnimationView.swift:18-19 | the callback's target interval `1 / frameRate` is the frame duration, or 1/30 s when there is no positive duration |
| LottieAnimationView.TwentyFourFps | PreviewExtension/LottieAnimationView.swift:18-19 | an animation with frames of 1/24 s plays at 24 frames per second |
| LottieAnimationView.TickDue | PreviewExtension/LottieAnimationView.swift:76-79 | a firing is accepted only when the clock has moved past the last accepted firing |
| LottieAnimationView.TickDueAfterInterval | PreviewExtension/LottieAnimationView.swift:76-79 | a firing is accepted exactly when a whole frame duration (or 1/30 s) has elapsed since the last accepted one |
| LottieAnimationView.NextFrame | PreviewExtension/LottieAnimationView.swift:96-100 | advancing from a counter in range (0, or within `[0, numberOfFrames)`) stays in range |
| LottieAnimationView.NextFrameInRange | PreviewExtension/LottieAnimationView.swift:96-100 | advancing keeps the frame counter at 0 or within `[0, numberOfFrames)` |
| LottieAnimationView.NextFrameModulo | PreviewExtension/LottieAnimationView.swift:97-100 | for whole-numbered frames, advancing is the successor modulo the frame count |
| LottieAnimationView.LastFrameWraps | PreviewExtension/LottieAnimationView.swift:97-100 | in a 100-frame animation, frame 99 is followed by 0 and frame 98 by 99 |
| LottieAnimationView.AdvancedModulo | PreviewExtension/LottieAnimationView.swift:96-100 | after `k` advances from frame `c`, the counter is `(c + k) % numberOfFrames` |
| LottieAnimationView.AdvancedFullCycle | PreviewExtension/LottieAnimationView.swift:96-100 | `numberOfFrames` advances bring playback back to the starting frame |
| LottieAnimationView.BackingScale | PreviewExtension/LottieAnimationView.swift:48 | the window's scale when there is a window; otherwise the screen's scale when there is a screen; otherwise 1 |
| LottieAnimationView.RenderTargetFor | PreviewExtension/LottieAnimationView.swift:40-52 | a target is computed only when the view and the frame both have positive sides |
| LottieAnimationView.RenderTargetWhen | PreviewExtension/LottieAnimationView.swift:40-45 | a render target is computed exactly when the view and the frame both have positive sides |
| LottieAnimationView.RenderTargetMatchesRenderSize | PreviewExtension/LottieAnimationView.swift:40-53 | at a backing scale of 1, the view computes a target exactly when the static renderer computes a size for a maximum size equal to the view's, and the two have the same width and height |
| LottieAnimationView.RenderTargetAspect | PreviewExtension/LottieAnimationView.swift:50-52 | the target keeps the frame's aspect ratio up to rounding: `width * frameHeight - height * frameWidth` lies strictly between `-frameWidth` and `frameHeight` |
| LottieAnimationView.RenderTargetFits | PreviewExtension/LottieAnimationView.swift:48-52 | with a positive backing scale, the target is at least 1 pixel and at most the view in device pixels in each direction, and fills the view in one |
| LottieAnimationView.RetinaScenario | PreviewExtension/LottieAnimationView.swift:48-52 | a 512 by 512 animation in an 800 by 800 view with window backing scale 2 renders at 1600 by 1600 pixels |
| LottieAnimationView.PublishedFrame | PreviewExtension/LottieAnimationView.swift:104-131 | a positive target always publishes an image of exactly that size; any other target leaves the contents as they were |
| LottieAnimationView.PublishedFramePixels | PreviewExtension/LottieAnimationView.swift:104-131 | pixel `(x, y)` of a published frame is what the rasterizer wrote at buffer index `y * renderWidth + x`, or 0 where it wrote nothing |
| LottieAnimationView.FailedRenderStillPublished | PreviewExtension/LottieAnimationView.swift:123-130 | a render that throws still publishes the buffer, so the contents depend only on what was written |
| LottieAnimationView.PublishedFrameLayout | PreviewExtension/LottieAnimationView.swift:133-149 | a published frame has the target's size and rows of `renderWidth * 4` bytes covering all its data |
| LottieAnimationView.AnimationView.constructor | PreviewExtension/LottieAnimationView.swift:15-24 | a new view is stopped, at frame 0, has no render target, and its frame rate comes from the frame duration |
| LottieAnimationView.AnimationView.Play | PreviewExtension/LottieAnimationView.swift:55-58 | with a display link, nothing changes; otherwise a link is set up, and the frame counter is never reset |
| LottieAnimationView.AnimationView.SetupDisplayLink | PreviewExtension/LottieAnimationView.swift:67-94 | if a link is created it runs and the interval clock restarts at `now`; otherwise nothing changes |
| LottieAnimationView.AnimationView.Stop | PreviewExtension/LottieAnimationView.swift:60-65 | the link is stopped and dropped; no other state changes |
| LottieAnimationView.AnimationView.Deinit | PreviewExtension/LottieAnimationView.swift:157-159 | releasing the view always stops its display link |
| LottieAnimationView.AnimationView.Tick | PreviewExtension/LottieAnimationView.swift:72-87 | a firing is accepted exactly when `1 / frameRate` has elapsed; an accepted firing queues one advance and restarts the clock; a rejected one changes nothing |
| LottieAnimationView.AnimationView.RunQueuedAdvance | PreviewExtension/LottieAnimationView.swift:80-82 | running one queued block consumes it, moves to the next frame and publishes that frame |
| LottieAnimationView.AnimationView.AdvanceFrame | PreviewExtension/LottieAnimationView.swift:96-102 | the counter becomes `NextFrame` of the old one and stays in range; the new frame is rendered and published |
| LottieAnimationView.AnimationView.RenderFrame | PreviewExtension/LottieAnimationView.swift:104-131 | with a positive target, the contents become the zero-filled buffer as the rasterizer painted it, whether or not the render threw; otherwise they are unchanged |
| LottieAnimationView.AnimationView.UpdateLayer | PreviewExtension/LottieAnimationView.swift:133-155 | the contents become the buffer, as a `renderWidth` by `renderHeight` image in the same layout as the renderer's |
| LottieAnimationView.AnimationView.UpdateRenderSize | PreviewExtension/LottieAnimationView.swift:40-53 | the target becomes `RenderTargetFor` at the window's backing scale, else the screen's, else 1; it is unchanged when a guard fails |
| LottieAnimationView.AnimationView.Layout | PreviewExtension/LottieAnimationView.swift:34-38 | the target is recomputed for the view's size, then the current frame is published at that size |
| PreviewViewController.PreviewOutcomeFor | PreviewExtension/PreviewViewController.swift:22-58 | the animation shown is the opened one, of a file that passes the content heuristic; a silent report is always `notALottieFile`, and a report with the error label is always `invalidFormat` |
| PreviewViewController.Reported | PreviewExtension/PreviewViewController.swift:22-58 | the handler receives no error exactly when the animation is shown |
| PreviewViewController.RejectedJsonReported | PreviewExtension/PreviewViewController.swift:26-33 | a `json` file that fails the content heuristic is reported as `notALottieFile` without being loaded |
| PreviewViewController.ShowsAnimationWhen | PreviewExtension/PreviewViewController.swift:26-43 | the animation is shown exactly when the file passes the gate, has a supported extension and opens, and it is then the opened animation |
| PreviewViewController.ErrorLabelOnlyForUnsupported | PreviewExtension/PreviewViewController.swift:35-56 | the error label is shown exactly for an unsupported extension, with `invalidFormat`; every silent report is `notALottieFile` |
| PreviewViewController.PreviewController.constructor | PreviewExtension/PreviewViewController.swift:11-15 | after `loadView`, no animation view, no label and no subviews |
| PreviewViewController.PreviewController.ViewDidDisappear | PreviewExtension/PreviewViewController.swift:17-20 | the animation view, if any, stops playing, keeping its frame, contents, render target, interval clock and queued advances; the controller's slots and subviews are unchanged |
| PreviewViewController.PreviewController.SetupAnimationView | PreviewExtension/PreviewViewController.swift:60-78 | the only subview becomes a new animation view of `lottie` at frame 0, playing when a link was created, with its interval clock at `now` (else 0), no render target, no queued advances and no contents; the label slot is kept and the replaced view is stopped |
| PreviewViewController.PreviewController.ShowError | PreviewExtension/PreviewViewController.swift:80-100 | the only subview becomes a new label showing `message`; the animation view slot is untouched |
| PreviewViewController.PreviewController.PreparePreview | PreviewExtension/PreviewViewController.swift:22-58 | the handler gets the outcome's error. Showing the animation installs a new view as `SetupAnimationView` describes (frame 0, clock, no render target, no queued advances, no contents), keeps the label slot and stops the replaced view; a silent report changes nothing shown; otherwise the "Failed to load animation" label is shown. Unless the animation is shown, the old animation view is left untouched |
| ThumbnailProvider.ProvideThumbnail | ThumbnailExtension/ThumbnailProvider.swift:7-82 | the handler never receives a reply and an error together |
| ThumbnailProvider.ThumbnailSize | ThumbnailExtension/ThumbnailProvider.swift:34-37 | `thumbnailSize` has whole-number sides; ThumbnailSizeIsRenderSize, ThumbnailSizeFits and ThumbnailSizeAspect prove it is the renderer's size for the maximum size, fits it and keeps the frame's aspect |
| ThumbnailProvider.PixelSize | ThumbnailExtension/ThumbnailProvider.swift:39-42 | `pixelSize` has whole-number sides; PixelSizeFits proves it fits the maximum size times the device scale, and PixelSizeAtUnitScale that it is `thumbnailSize` at scale 1 |
| ThumbnailProvider.PixelSizeAtUnitScale | ThumbnailExtension/ThumbnailProvider.swift:34-42 | at a device scale of 1 the pixel size equals the thumbnail size |
| ThumbnailProvider.ThumbnailSizeIsRenderSize | ThumbnailExtension/ThumbnailProvider.swift:31-37 | for a non-empty frame and maximum size, `thumbnailSize` is the size the shared renderer computes for the same maximum size |
| ThumbnailProvider.ThumbnailSizeFits | ThumbnailExtension/ThumbnailProvider.swift:31-37 | so the context is at least 1 and at most the rounded-up maximum size in each direction, and reaches it in one |
| ThumbnailProvider.ThumbnailSizeAspect | ThumbnailExtension/ThumbnailProvider.swift:31-37 | the context keeps the frame's aspect ratio up to rounding: `width * frameHeight - height * frameWidth` lies strictly between `-frameWidth` and `frameHeight` |
| ThumbnailProvider.PixelSizeFits | ThumbnailExtension/ThumbnailProvider.swift:31-42 | for a positive device scale, `pixelSize` is at least 1 and at most the maximum size times the scale, rounded up, in each direction, and reaches it in one |
| ThumbnailProvider.RejectedJsonIgnored | ThumbnailExtension/ThumbnailProvider.swift:15-20 | a `json` file that fails the content heuristic gets neither a reply nor an error, whatever it would have opened to |
| ThumbnailProvider.LoadErrorReported | ThumbnailExtension/ThumbnailProvider.swift:22-23 | a failed load is passed to the handler as its own error, without a reply |
| ThumbnailProvider.ReportedErrors | ThumbnailExtension/ThumbnailProvider.swift:22-29 | `notALottieFile` exactly when a supported file fails to open; `invalidFormat` exactly for an unsupported extension or an empty frame; never any other error |
| ThumbnailProvider.ReplyWhen | ThumbnailExtension/ThumbnailProvider.swift:22-76 | a reply is given exactly when the file passes the gate, opens with a non-empty frame, renders at the pixel size and yields a `CGImage` |
| ThumbnailProvider.ReplyContents | ThumbnailExtension/ThumbnailProvider.swift:31-76 | a reply's context is the thumbnail size, the fill and the drawing both use the rectangle of the pixel size at the origin, and the reply carries frame 0 rendered to fit the pixel size |
| ThumbnailProvider.ImageFillsPixelSize | ThumbnailExtension/ThumbnailProvider.swift:39-49 | the image handed over is at most the pixel size in each direction and equal to it in one |
| ThumbnailProvider.RetinaSizes | ThumbnailExtension/ThumbnailProvider.swift:31-42 | a 512 by 512 animation at 800 by 800 points and scale 2 has an 800 by 800 context and a 1600 by 1600 pixel size |
| ThumbnailProvider.DrawRectAsWrittenOverflows | ThumbnailExtension/ThumbnailProvider.swift:57-71 | for that request, a reply has an 800 by 800 context but fills and draws into a 1600 by 1600 rectangle, twice the context in each direction |
| ThumbnailProvider.CorrectedReplyFillsContext | ThumbnailExtension/ThumbnailProvider.swift:57-71 | with the drawing block corrected, the error and the presence, context and image of the reply are unchanged, and the fill and the drawing cover exactly the context |
| ThumbnailProvider.CorrectedRetinaReply | ThumbnailExtension/ThumbnailProvider.swift:57-71 | with the correction, the 2x request above fills and draws into exactly its 800 by 800 context |
| ThumbnailProvider.DrawRectAsWritten | ThumbnailExtension/ThumbnailProvider.swift:59-64 | `pixelRect` agrees with the rectangle of the whole context exactly when the pixel size equals the thumbnail size; DrawRectAsWrittenOverflows shows it exceeding the context at scale 2 |

## Left out

- Lower-casing covers ASCII capitals only. `String.lowercased()` also maps
  other scripts' letters. The extension is only ever compared with `json` and
  `lot`, and no non-ASCII character lower-cases to a letter of either.
- Swift's `String.contains` compares extended grapheme clusters. The model
  compares Unicode scalars. The two differ whenever a grapheme cluster
  straddles the first or last character of an indicator.
- LottieFileHandler.ErrorDescriptionInjective: `loadFailed` carries the
  underlying error's description string rather than the `Error` value. Two
  underlying errors with the same description are therefore one error in the
  model, and injectivity is stated for descriptions only.
- The UTF-8 decoder does not treat a byte-order mark specially.
- `Float`, `Double`, `CGFloat` and `CFTimeInterval` are exact reals. Rounding
  and `Int(ceil(...))` trapping on values too large or not finite are not
  modelled.
- The display-link callback runs on its own thread, and `advanceFrame` runs on
  the main queue. The model runs them as separate method calls in an order
  the caller chooses, so it does not capture the unsynchronised access to
  `lastRenderTime` or `[weak self]` becoming nil.
- PreviewViewController.PreviewController.SetupAnimationView: the replaced
  view is stopped at once. In the source, a block queued by its display link
  (`DispatchQueue.main.async { view.advanceFrame() }`) keeps a strong
  reference to it, so its `deinit` and the `stop()` that follows wait until
  those blocks have run, and the link can keep firing until then.
- `PreparePreview`: the background and main queue blocks run to completion in
  order. Interleaving with other events is not modelled.
- `LottieAnimationView.AnimationView.Tick`: requires a running display link,
  because the callback is only ever invoked by a started link.
- `CGDataProvider` and `CGImage` creation are taken to succeed in both
  renderers. In `ThumbnailProvider`, the failure of `NSImage.cgImage(...)` is
  a parameter.
- ThorVG (opening, validating and rasterizing an animation) is outside the
  model. The open is an `Option` parameter, and rendering is a function from
  the request to the pixels written and a success flag.
- File reading and `url.pathExtension` are inputs: the model takes the file's
  contents and its path extension.
- Auto Layout constraints, fonts, colours, `isFlipped`, `wantsLayer`,
  `contentsGravity`, `CATransaction` and `init(coder:)` are not modelled,
  because they only affect presentation.
- The white fill colour and the actual drawing in the thumbnail's drawing
  block are not modelled, only the rectangles they use.
- The host application's installer and its user interface are outside the
  plug-in's core.

## Findings

| source | as written | input that shows it | evidently intended | confidence | as-written member | corrected member |
|---|---|---|---|---|---|---|
| ThumbnailExtension/ThumbnailProvider.swift:57-71 | the reply's context is `thumbnailSize` points, but the drawing block fills and draws into `pixelRect`, which is `pixelSize`, the thumbnail size times the device scale | a 512 by 512 animation with a maximum size of 800 by 800 and scale 2.0: an 800 by 800 context, with the image drawn into a 1600 by 1600 rectangle, so only a quarter of it shows | draw the image so that it fills the entire context, as the comment on line 70 says (a rectangle of `thumbnailSize`) | not executed; medium, as it rests on the context's coordinates being points, the unit of `contextSize` | ThumbnailProvider.DrawRectAsWrittenOverflows | ThumbnailProvider.CorrectedReplyFillsContext |
