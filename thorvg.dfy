/**
 * The external rasterizer as the rest of the model sees it. Opening a file
 * (`Lottie(path:)`) is an outcome passed in by the caller; an opened animation
 * exposes only its metadata; and a render call is a function from the request
 * (frame, size, stride, content rectangle) to what the rasterizer writes into
 * the caller's buffer and whether it reported success. The pixels it draws are
 * a black box.
 */
module ThorVG {
  import opened Bytes

  /** Metadata of an opened animation: `frameSize` in points, `numberOfFrames`, and `frameDuration` in seconds. */
  datatype Lottie = Lottie(frameWidth: real, frameHeight: real, numberOfFrames: real, frameDuration: real)

  datatype Rect = Rect(x: int, y: int, width: int, height: int)

  /** The arguments of one `LottieRenderer(...)` + `render(frameIndex:contentRect:)` call. */
  datatype RenderRequest = RenderRequest(frameIndex: real, width: int, height: int, stride: int, contentRect: Rect)

  /** The pixels the rasterizer stores (by buffer index), and whether `render` returned without throwing. */
  datatype RenderOutcome = RenderOutcome(writes: map<nat, uint32>, succeeded: bool)

  type Rasterizer = RenderRequest -> RenderOutcome

  /**
   * How both renderers call the rasterizer: a `width` by `height` target, rows
   * `width` pixels apart, and the whole target as the content rectangle.
   */
  function FullFrameRequest(frameIndex: real, width: int, height: int): (r: RenderRequest)
    ensures r.width == width && r.height == height && r.stride == r.width
    ensures r.contentRect == Rect(0, 0, r.width, r.height)
  {
    RenderRequest(frameIndex, width, height, width, Rect(0, 0, width, height))
  }

  /** A buffer of `n` zero (fully transparent) pixels, `[UInt32](repeating: 0, count: n)`. */
  function Zeroes(n: nat): (z: seq<uint32>)
  {
    seq(n, _ => 0)
  }

  /** The buffer after the rasterizer has stored `writes` into it; writes outside the buffer are lost. */
  function Painted(buffer: seq<uint32>, writes: map<nat, uint32>): seq<uint32>
  {
    seq(|buffer|, i requires 0 <= i < |buffer| => if i in writes then writes[i] else buffer[i])
  }

  /** Painting keeps the length; a cell holds the write aimed at it, or its old value. */
  lemma PaintedAt(buffer: seq<uint32>, writes: map<nat, uint32>, i: nat)
    ensures |Painted(buffer, writes)| == |buffer|
    ensures i < |buffer| ==> Painted(buffer, writes)[i] == if i in writes then writes[i] else buffer[i]
  {
  }

  /** One render call: the rasterizer fills the caller's buffer in place and reports success or failure. */
  method Render(rasterize: Rasterizer, request: RenderRequest, buffer: array<uint32>) returns (ok: bool)
    modifies buffer
    ensures buffer[..] == Painted(old(buffer[..]), rasterize(request).writes)
    ensures ok == rasterize(request).succeeded
  {
    var outcome := rasterize(request);
    forall i | 0 <= i < buffer.Length && i in outcome.writes {
      buffer[i] := outcome.writes[i];
    }
    ok := outcome.succeeded;
  }
}
