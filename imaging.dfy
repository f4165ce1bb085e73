/**
 * The `CGImage` both renderers build from a pixel buffer: 8 bits per component,
 * 32 bits per pixel, rows of `width * 4` bytes, alpha premultiplied and first
 * in each 32-bit little-endian word (so a `UInt32` pixel is ARGB), over a copy
 * of the buffer's bytes.
 */
module Imaging {
  import opened Wrappers
  import opened Bytes

  datatype AlphaInfo = PremultipliedFirst
  datatype ByteOrder = Order32Little

  datatype Layout = Layout(bitsPerComponent: nat, bitsPerPixel: nat, bytesPerRow: int,
                           alphaInfo: AlphaInfo, byteOrder: ByteOrder)

  datatype Image = Image(width: int, height: int, layout: Layout, data: seq<byte>)

  /** The pixel layout for a buffer `width` pixels wide. */
  function BitmapLayout(width: int): (l: Layout)
    ensures l.bytesPerRow == width * (l.bitsPerPixel / 8)
    ensures l.bitsPerPixel == 4 * l.bitsPerComponent
  {
    Layout(8, 32, width * 4, PremultipliedFirst, Order32Little)
  }

  /** `CGImage(width:height:...provider:)` over `Data` copied from the buffer. */
  function CreateImage(buffer: seq<uint32>, width: int, height: int): (img: Image)
    ensures img.width == width && img.height == height && img.layout == BitmapLayout(width)
    ensures |img.data| == 4 * |buffer|
  {
    Image(width, height, BitmapLayout(width), LittleEndian(buffer))
  }

  /**
   * The 32-bit pixel at column `x`, row `y`, read back from the image's bytes
   * the way its layout describes them; `None` when those bytes lie outside the data.
   */
  function PixelAt(img: Image, x: nat, y: nat): Option<uint32>
  {
    var offset := y * img.layout.bytesPerRow + 4 * x;
    if 0 <= offset && offset + 4 <= |img.data| then Some(WordOf(img.data[offset .. offset + 4])) else None
  }

  /**
   * The layout agrees with the buffer's stride: reading pixel `(x, y)` from the
   * image gives buffer element `y * width + x`, and the image data is exactly
   * `bytesPerRow * height` bytes.
   */
  lemma CreateImageLayout(buffer: seq<uint32>, width: nat, height: nat, x: nat, y: nat)
    requires |buffer| == width * height && x < width && y < height
    ensures |CreateImage(buffer, width, height).data| == CreateImage(buffer, width, height).layout.bytesPerRow * height
    ensures y * width + x < |buffer|
    ensures PixelAt(CreateImage(buffer, width, height), x, y) == Some(buffer[y * width + x])
  {
    var img := CreateImage(buffer, width, height);
    RowIndexInRange(width, height, x, y);
    ScaleByFour(width, height, y);
    LittleEndianReadBack(buffer, y * width + x);
  }

  /** Index `y * width + x` of a cell in a `width` by `height` grid is below `width * height`. */
  lemma RowIndexInRange(width: nat, height: nat, x: nat, y: nat)
    requires x < width && y < height
    ensures y * width + x < width * height
  {
    assert y * width + x < y * width + width == (y + 1) * width;
    assert (y + 1) * width <= height * width;
  }

  lemma ScaleByFour(width: nat, height: nat, y: nat)
    ensures y * (width * 4) == 4 * (y * width)
    ensures 4 * (width * height) == (width * 4) * height
  {
  }

  /** With premultiplied-first alpha in a little-endian word, the alpha byte is the word's top byte. */
  lemma AlphaIsTopByte(buffer: seq<uint32>, width: int, height: int, i: nat)
    requires i < |buffer|
    ensures CreateImage(buffer, width, height).data[4 * i + 3] as int == buffer[i] as int / 0x100_0000
  {
    LittleEndianAt(buffer, i);
    assert CreateImage(buffer, width, height).data[4 * i + 3] == WordBytes(buffer[i])[3];
  }
}
