/**
 * Fixed-width machine integers of the source: bytes of file data and of image
 * data, and the 32-bit words (`UInt32`) of a pixel buffer, together with the
 * little-endian byte view that `withUnsafeBytes` gives of a `[UInt32]` on the
 * (little-endian) Apple platforms.
 */
module Bytes {

  newtype byte = b: int | 0 <= b < 0x100

  newtype uint32 = w: int | 0 <= w < 0x1_0000_0000

  /** The four bytes of a word in memory, least significant first. */
  function WordBytes(w: uint32): (b: seq<byte>)
    ensures |b| == 4
  {
    var q1 := w as int / 0x100;
    var q2 := q1 / 0x100;
    [(w as int % 0x100) as byte, (q1 % 0x100) as byte, (q2 % 0x100) as byte, (q2 / 0x100) as byte]
  }

  /** The word that four bytes in memory hold, least significant first. */
  function WordOf(b: seq<byte>): uint32
    requires |b| == 4
  {
    (b[0] as int + 0x100 * (b[1] as int + 0x100 * (b[2] as int + 0x100 * b[3] as int))) as uint32
  }

  lemma WordRoundTrip(w: uint32)
    ensures WordOf(WordBytes(w)) == w
  {
    var q1 := w as int / 0x100;
    var q2 := q1 / 0x100;
    assert w as int == w as int % 0x100 + 0x100 * q1;
    assert q1 == q1 % 0x100 + 0x100 * q2;
    assert q2 == q2 % 0x100 + 0x100 * (q2 / 0x100);
  }

  /** The byte view of a word buffer: each word in turn, least significant byte first. */
  function LittleEndian(ws: seq<uint32>): (b: seq<byte>)
    ensures |b| == 4 * |ws|
  {
    if ws == [] then [] else WordBytes(ws[0]) + LittleEndian(ws[1..])
  }

  /** Word `i` of the buffer occupies bytes `4*i .. 4*i+4` of its byte view. */
  lemma {:induction false} LittleEndianAt(ws: seq<uint32>, i: nat)
    requires i < |ws|
    ensures LittleEndian(ws)[4 * i .. 4 * i + 4] == WordBytes(ws[i])
  {
    if i > 0 {
      LittleEndianAt(ws[1..], i - 1);
      assert LittleEndian(ws) == WordBytes(ws[0]) + LittleEndian(ws[1..]);
      assert LittleEndian(ws)[4 * i .. 4 * i + 4] == LittleEndian(ws[1..])[4 * (i - 1) .. 4 * (i - 1) + 4];
    }
  }

  /** Reading every word back from the byte view gives the buffer back. */
  lemma LittleEndianReadBack(ws: seq<uint32>, i: nat)
    requires i < |ws|
    ensures WordOf(LittleEndian(ws)[4 * i .. 4 * i + 4]) == ws[i]
  {
    LittleEndianAt(ws, i);
    WordRoundTrip(ws[i]);
  }
}
