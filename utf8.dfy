/**
 * UTF-8 as defined by RFC 3629, the decoding that `String(data:encoding: .utf8)`
 * performs: a byte sequence decodes to a string exactly when it is a
 * concatenation of well-formed UTF-8 sequences (section 4 of RFC 3629), and to
 * no string otherwise. The encoder is the partner the decoder is proved against.
 */
module Utf8 {
  import opened Wrappers
  import opened Bytes
  import opened Text

  predicate IsContinuation(b: byte)
  {
    0x80 <= b <= 0xBF
  }

  /**
   * The length of the well-formed UTF-8 sequence at the head of `b`, or 0 when
   * `b` does not start with one. The ranges of the second byte exclude overlong
   * forms, the UTF-16 surrogates and values beyond U+10FFFF.
   */
  function SequenceLength(b: seq<byte>): (n: nat)
    ensures n <= |b| && n <= 4
    ensures n == 1 <==> |b| > 0 && b[0] < 0x80
  {
    if |b| == 0 then 0
    else if b[0] <= 0x7F then 1
    else if 0xC2 <= b[0] <= 0xDF then
      if |b| >= 2 && IsContinuation(b[1]) then 2 else 0
    else if 0xE0 <= b[0] <= 0xEF then
      var lo := if b[0] == 0xE0 then 0xA0 else 0x80;
      var hi := if b[0] == 0xED then 0x9F else 0xBF;
      if |b| >= 3 && lo <= b[1] <= hi && IsContinuation(b[2]) then 3 else 0
    else if 0xF0 <= b[0] <= 0xF4 then
      var lo := if b[0] == 0xF0 then 0x90 else 0x80;
      var hi := if b[0] == 0xF4 then 0x8F else 0xBF;
      if |b| >= 4 && lo <= b[1] <= hi && IsContinuation(b[2]) && IsContinuation(b[3]) then 4 else 0
    else 0
  }

  /** The code point of the well-formed sequence at the head of `b`. */
  function ScalarValue(b: seq<byte>): (v: int)
    requires SequenceLength(b) > 0
  {
    var n := SequenceLength(b);
    if n == 1 then b[0] as int
    else if n == 2 then (b[0] as int - 0xC0) * 0x40 + (b[1] as int - 0x80)
    else if n == 3 then
      (b[0] as int - 0xE0) * 0x1000 + (b[1] as int - 0x80) * 0x40 + (b[2] as int - 0x80)
    else
      (b[0] as int - 0xF0) * 0x40000 + (b[1] as int - 0x80) * 0x1000
        + (b[2] as int - 0x80) * 0x40 + (b[3] as int - 0x80)
  }

  /** A code point that is a Unicode scalar value, i.e. a Dafny `char`. */
  predicate IsScalar(v: int)
  {
    0 <= v < 0xD800 || 0xE000 <= v < 0x11_0000
  }

  /** Each well-formed sequence encodes a scalar value in the range its length allows. */
  lemma ScalarValueRange(b: seq<byte>)
    requires SequenceLength(b) > 0
    ensures IsScalar(ScalarValue(b))
    ensures SequenceLength(b) == 1 ==> ScalarValue(b) < 0x80
    ensures SequenceLength(b) == 2 ==> 0x80 <= ScalarValue(b) < 0x800
    ensures SequenceLength(b) == 3 ==> 0x800 <= ScalarValue(b) < 0x1_0000
    ensures SequenceLength(b) == 4 ==> 0x1_0000 <= ScalarValue(b)
  {
  }

  function Scalar(b: seq<byte>): (c: char)
    requires SequenceLength(b) > 0
    ensures c as int == ScalarValue(b)
  {
    ScalarValueRange(b);
    ScalarValue(b) as char
  }

  /** `String(data:encoding: .utf8)`: the decoded string, or `None` for ill-formed input. */
  function Decode(b: seq<byte>): (r: Option<string>)
    decreases |b|
  {
    if b == [] then Some([])
    else
      var n := SequenceLength(b);
      if n == 0 then None
      else
        match Decode(b[n..])
        case None => None
        case Some(rest) => Some([Scalar(b)] + rest)
  }

  /** The UTF-8 form of one scalar value, per the table in section 3 of RFC 3629. */
  function EncodeScalar(c: char): (e: seq<byte>)
  {
    var v := c as int;
    if v < 0x80 then [v as byte]
    else if v < 0x800 then [(0xC0 + v / 0x40) as byte, (0x80 + v % 0x40) as byte]
    else if v < 0x1_0000 then
      [(0xE0 + v / 0x1000) as byte, (0x80 + v / 0x40 % 0x40) as byte, (0x80 + v % 0x40) as byte]
    else
      [(0xF0 + v / 0x40000) as byte, (0x80 + v / 0x1000 % 0x40) as byte,
       (0x80 + v / 0x40 % 0x40) as byte, (0x80 + v % 0x40) as byte]
  }

  function Encode(s: string): (b: seq<byte>)
  {
    if s == [] then [] else EncodeScalar(s[0]) + Encode(s[1..])
  }

  /** The encoding of a scalar is one well-formed sequence that decodes back to it. */
  lemma EncodeScalarWellFormed(c: char)
    ensures SequenceLength(EncodeScalar(c)) == |EncodeScalar(c)|
    ensures ScalarValue(EncodeScalar(c)) == c as int
  {
    var v := c as int;
    if 0x800 <= v < 0x1_0000 {
      assert v == (v / 0x1000) * 0x1000 + (v / 0x40 % 0x40) * 0x40 + v % 0x40;
    } else if 0x1_0000 <= v {
      assert v == (v / 0x40000) * 0x40000 + (v / 0x1000 % 0x40) * 0x1000 + (v / 0x40 % 0x40) * 0x40 + v % 0x40;
    }
  }

  /** The decoder looks only at the bytes of the leading sequence. */
  lemma SequenceLengthOfPrefix(e: seq<byte>, rest: seq<byte>)
    requires SequenceLength(e) == |e| > 0
    ensures SequenceLength(e + rest) == |e|
    ensures ScalarValue(e + rest) == ScalarValue(e)
  {
    assert (e + rest)[..|e|] == e;
  }

  /** Decoding inverts encoding. */
  lemma {:induction false} DecodeEncode(s: string)
    ensures Decode(Encode(s)) == Some(s)
  {
    if s != [] {
      var e := EncodeScalar(s[0]);
      EncodeScalarWellFormed(s[0]);
      SequenceLengthOfPrefix(e, Encode(s[1..]));
      assert Encode(s) == e + Encode(s[1..]);
      assert Encode(s)[|e|..] == Encode(s[1..]);
      assert Scalar(Encode(s)) == s[0];
      DecodeEncode(s[1..]);
      assert |e| > 0 && SequenceLength(Encode(s)) == |e|;
      assert s == [s[0]] + s[1..];
    }
  }

  lemma DivBy40(q: int, r: int)
    requires 0 <= r < 0x40
    ensures (q * 0x40 + r) / 0x40 == q && (q * 0x40 + r) % 0x40 == r
  {
  }

  lemma DivBy1000(q: int, r: int)
    requires 0 <= r < 0x1000
    ensures (q * 0x1000 + r) / 0x1000 == q
  {
  }

  lemma DivBy40000(q: int, r: int)
    requires 0 <= r < 0x40000
    ensures (q * 0x40000 + r) / 0x40000 == q
  {
  }

  /** Encoding the leading scalar gives back the bytes it was decoded from. */
  lemma EncodeScalarValue(b: seq<byte>)
    requires SequenceLength(b) > 0
    ensures EncodeScalar(Scalar(b)) == b[..SequenceLength(b)]
  {
    var n := SequenceLength(b);
    ScalarValueRange(b);
    if n == 2 {
      DivBy40(b[0] as int - 0xC0, b[1] as int - 0x80);
    } else if n == 3 {
      var hi := (b[0] as int - 0xE0) * 0x40 + (b[1] as int - 0x80);
      DivBy40(hi, b[2] as int - 0x80);
      DivBy40(b[0] as int - 0xE0, b[1] as int - 0x80);
      DivBy1000(b[0] as int - 0xE0, (b[1] as int - 0x80) * 0x40 + (b[2] as int - 0x80));
    } else if n == 4 {
      var mid := (b[0] as int - 0xF0) * 0x40 + (b[1] as int - 0x80);
      var hi := mid * 0x40 + (b[2] as int - 0x80);
      DivBy40(hi, b[3] as int - 0x80);
      DivBy40(mid, b[2] as int - 0x80);
      DivBy40(b[0] as int - 0xF0, b[1] as int - 0x80);
      DivBy1000(mid, (b[2] as int - 0x80) * 0x40 + (b[3] as int - 0x80));
      DivBy40000(b[0] as int - 0xF0, (b[1] as int - 0x80) * 0x1000 + (b[2] as int - 0x80) * 0x40 + (b[3] as int - 0x80));
    }
  }

  /** Encoding inverts decoding: a decodable byte sequence is the encoding of its decoded string. */
  lemma {:induction false} EncodeDecode(b: seq<byte>, s: string)
    requires Decode(b) == Some(s)
    ensures Encode(s) == b
    decreases |b|
  {
    if b != [] {
      var n := SequenceLength(b);
      var rest :| Decode(b[n..]) == Some(rest) && s == [Scalar(b)] + rest;
      EncodeDecode(b[n..], rest);
      EncodeScalarValue(b);
      assert s[1..] == rest;
      assert b == b[..n] + b[n..];
    }
  }

  /** Every character is in the 7-bit range, so each encodes as the single byte of its value. */
  predicate IsAscii(s: string)
  {
    forall i :: 0 <= i < |s| ==> s[i] as int < 0x80
  }

  lemma {:induction false} EncodeAppend(a: string, b: string)
    ensures Encode(a + b) == Encode(a) + Encode(b)
  {
    if a == [] {
      assert a + b == b;
    } else {
      assert (a + b)[0] == a[0] && (a + b)[1..] == a[1..] + b;
      EncodeAppend(a[1..], b);
    }
  }

  /** Outside the 7-bit range every byte of an encoding has its high bit set. */
  lemma EncodeScalarBytes(c: char)
    ensures c as int < 0x80 ==> EncodeScalar(c) == [c as int as byte]
    ensures c as int >= 0x80 ==> |EncodeScalar(c)| > 1 && forall k :: 0 <= k < |EncodeScalar(c)| ==> EncodeScalar(c)[k] >= 0x80
  {
  }

  /** An encoded 7-bit string at the head of an encoding is the head of the decoded string. */
  lemma {:induction false} AsciiPrefix(s: string, t: string)
    requires IsAscii(t)
    requires |Encode(t)| <= |Encode(s)| && Encode(s)[..|Encode(t)|] == Encode(t)
    ensures |t| <= |s| && s[..|t|] == t
  {
    if t != [] {
      EncodeScalarBytes(t[0]);
      assert Encode(t)[0] as int == t[0] as int;
      assert s != [];
      EncodeScalarBytes(s[0]);
      assert Encode(s)[0] == EncodeScalar(s[0])[0];
      assert s[0] == t[0];
      assert Encode(s) == [Encode(s)[0]] + Encode(s[1..]);
      assert Encode(t) == [Encode(t)[0]] + Encode(t[1..]);
      assert Encode(s)[1..|Encode(t)|] == Encode(t)[1..] == Encode(t[1..]);
      assert Encode(s[1..])[..|Encode(t[1..])|] == Encode(s)[1..|Encode(t)|];
      assert IsAscii(t[1..]);
      AsciiPrefix(s[1..], t[1..]);
      assert s[..|t|] == [s[0]] + s[1..][..|t| - 1];
    }
  }

  /** An occurrence in `x + y` that starts after `x` is an occurrence in `y`. */
  lemma OccursInTail<T>(x: seq<T>, y: seq<T>, t: seq<T>, j: int)
    requires OccursAt(x + y, t, j) && j >= |x|
    ensures OccursAt(y, t, j - |x|)
  {
    assert (x + y)[j .. j + |t|] == y[j - |x| .. j - |x| + |t|];
  }

  /** An occurrence of an encoded non-empty 7-bit string starts on a character boundary. */
  lemma {:induction false} AsciiOccurrence(s: string, t: string, j: int)
    requires IsAscii(t) && t != []
    requires OccursAt(Encode(s), Encode(t), j)
    ensures Contains(s, t)
  {
    assert s != [];
    var e := EncodeScalar(s[0]);
    assert Encode(s) == e + Encode(s[1..]);
    EncodeScalarBytes(t[0]);
    assert Encode(t)[0] as int < 0x80;
    if j == 0 {
      AsciiPrefix(s, t);
      assert OccursAt(s, t, 0);
    } else if j < |e| {
      EncodeScalarBytes(s[0]);
      assert false;
    } else {
      OccursInTail(e, Encode(s[1..]), Encode(t), j);
      AsciiOccurrence(s[1..], t, j - |e|);
      ContainsInLarger([s[0]], s[1..], [], t);
      assert [s[0]] + s[1..] + [] == s;
    }
  }

  /**
   * For a non-empty 7-bit token, searching the decoded string and searching the
   * bytes it was decoded from find the token alike.
   */
  lemma AsciiContains(b: seq<byte>, s: string, t: string)
    requires Decode(b) == Some(s)
    requires IsAscii(t) && t != []
    ensures Contains(s, t) <==> Contains(b, Encode(t))
  {
    EncodeDecode(b, s);
    if Contains(s, t) {
      var i :| OccursAt(s, t, i);
      assert s == s[..i] + t + s[i + |t|..];
      EncodeAppend(s[..i] + t, s[i + |t|..]);
      EncodeAppend(s[..i], t);
      ContainsInLarger(Encode(s[..i]), Encode(t), Encode(s[i + |t|..]), Encode(t));
      assert OccursAt(Encode(t), Encode(t), 0);
    }
    if Contains(b, Encode(t)) {
      var j :| OccursAt(b, Encode(t), j);
      AsciiOccurrence(s, t, j);
    }
  }

  /** Appending bytes does not change the leading sequence once it is complete. */
  lemma SequenceLengthStable(b: seq<byte>, rest: seq<byte>)
    requires SequenceLength(b) > 0
    ensures SequenceLength(b + rest) == SequenceLength(b)
    ensures ScalarValue(b + rest) == ScalarValue(b)
  {
    var n := SequenceLength(b);
    assert (b + rest)[..n] == b[..n];
  }

  /**
   * A decodable byte sequence followed by one byte with the high bit set does
   * not decode: the extra byte is a sequence cut short (or a stray continuation).
   */
  lemma {:induction false} TruncatedTailRejected(b: seq<byte>, x: byte)
    requires Decode(b).Some? && x >= 0x80
    ensures Decode(b + [x]) == None
    decreases |b|
  {
    if b == [] {
      assert b + [x] == [x];
    } else {
      var n := SequenceLength(b);
      SequenceLengthStable(b, [x]);
      assert (b + [x])[n..] == b[n..] + [x];
      TruncatedTailRejected(b[n..], x);
    }
  }
}
