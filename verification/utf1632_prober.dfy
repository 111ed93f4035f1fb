/**
 * The UTF-16/UTF-32 prober's unit validators and its initial state.
 *
 * A four-byte group is read as a big-endian 32-bit value and accepted exactly
 * when it is a Unicode scalar value (definition D76 of chapter 3 of the
 * Unicode Standard: a code point that is not a surrogate). A two-byte group
 * is read as a big-endian 16-bit code unit and classified as in section 2.2
 * of RFC 2781: a high (leading) surrogate, a low (trailing) surrogate, or a
 * unit that is a character on its own.
 */
module Utf1632 {
  import opened Bytes
  import opened Enums

  /** `(b0 << 24) | (b1 << 16) | (b2 << 8) | b3`: the shifted bytes do not overlap, so or is sum. */
  function BigEndian32(b0: byte, b1: byte, b2: byte, b3: byte): (v: int)
    ensures 0 <= v < 0x1_0000_0000
  {
    b0 * 0x100_0000 + b1 * 0x1_0000 + b2 * 0x100 + b3
  }

  /** Each byte can be read back from the value by a shift and a mask. */
  lemma BigEndian32Bytes(b0: byte, b1: byte, b2: byte, b3: byte)
    ensures var v := BigEndian32(b0, b1, b2, b3);
      v / 0x100_0000 == b0 && (v / 0x1_0000) % 0x100 == b1 && (v / 0x100) % 0x100 == b2 && v % 0x100 == b3
  {
    var v := BigEndian32(b0, b1, b2, b3);
    var hi := b0 * 0x100 + b1;
    var top3 := hi * 0x100 + b2;
    DivByteUnique(v, top3, b3);
    DivByteUnique(top3, hi, b2);
    DivByteUnique(hi, b0, b1);
    DivWordUnique(v, hi, b2 * 0x100 + b3);
    DivWordUnique(top3, b0, b1 * 0x100 + b2);
    assert v / 0x100_0000 == b0 by {
      DivTopByteUnique(v, b0, b1 * 0x1_0000 + b2 * 0x100 + b3);
    }
  }

  /** `(b0 << 8) | b1` */
  function BigEndian16(b0: byte, b1: byte): (v: int)
    ensures 0 <= v < 0x1_0000
    ensures v / 0x100 == b0 && v % 0x100 == b1
  {
    b0 * 0x100 + b1
  }

  predicate IsCodePoint(v: int) {
    0 <= v <= 0x10FFFF
  }

  /** High-surrogate code points (leading units of a pair, D71 of the Unicode Standard). */
  predicate IsHighSurrogate(v: int) {
    0xD800 <= v <= 0xDBFF
  }

  /** Low-surrogate code points (trailing units of a pair, D73 of the Unicode Standard). */
  predicate IsLowSurrogate(v: int) {
    0xDC00 <= v <= 0xDFFF
  }

  /** D76: a Unicode scalar value is any code point except the surrogates. */
  predicate IsScalarValue(v: int) {
    IsCodePoint(v) && !IsHighSurrogate(v) && !IsLowSurrogate(v)
  }

  /** `validate_utf32_characters`: is the big-endian value of the first four bytes a scalar value? */
  function ValidateUtf32Characters(quad: seq<byte>): (r: bool)
    requires |quad| >= 4
    ensures r <==> IsScalarValue(BigEndian32(quad[0], quad[1], quad[2], quad[3]))
  {
    var value := BigEndian32(quad[0], quad[1], quad[2], quad[3]);
    0 <= value <= 0x10FFFF && !(0xD800 <= value <= 0xDFFF)
  }

  /** A group whose first byte is not zero is at least 0x0100_0000, far past the last code point. */
  lemma NonzeroFirstByteRejected(quad: seq<byte>)
    requires |quad| >= 4 && quad[0] != 0
    ensures !ValidateUtf32Characters(quad)
  {
  }

  /** The UTF-32BE form of a value below 2^32: its four bytes, most significant first. */
  function EncodeUtf32BE(v: int): (quad: seq<byte>)
    requires 0 <= v < 0x1_0000_0000
    ensures |quad| == 4
  {
    [v / 0x100_0000, (v / 0x1_0000) % 0x100, (v / 0x100) % 0x100, v % 0x100]
  }

  /** Reading back an encoded value gives the value. */
  lemma DecodeEncodeUtf32(v: int)
    requires 0 <= v < 0x1_0000_0000
    ensures var q := EncodeUtf32BE(v); BigEndian32(q[0], q[1], q[2], q[3]) == v
  {
    var q1 := v / 0x100;
    var q2 := q1 / 0x100;
    var q3 := q2 / 0x100;
    DivByteUnique(v, q1, v % 0x100);
    DivByteUnique(q1, q2, q1 % 0x100);
    DivByteUnique(q2, q3, q2 % 0x100);
    DivWordUnique(v, q2, (q1 % 0x100) * 0x100 + v % 0x100);
    DivWordUnique(q1, q3, (q2 % 0x100) * 0x100 + q1 % 0x100);
    DivByteUnique(v / 0x1_0000, q3, q2 % 0x100);
    assert v / 0x100_0000 == q3 by {
      DivWordUnique(v / 0x100, v / 0x100_0000, (v / 0x100) % 0x1_0000);
    }
  }

  /** Quotient and remainder by 256 are unique. */
  lemma DivByteUnique(v: int, q: int, r: int)
    requires v == q * 0x100 + r && 0 <= r < 0x100
    ensures v / 0x100 == q && v % 0x100 == r
  {
  }

  /** Quotient and remainder by 65536 are unique. */
  lemma DivWordUnique(v: int, q: int, r: int)
    requires v == q * 0x1_0000 + r && 0 <= r < 0x1_0000
    ensures v / 0x1_0000 == q && v % 0x1_0000 == r
  {
  }

  /** Quotient and remainder by 2^24 are unique. */
  lemma DivTopByteUnique(v: int, q: int, r: int)
    requires v == q * 0x100_0000 + r && 0 <= r < 0x100_0000
    ensures v / 0x100_0000 == q && v % 0x100_0000 == r
  {
  }

  /** Encoding what was read gives back the four bytes. */
  lemma EncodeDecodeUtf32(quad: seq<byte>)
    requires |quad| == 4
    ensures EncodeUtf32BE(BigEndian32(quad[0], quad[1], quad[2], quad[3])) == quad
  {
    BigEndian32Bytes(quad[0], quad[1], quad[2], quad[3]);
  }

  /** The validator accepts the encoding of exactly the scalar values. */
  lemma ValidatorAcceptsExactlyScalarValues(v: int)
    requires 0 <= v < 0x1_0000_0000
    ensures ValidateUtf32Characters(EncodeUtf32BE(v)) <==> IsScalarValue(v)
  {
    DecodeEncodeUtf32(v);
  }

  /** What `validate_utf16_characters` returns: the two strings, `True` and `False`. */
  datatype Utf16Class = HighSurrogate | LowSurrogate | ValidUnit | Invalid

  /** `validate_utf16_characters`: classifies the big-endian code unit of the first two bytes. */
  function ValidateUtf16Characters(pair: seq<byte>): (r: Utf16Class)
    requires |pair| >= 2
    ensures r == HighSurrogate <==> IsHighSurrogate(BigEndian16(pair[0], pair[1]))
    ensures r == LowSurrogate <==> IsLowSurrogate(BigEndian16(pair[0], pair[1]))
    ensures r == ValidUnit <==> IsScalarValue(BigEndian16(pair[0], pair[1]))
    ensures r != Invalid
  {
    var value := BigEndian16(pair[0], pair[1]);
    if 0xD800 <= value <= 0xDBFF then HighSurrogate
    else if 0xDC00 <= value <= 0xDFFF then LowSurrogate
    else if value < 0xD800 || 0xE000 <= value <= 0xFFFF then ValidUnit
    else Invalid
  }

  /** Section 2.1 of RFC 2781: the UTF-16 code units of a scalar value. */
  function EncodeUtf16(u: int): (units: seq<int>)
    requires IsScalarValue(u)
    ensures |units| == 1 || |units| == 2
    ensures forall x :: 0 <= x < |units| ==> 0 <= units[x] < 0x1_0000
  {
    if u < 0x1_0000 then [u]
    else
      var u' := u - 0x1_0000;
      [0xD800 + u' / 0x400, 0xDC00 + u' % 0x400]
  }

  /** The big-endian bytes of one code unit. */
  function UnitBytesBE(w: int): (pair: seq<byte>)
    requires 0 <= w < 0x1_0000
    ensures |pair| == 2 && BigEndian16(pair[0], pair[1]) == w
  {
    [w / 0x100, w % 0x100]
  }

  /** Section 2.2 of RFC 2781: a high then a low surrogate decode to one scalar value. */
  function DecodeSurrogatePair(w1: int, w2: int): (u: int)
    requires IsHighSurrogate(w1) && IsLowSurrogate(w2)
    ensures 0x1_0000 <= u <= 0x10FFFF && IsScalarValue(u)
  {
    0x1_0000 + (w1 - 0xD800) * 0x400 + (w2 - 0xDC00)
  }

  /**
   * The validator classifies the units of every scalar value's encoding as
   * the encoding intends: a lone unit is valid, a pair is a high surrogate
   * then a low surrogate, and the pair decodes back to the value.
   */
  lemma Utf16EncodingClassified(u: int)
    requires IsScalarValue(u)
    ensures var units := EncodeUtf16(u);
      if u < 0x1_0000 then
        |units| == 1 && ValidateUtf16Characters(UnitBytesBE(units[0])) == ValidUnit
      else
        |units| == 2 &&
        ValidateUtf16Characters(UnitBytesBE(units[0])) == HighSurrogate &&
        ValidateUtf16Characters(UnitBytesBE(units[1])) == LowSurrogate &&
        DecodeSurrogatePair(units[0], units[1]) == u
  {
    var units := EncodeUtf16(u);
    if u >= 0x1_0000 {
      var u' := u - 0x1_0000;
      assert u' == (u' / 0x400) * 0x400 + u' % 0x400;
    }
  }

  /** Every surrogate pair is the encoding of the value it decodes to. */
  lemma SurrogatePairRoundTrip(w1: int, w2: int)
    requires IsHighSurrogate(w1) && IsLowSurrogate(w2)
    ensures EncodeUtf16(DecodeSurrogatePair(w1, w2)) == [w1, w2]
  {
    var u' := DecodeSurrogatePair(w1, w2) - 0x1_0000;
    assert u' == (w1 - 0xD800) * 0x400 + (w2 - 0xDC00);
    assert u' / 0x400 == w1 - 0xD800;
    assert u' % 0x400 == w2 - 0xDC00;
  }

  /** The state `__init__` sets up: counters per position mod 4, the last quad and the flags. */
  class UTF1632Prober {
    var position: int
    var zerosAtMod: array<int>
    var nonzerosAtMod: array<int>
    var state: ProbingState
    var quad: array<int>
    var invalidUtf16be: bool
    var invalidUtf16le: bool
    var invalidUtf32be: bool
    var invalidUtf32le: bool
    var firstHalfSurrogatePairDetected16be: bool
    var firstHalfSurrogatePairDetected16le: bool

    constructor ()
      ensures position == 0 && state == Detecting
      ensures fresh(zerosAtMod) && fresh(nonzerosAtMod) && fresh(quad)
      ensures zerosAtMod[..] == [0, 0, 0, 0] && nonzerosAtMod[..] == [0, 0, 0, 0]
      ensures quad[..] == [0, 0, 0, 0]
      ensures !invalidUtf16be && !invalidUtf16le && !invalidUtf32be && !invalidUtf32le
      ensures !firstHalfSurrogatePairDetected16be && !firstHalfSurrogatePairDetected16le
    {
      position := 0;
      zerosAtMod := new int[4](_ => 0);
      nonzerosAtMod := new int[4](_ => 0);
      state := Detecting;
      quad := new int[4](_ => 0);
      invalidUtf16be := false;
      invalidUtf16le := false;
      invalidUtf32be := false;
      invalidUtf32le := false;
      firstHalfSurrogatePairDetected16be := false;
      firstHalfSurrogatePairDetected16le := false;
    }
  }
}
