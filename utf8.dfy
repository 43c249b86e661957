/**
 * Go's conversion `string(v)` of an integer `v`: the UTF-8 form (RFC 3629,
 * section 3) of `v` read as a Unicode code point, where every value that is
 * not a valid code point (negative, a UTF-16 surrogate, or above U+10FFFF)
 * becomes the replacement character U+FFFD.
 */
module Utf8 {
  import opened Bytes

  const RuneError: int := 0xFFFD
  const MaxRune: int := 0x10FFFF

  /** A Unicode scalar value: a code point that UTF-8 may encode. */
  predicate IsValidRune(v: int)
  {
    0 <= v <= MaxRune && !(0xD800 <= v <= 0xDFFF)
  }

  predicate IsContinuation(b: Byte)
  {
    0x80 <= b < 0xC0
  }

  /**
   * The bit pattern of one UTF-8 sequence: the lead byte announces the length
   * and the rest are continuation bytes. Overlong forms and surrogates also
   * have this shape; EncodeRune's length clause rules them out.
   */
  predicate HasUtf8Shape(b: Bytes)
  {
    || (|b| == 1 && b[0] < 0x80)
    || (|b| == 2 && 0xC0 <= b[0] < 0xE0 && IsContinuation(b[1]))
    || (|b| == 3 && 0xE0 <= b[0] < 0xF0 && IsContinuation(b[1]) && IsContinuation(b[2]))
    || (|b| == 4 && 0xF0 <= b[0] < 0xF8 && IsContinuation(b[1]) && IsContinuation(b[2])
                 && IsContinuation(b[3]))
  }

  /** The bytes of `string(v)`. */
  function EncodeRune(v: int): (b: Bytes)
    ensures HasUtf8Shape(b)
    ensures |b| == 1 <==> 0 <= v < 0x80
    // the shortest form: the length is fixed by the range the code point lies in
    ensures |b| == if !IsValidRune(v) then 3
                   else if v < 0x80 then 1
                   else if v < 0x800 then 2
                   else if v < 0x10000 then 3
                   else 4
  {
    if !IsValidRune(v) then [0xEF, 0xBF, 0xBD]
    else if v < 0x80 then [v]
    else if v < 0x800 then [0xC0 + v / 64, 0x80 + v % 64]
    else if v < 0x10000 then [0xE0 + v / 4096, 0x80 + v / 64 % 64, 0x80 + v % 64]
    else [0xF0 + v / 262144, 0x80 + v / 4096 % 64, 0x80 + v / 64 % 64, 0x80 + v % 64]
  }

  /** The code point a sequence of UTF-8 shape spells: the payload bits of each byte, in order. */
  function DecodeRune(b: Bytes): (v: int)
    requires HasUtf8Shape(b)
  {
    var b0, b1, b2, b3 := b[0], Part(b, 1), Part(b, 2), Part(b, 3);
    if |b| == 1 then b0
    else if |b| == 2 then (b0 - 0xC0) * 64 + b1
    else if |b| == 3 then (b0 - 0xE0) * 4096 + b1 * 64 + b2
    else (b0 - 0xF0) * 262144 + b1 * 4096 + b2 * 64 + b3
  }

  /** The six payload bits of continuation byte `i`, or 0 past the end. */
  function Part(b: Bytes, i: nat): int
  {
    if i < |b| then b[i] as int - 0x80 else 0
  }

  /** Decoding `string(v)` gives back `v` when it is a valid code point, and U+FFFD otherwise. */
  lemma DecodeEncodeRune(v: int)
    ensures DecodeRune(EncodeRune(v)) == if IsValidRune(v) then v else RuneError
  {
    if IsValidRune(v) && 0x80 <= v {
      assert v == v / 64 * 64 + v % 64;
      if 0x800 <= v {
        assert v / 64 == v / 4096 * 64 + v / 64 % 64;
        if 0x10000 <= v {
          assert v / 4096 == v / 262144 * 64 + v / 4096 % 64;
        }
      }
    }
  }

  /** Distinct valid code points have distinct encodings. */
  lemma EncodeRuneInjective(v: int, w: int)
    requires IsValidRune(v) && IsValidRune(w)
    requires EncodeRune(v) == EncodeRune(w)
    ensures v == w
  {
    DecodeEncodeRune(v);
    DecodeEncodeRune(w);
  }

  /** Every value that is not a valid code point is encoded exactly as U+FFFD itself is. */
  lemma InvalidRuneIsReplacement(v: int)
    requires !IsValidRune(v)
    ensures EncodeRune(v) == EncodeRune(RuneError)
  {
    assert RuneError / 4096 == 15 && RuneError / 64 % 64 == 63 && RuneError % 64 == 61;
  }
}
