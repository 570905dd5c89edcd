/** The bit fields of an IEEE 754 binary32 value (section 3.4 of IEEE
    754-2008): bit 31 is the sign, bits 23..30 the biased exponent and bits
    0..22 the trailing significand. The thermometer marks "no probe" and
    "alarm disabled" with a NaN; the model decides NaN on these bits alone and
    never computes a floating-point value. */
module Binary32 {
  import opened Bytes
  import opened Bits

  const SignWeight: int := 0x8000_0000
  const ExponentWeight: int := 0x80_0000

  function Sign(w: word): (s: int)
    ensures 0 <= s < 2
  {
    w / SignWeight
  }

  function Exponent(w: word): (e: int)
    ensures 0 <= e < 256
  {
    (w / ExponentWeight) % 256
  }

  function Mantissa(w: word): (m: int)
    ensures 0 <= m < ExponentWeight
  {
    w % ExponentWeight
  }

  /** The word with the given sign bit, biased exponent and trailing significand. */
  function Pack(sign: int, exponent: int, mantissa: int): (w: word)
    requires 0 <= sign < 2 && 0 <= exponent < 256 && 0 <= mantissa < ExponentWeight
    ensures Sign(w) == sign && Exponent(w) == exponent && Mantissa(w) == mantissa
  {
    var w := sign * SignWeight + exponent * ExponentWeight + mantissa;
    DivModUnique(w, ExponentWeight, sign * 256 + exponent, mantissa);
    DivModUnique(sign * 256 + exponent, 256, sign, exponent);
    DivModUnique(w, SignWeight, sign, exponent * ExponentWeight + mantissa);
    w
  }

  /** The three fields together make up the whole word. */
  lemma PackFields(w: word)
    ensures Pack(Sign(w), Exponent(w), Mantissa(w)) == w
  {
    var q := w / ExponentWeight;
    assert w == q * ExponentWeight + Mantissa(w);
    assert q == (q / 256) * 256 + Exponent(w);
    DivModUnique(w, SignWeight, q / 256, Exponent(w) * ExponentWeight + Mantissa(w));
  }

  /** NaN: all exponent bits set and a nonzero trailing significand (an
      all-ones exponent with a zero significand is an infinity). The sign bit
      plays no part. Equivalently, the word without its sign bit lies above
      the infinity 0x7F800000. */
  predicate IsNaN(w: word)
    ensures IsNaN(w) <==> w % SignWeight > 0x7F80_0000
  {
    var q := w / ExponentWeight;
    assert w == q * ExponentWeight + Mantissa(w);
    assert q == (q / 256) * 256 + Exponent(w);
    DivModUnique(w, SignWeight, q / 256, Exponent(w) * ExponentWeight + Mantissa(w));
    Exponent(w) == 255 && Mantissa(w) != 0
  }

  /** The same test read directly off the four little-endian bytes of a
      float: the low seven bits of the last byte and the top bit of the
      third byte are the exponent, and the rest below is the significand. */
  predicate IsNaNBytes(s: seq<byte>)
    requires |s| == 4
  {
    s[3] % 128 == 127 && s[2] >= 128 && (s[2] % 128 != 0 || s[1] != 0 || s[0] != 0)
  }

  /** The byte-level test agrees with the word-level one on every buffer. */
  lemma IsNaNOfLeWord(s: seq<byte>)
    requires |s| == 4
    ensures IsNaN(LeWord(s)) <==> IsNaNBytes(s)
  {
    var w := LeWord(s);
    var top := s[2] / 128;
    var low := s[0] as int + 0x100 * (s[1] as int) + 0x1_0000 * (s[2] as int % 128);
    var q := top + 2 * (s[3] as int);
    assert s[2] == 128 * top + s[2] % 128;
    assert w == q * ExponentWeight + low;
    DivModUnique(w, ExponentWeight, q, low);
    DivModUnique(q, 256, s[3] / 128, top + 2 * (s[3] % 128));
    assert Exponent(w) == top + 2 * (s[3] % 128);
    assert Mantissa(w) == low;
  }

  /** The NaN test in IEEE 754's own terms, bit by bit: bits 23 to 30 (the
      exponent) are all one and at least one of bits 0 to 22 (the trailing
      significand) is one. */
  predicate IsNaNByBits(w: word) {
    (forall i :: 23 <= i <= 30 ==> Bit(w, i) == 1) && (exists i :: 0 <= i <= 22 && Bit(w, i) == 1)
  }

  /** The field test and the bit-by-bit test agree on every word. */
  lemma IsNaNMatchesBits(w: word)
    ensures IsNaN(w) <==> IsNaNByBits(w)
  {
    assert Pow2(23) == ExponentWeight && Pow2(8) == 256;
    var exponentBits := ShiftRight(w, 23);
    ShiftRightIsDiv(w, 23);
    LowBitsAllOnes(exponentBits, 8);
    LowBitsSomeOne(w, 23);
    assert Exponent(w) == exponentBits % 256;
    assert Mantissa(w) == w % Pow2(23);

    var exponentAllOnes := forall i :: 23 <= i <= 30 ==> Bit(w, i) == 1;
    if exponentAllOnes {
      forall j | 0 <= j < 8 ensures Bit(exponentBits, j) == 1 {
        BitOfShift(w, 23, j);
      }
    }
    if AllOnesBelow(exponentBits, 8) {
      forall i | 23 <= i <= 30 ensures Bit(w, i) == 1 {
        BitOfShift(w, 23, i - 23);
      }
    }
    assert exponentAllOnes <==> AllOnesBelow(exponentBits, 8);

    var someMantissaBit := exists i :: 0 <= i <= 22 && Bit(w, i) == 1;
    if someMantissaBit {
      var i :| 0 <= i <= 22 && Bit(w, i) == 1;
      assert 0 <= i < 23 && Bit(w, i) == 1;
    }
    if SomeOneBelow(w, 23) {
      var i :| 0 <= i < 23 && Bit(w, i) == 1;
      assert 0 <= i <= 22 && Bit(w, i) == 1;
    }
    assert someMantissaBit <==> SomeOneBelow(w, 23);
  }

  /** NaN-ness ignores the sign bit: flipping bit 31 keeps a NaN a NaN and a
      non-NaN a non-NaN. */
  lemma IsNaNIgnoresSign(exponent: int, mantissa: int)
    requires 0 <= exponent < 256 && 0 <= mantissa < ExponentWeight
    ensures IsNaN(Pack(0, exponent, mantissa)) <==> IsNaN(Pack(1, exponent, mantissa))
    ensures IsNaN(Pack(0, exponent, mantissa)) <==> exponent == 255 && mantissa != 0
  {}

  /** The quiet NaN 0x7FC00000, sent as bytes 00 00 C0 7F, is a NaN; the
      infinity 0x7F800000 beside it is not. */
  lemma QuietNaNAndInfinity()
    ensures IsNaN(0x7FC0_0000) && IsNaNBytes([0x00, 0x00, 0xC0, 0x7F])
    ensures !IsNaN(0x7F80_0000) && !IsNaNBytes([0x00, 0x00, 0x80, 0x7F])
  {}
}
