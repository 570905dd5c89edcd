/** Byte buffers as the thermometer's GATT characteristics deliver them, and
    the little-endian 32-bit words in which it sends its single-precision
    floats (`struct.unpack('<f', ...)` reads exactly four bytes, least
    significant first). */
module Bytes {

  /** One octet of a characteristic value, as indexing a `bytearray` yields it. */
  type byte = x: int | 0 <= x < 256

  /** An unsigned 32-bit word: the bit pattern of one binary32 float. */
  type word = x: int | 0 <= x < 0x1_0000_0000

  /** Quotient and remainder are determined by `x == q * d + r` with `0 <= r < d`. */
  lemma DivModUnique(x: int, d: int, q: int, r: int)
    requires 0 < d && 0 <= r < d && x == q * d + r
    ensures x / d == q && x % d == r
  {
    var q', r' := x / d, x % d;
    assert x == q' * d + r';
    if q' < q {
      assert (q - q') * d == r' - r;
      MulAtLeastDivisor(q - q', d);
    } else if q' > q {
      assert (q' - q) * d == r - r';
      MulAtLeastDivisor(q' - q, d);
    }
  }

  lemma MulAtLeastDivisor(k: int, d: int)
    requires k >= 1 && d > 0
    ensures k * d >= d
  {}

  /** The word whose little-endian bytes are `s`: `s[0]` is least significant. */
  function LeWord(s: seq<byte>): (w: word)
    requires |s| == 4
    ensures w % 256 == s[0]
    ensures w / 0x100_0000 == s[3]
  {
    var w := s[0] as int + 0x100 * (s[1] as int) + 0x1_0000 * (s[2] as int) + 0x100_0000 * (s[3] as int);
    DivModUnique(w, 256, s[1] as int + 0x100 * (s[2] as int) + 0x1_0000 * (s[3] as int), s[0]);
    DivModUnique(w, 0x100_0000, s[3], s[0] as int + 0x100 * (s[1] as int) + 0x1_0000 * (s[2] as int));
    w
  }

  /** The four bytes, least significant first, that encode `w`: the inverse of `LeWord`. */
  function LeBytes(w: word): (s: seq<byte>)
    ensures |s| == 4
  {
    [w % 0x100, (w / 0x100) % 0x100, (w / 0x1_0000) % 0x100, w / 0x100_0000]
  }

  /** Encoding a word and reading it back gives the word. */
  lemma LeWordOfLeBytes(w: word)
    ensures LeWord(LeBytes(w)) == w
  {
    var q1 := w / 0x100;
    var q2 := q1 / 0x100;
    var q3 := q2 / 0x100;
    assert w == q1 * 0x100 + w % 0x100;
    assert q1 == q2 * 0x100 + q1 % 0x100;
    assert q2 == q3 * 0x100 + q2 % 0x100;
    DivModUnique(w, 0x1_0000, q2, 0x100 * (q1 % 0x100) + w % 0x100);
    DivModUnique(w, 0x100_0000, q3, 0x1_0000 * (q2 % 0x100) + 0x100 * (q1 % 0x100) + w % 0x100);
  }

  /** Reading four bytes as a word and encoding it again gives the same bytes:
      `LeWord` loses nothing. */
  lemma LeBytesOfLeWord(s: seq<byte>)
    requires |s| == 4
    ensures LeBytes(LeWord(s)) == s
  {
    var w := LeWord(s);
    var hi := s[1] as int + 0x100 * (s[2] as int) + 0x1_0000 * (s[3] as int);
    DivModUnique(w, 0x100, hi, s[0]);
    DivModUnique(hi, 0x100, s[2] as int + 0x100 * (s[3] as int), s[1]);
    DivModUnique(w, 0x1_0000, s[2] as int + 0x100 * (s[3] as int), s[0] as int + 0x100 * (s[1] as int));
    DivModUnique(s[2] as int + 0x100 * (s[3] as int), 0x100, s[3], s[2]);
    assert LeBytes(w) == [s[0], s[1], s[2], s[3]];
  }

  /** Two 4-byte buffers read as the same word exactly when they are equal. */
  lemma LeWordInjective(s: seq<byte>, t: seq<byte>)
    requires |s| == 4 && |t| == 4
    ensures LeWord(s) == LeWord(t) <==> s == t
  {
    LeBytesOfLeWord(s);
    LeBytesOfLeWord(t);
  }
}
