/** Single bits of a natural number, numbered from 0 at the least significant
    end, and how runs of low bits relate to the remainder modulo a power of
    two. `Binary32` uses them to state the NaN test bit by bit. */
module Bits {
  import opened Bytes

  function Pow2(n: nat): (p: nat)
    ensures p >= 1
  {
    if n == 0 then 1 else 2 * Pow2(n - 1)
  }

  /** Bit `i` of `x`: the low bit after shifting right `i` times. */
  function Bit(x: nat, i: nat): (b: nat)
    ensures b < 2
  {
    if i == 0 then x % 2 else Bit(x / 2, i - 1)
  }

  /** `x` shifted right `k` bits. */
  function ShiftRight(x: nat, k: nat): nat {
    if k == 0 then x else ShiftRight(x / 2, k - 1)
  }

  /** Shifting right `k` bits is dividing by 2^k. */
  lemma {:induction false} ShiftRightIsDiv(x: nat, k: nat)
    ensures ShiftRight(x, k) == x / Pow2(k)
  {
    if k > 0 {
      ShiftRightIsDiv(x / 2, k - 1);
      Pow2Step(x, k);
    }
  }

  /** Bit `k + j` of `x` is bit `j` of `x` shifted right `k` bits. */
  lemma {:induction false} BitOfShift(x: nat, k: nat, j: nat)
    ensures Bit(x, k + j) == Bit(ShiftRight(x, k), j)
  {
    if k > 0 {
      BitOfShift(x / 2, k - 1, j);
    }
  }

  /** Dividing by 2^n is halving and then dividing by 2^(n-1); the
      remainder modulo 2^n is the low bit plus twice the remainder of the
      rest modulo 2^(n-1). */
  lemma Pow2Step(x: nat, n: nat)
    requires n > 0
    ensures Pow2(n) == 2 * Pow2(n - 1)
    ensures (x / 2) % Pow2(n - 1) < Pow2(n - 1)
    ensures x / Pow2(n) == (x / 2) / Pow2(n - 1)
    ensures x % Pow2(n) == x % 2 + 2 * ((x / 2) % Pow2(n - 1))
  {
    var q := (x / 2) / Pow2(n - 1);
    var r := (x / 2) % Pow2(n - 1);
    assert x / 2 == q * Pow2(n - 1) + r;
    assert x == q * Pow2(n) + (x % 2 + 2 * r);
    DivModUnique(x, Pow2(n), q, x % 2 + 2 * r);
  }

  /** Bits 0 to n - 1 of `x` are all ones. */
  predicate AllOnesBelow(x: nat, n: nat) {
    forall i :: 0 <= i < n ==> Bit(x, i) == 1
  }

  /** Some bit among bits 0 to n - 1 of `x` is one. */
  predicate SomeOneBelow(x: nat, n: nat) {
    exists i :: 0 <= i < n && Bit(x, i) == 1
  }

  /** The low `n` bits of `x` are bit 0 followed by the low `n - 1` bits of `x / 2`. */
  lemma AllOnesBelowShift(x: nat, n: nat)
    requires n > 0
    ensures AllOnesBelow(x, n) <==> x % 2 == 1 && AllOnesBelow(x / 2, n - 1)
  {
    if AllOnesBelow(x, n) {
      forall i | 0 <= i < n - 1 ensures Bit(x / 2, i) == 1 {
        assert Bit(x, i + 1) == 1;
      }
      var zero := 0;
      assert Bit(x, zero) == 1;
    }
    if x % 2 == 1 && AllOnesBelow(x / 2, n - 1) {
      forall i | 0 <= i < n ensures Bit(x, i) == 1 {
        if i > 0 {
          assert Bit(x / 2, i - 1) == 1;
        }
      }
    }
  }

  lemma SomeOneBelowShift(x: nat, n: nat)
    requires n > 0
    ensures SomeOneBelow(x, n) <==> x % 2 == 1 || SomeOneBelow(x / 2, n - 1)
  {
    if SomeOneBelow(x / 2, n - 1) {
      var i :| 0 <= i < n - 1 && Bit(x / 2, i) == 1;
      assert Bit(x, i + 1) == 1;
    }
    if x % 2 == 1 {
      var zero := 0;
      assert Bit(x, zero) == 1;
    }
    if SomeOneBelow(x, n) {
      var i :| 0 <= i < n && Bit(x, i) == 1;
      if i > 0 {
        assert Bit(x / 2, i - 1) == 1;
      }
    }
  }

  /** A bit `b` below twice `m`: all ones iff both parts are, zero iff both are. */
  lemma LowBitAndRest(b: int, m: int, p: int)
    requires 0 <= b < 2 && 0 <= m < p
    ensures b + 2 * m == 2 * p - 1 <==> b == 1 && m == p - 1
    ensures b + 2 * m != 0 <==> b != 0 || m != 0
  {}

  /** The low `n` bits are all ones exactly when `x` is 2^n - 1 modulo 2^n. */
  lemma {:induction false} LowBitsAllOnes(x: nat, n: nat)
    ensures AllOnesBelow(x, n) <==> x % Pow2(n) == Pow2(n) - 1
  {
    if n > 0 {
      LowBitsAllOnes(x / 2, n - 1);
      Pow2Step(x, n);
      AllOnesBelowShift(x, n);
      LowBitAndRest(x % 2, (x / 2) % Pow2(n - 1), Pow2(n - 1));
    }
  }

  /** Some of the low `n` bits is one exactly when `x` is not a multiple of 2^n. */
  lemma {:induction false} LowBitsSomeOne(x: nat, n: nat)
    ensures SomeOneBelow(x, n) <==> x % Pow2(n) != 0
  {
    if n > 0 {
      LowBitsSomeOne(x / 2, n - 1);
      Pow2Step(x, n);
      SomeOneBelowShift(x, n);
      LowBitAndRest(x % 2, (x / 2) % Pow2(n - 1), Pow2(n - 1));
    }
  }
}
