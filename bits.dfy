/**
 * Python's unbounded integers seen as bit strings: two's complement with
 * infinitely many sign bits.  `a >> k` is floor division by 2^k and `a | b`
 * is defined bit by bit, so both are exact for negative operands too.
 */
module Bits {

  function Pow2(k: nat): (p: nat)
    ensures p >= 1
  {
    if k == 0 then 1 else 2 * Pow2(k - 1)
  }

  function Abs(a: int): nat
  {
    if a < 0 then -a else a
  }

  /** Python's `a >> k`: an arithmetic shift, i.e. floor division by 2^k
      (Dafny's `/` floors whenever the divisor is positive). */
  function Shr(a: int, k: nat): (r: int)
    ensures Pow2(k) * r <= a < Pow2(k) * r + Pow2(k)
  {
    a / Pow2(k)
  }

  /** Bit `j` of `a` in two's complement: the low bit of `a` after halving
      (rounding down) `j` times.  Every bit of -1 is set. */
  predicate Bit(a: int, j: nat)
    decreases j
  {
    if j == 0 then a % 2 == 1 else Bit(a / 2, j - 1)
  }

  /** Python's `a | b`.  Once both operands are 0 or -1 every remaining bit
      is a sign bit; otherwise the low bit is or-ed and the rest recurses. */
  function BitOr(a: int, b: int): (r: int)
    ensures r < 0 <==> a < 0 || b < 0
    ensures 0 <= a && 0 <= b ==> a <= r && b <= r && r <= a + b
    decreases Abs(a) + Abs(b)
  {
    if (a == 0 || a == -1) && (b == 0 || b == -1) then
      if a == -1 || b == -1 then -1 else 0
    else
      2 * BitOr(a / 2, b / 2) + (if a % 2 == 1 || b % 2 == 1 then 1 else 0)
  }

  /** Python's `int.bit_length()` for a non-negative value: the number of
      binary digits, 0 for 0. */
  function BitLength(n: nat): (r: nat)
    ensures r == 0 <==> n == 0
    ensures n < Pow2(r)
    ensures n > 0 ==> Pow2(r - 1) <= n
  {
    if n == 0 then 0
    else
      var r := 1 + BitLength(n / 2);
      assert Pow2(r) == 2 * Pow2(r - 1);
      assert n / 2 > 0 ==> Pow2(r - 1) == 2 * Pow2(r - 2);
      r
  }

  // ---------------------------------------------------------------------
  // Arithmetic facts about division by powers of two

  lemma {:induction false} MulAtLeast(d: int, k: int)
    requires d > 0 && k >= 1
    ensures d * k >= d
    decreases k
  {
    if k > 1 {
      MulAtLeast(d, k - 1);
      assert d * k == d * (k - 1) + d;
    }
  }

  lemma DivUnique(a: int, d: int, q: int, r: int)
    requires d > 0 && 0 <= r < d && a == d * q + r
    ensures a / d == q && a % d == r
  {
    var q', r' := a / d, a % d;
    assert a == d * q' + r';
    if q > q' {
      MulAtLeast(d, q - q');
      assert false;
    } else if q < q' {
      MulAtLeast(d, q' - q);
      assert false;
    }
  }

  lemma DivDiv(a: int, b: int, c: int)
    requires b > 0 && c > 0
    ensures (a / b) / c == a / (b * c)
  {
    var q, r := a / b, a % b;
    var q2, r2 := q / c, q % c;
    assert a == b * q + r;
    assert q == c * q2 + r2;
    assert b * q == (b * c) * q2 + b * r2 by {
      assert b * q == b * (c * q2 + r2);
    }
    assert b * r2 <= b * (c - 1) by {
      if r2 < c - 1 {
        MulAtLeast(b, c - 1 - r2);
        assert b * (c - 1) == b * r2 + b * (c - 1 - r2);
      }
    }
    assert b * (c - 1) == b * c - b;
    DivUnique(a, b * c, q2, b * r2 + r);
  }

  lemma {:induction false} Pow2Monotone(a: nat, b: nat)
    requires a <= b
    ensures Pow2(a) <= Pow2(b)
  {
    if a < b {
      Pow2Monotone(a, b - 1);
    }
  }

  lemma ShrHalf(a: int, k: nat)
    ensures Shr(a, k + 1) == Shr(a / 2, k)
  {
    DivDiv(a, 2, Pow2(k));
  }

  // ---------------------------------------------------------------------
  // Bits

  /** Shifting right by `k` moves bit k + j down to position j. */
  lemma {:induction false} BitShr(a: int, k: nat, j: nat)
    ensures Bit(Shr(a, k), j) == Bit(a, k + j)
    decreases k
  {
    if k == 0 {
      assert Shr(a, 0) == a;
    } else {
      ShrHalf(a, k - 1);
      BitShr(a / 2, k - 1, j);
      assert Bit(a, k + j) == Bit(a / 2, k - 1 + j);
    }
  }

  lemma {:induction false} SignBits(j: nat)
    ensures Bit(-1, j) && !Bit(0, j)
  {
    if j > 0 {
      SignBits(j - 1);
    }
  }

  /** The bits of `a | b` are the or of the bits of `a` and `b`. */
  lemma {:induction false} BitOrBit(a: int, b: int, j: nat)
    ensures Bit(BitOr(a, b), j) == (Bit(a, j) || Bit(b, j))
    decreases j
  {
    if (a == 0 || a == -1) && (b == 0 || b == -1) {
      SignBits(j);
    } else {
      var c := BitOr(a / 2, b / 2);
      var low := if a % 2 == 1 || b % 2 == 1 then 1 else 0;
      assert BitOr(a, b) == 2 * c + low;
      if j > 0 {
        assert (2 * c + low) / 2 == c;
        BitOrBit(a / 2, b / 2, j - 1);
      }
    }
  }

  /** Two integers with the same bits are equal. */
  lemma {:induction false} BitsDetermine(a: int, b: int)
    requires forall j: nat :: Bit(a, j) == Bit(b, j)
    ensures a == b
    decreases Abs(a) + Abs(b)
  {
    assert Bit(a, 0) == Bit(b, 0);
    if !((a == 0 || a == -1) && (b == 0 || b == -1)) {
      forall j: nat
        ensures Bit(a / 2, j) == Bit(b / 2, j)
      {
        assert Bit(a, j + 1) == Bit(b, j + 1);
      }
      BitsDetermine(a / 2, b / 2);
    }
  }

  /** 2^b - 1 has exactly the bits below `b` set. */
  lemma {:induction false} MaskBits(b: nat, j: nat)
    ensures Bit(Pow2(b) - 1, j) == (j < b)
  {
    if b == 0 {
      SignBits(j);
    } else {
      var m := Pow2(b) - 1;
      assert m == 2 * (Pow2(b - 1) - 1) + 1;
      if j > 0 {
        assert m / 2 == Pow2(b - 1) - 1;
        MaskBits(b - 1, j - 1);
      }
    }
  }

  /** 2^m has exactly bit `m` set. */
  lemma {:induction false} PowerBits(m: nat, j: nat)
    ensures Bit(Pow2(m), j) == (j == m)
  {
    var p := Pow2(m);
    if j == 0 {
      if m > 0 {
        assert p == 2 * Pow2(m - 1);
      }
    } else {
      if m == 0 {
        assert p / 2 == 0;
        SignBits(j - 1);
      } else {
        assert p / 2 == Pow2(m - 1);
        PowerBits(m - 1, j - 1);
      }
    }
  }

  /** Doubling moves every bit up by one and clears bit 0. */
  lemma DoubleBits(a: int, j: nat)
    ensures Bit(2 * a, j) == (j > 0 && Bit(a, j - 1))
  {
    if j > 0 {
      assert (2 * a) / 2 == a;
    }
  }

  /** A non-negative value below 2^b has no bit at or above `b`. */
  lemma {:induction false} HighBitsClear(n: int, b: nat, j: nat)
    requires 0 <= n < Pow2(b) && b <= j
    ensures !Bit(n, j)
  {
    if b == 0 {
      assert n == 0;
      SignBits(j);
    } else {
      assert Pow2(b) == 2 * Pow2(b - 1);
      HighBitsClear(n / 2, b - 1, j - 1);
    }
  }

  /** The top bit of a positive value is bit BitLength(n) - 1. */
  lemma {:induction false} TopBit(n: nat)
    requires n > 0
    ensures Bit(n, BitLength(n) - 1)
  {
    if n > 1 {
      TopBit(n / 2);
    }
  }

  /** A non-negative value below 2^m needs at most m bits. */
  lemma {:induction false} BitLengthAtMost(n: nat, m: nat)
    requires n < Pow2(m)
    ensures BitLength(n) <= m
  {
    if n > 0 {
      assert Pow2(m) == 2 * Pow2(m - 1);
      BitLengthAtMost(n / 2, m - 1);
    }
  }
}
