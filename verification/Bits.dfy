/** Bitwise operations on naturals, and the arithmetic of network masks they amount to. */
module Bits {

  function Pow2(k: nat): (r: nat)
    ensures r >= 1
  {
    if k == 0 then 1 else 2 * Pow2(k - 1)
  }

  function BitAnd(a: nat, b: nat): nat {
    if a == 0 || b == 0 then 0
    else 2 * BitAnd(a / 2, b / 2) + (if a % 2 == 1 && b % 2 == 1 then 1 else 0)
  }

  function BitOr(a: nat, b: nat): nat
    decreases a + b
  {
    if a == 0 then b else if b == 0 then a
    else 2 * BitOr(a / 2, b / 2) + (if a % 2 == 1 || b % 2 == 1 then 1 else 0)
  }

  function BitXor(a: nat, b: nat): nat
    decreases a + b
  {
    if a == 0 then b else if b == 0 then a
    else 2 * BitXor(a / 2, b / 2) + (if a % 2 != b % 2 then 1 else 0)
  }

  /** hweight32: the number of one bits. */
  function PopCount(n: nat): nat {
    if n == 0 then 0 else PopCount(n / 2) + n % 2
  }

  /** The part of a number its low h bits hold. */
  function LowBits(a: nat, h: nat): (r: nat)
    ensures r < Pow2(h) && r <= a
  {
    if h == 0 then 0 else 2 * LowBits(a / 2, h - 1) + a % 2
  }

  lemma {:induction false} Pow2Monotone(h: nat, w: nat)
    requires h <= w
    ensures Pow2(h) <= Pow2(w)
  {
    if h < w {
      Pow2Monotone(h, w - 1);
    }
  }

  /** A mask of w - h leading ones over h zeros. */
  function HighMask(w: nat, h: nat): nat
    requires h <= w
  {
    Pow2Monotone(h, w);
    Pow2(w) - Pow2(h)
  }

  /** Anding with the mask clears the host bits. */
  lemma {:induction false} AndHighMask(a: nat, w: nat, h: nat)
    requires h <= w && a < Pow2(w)
    ensures BitAnd(a, HighMask(w, h)) == a - LowBits(a, h)
  {
    if w > 0 {
      var m := HighMask(w, h);
      if h == 0 {
        assert m / 2 == HighMask(w - 1, 0) && m % 2 == 1;
        AndHighMask(a / 2, w - 1, 0);
      } else {
        assert m / 2 == HighMask(w - 1, h - 1) && m % 2 == 0;
        AndHighMask(a / 2, w - 1, h - 1);
      }
    }
  }

  /** The number of ones in a mask is its prefix length. */
  lemma {:induction false} PopCountHighMask(w: nat, h: nat)
    requires h <= w
    ensures PopCount(HighMask(w, h)) == w - h
  {
    if w > h {
      if h == 0 {
        PopCountHighMask(w - 1, 0);
      } else {
        PopCountHighMask(w - 1, h - 1);
      }
    }
  }

  lemma {:induction false} XorLowOnes(w: nat, h: nat)
    requires h <= w
    ensures BitXor(Pow2(w) - 1, Pow2(h) - 1) == HighMask(w, h)
  {
    if h > 0 {
      var a, b := Pow2(w) - 1, Pow2(h) - 1;
      assert a / 2 == Pow2(w - 1) - 1 && b / 2 == Pow2(h - 1) - 1;
      XorLowOnes(w - 1, h - 1);
      assert BitXor(a, b) == 2 * BitXor(a / 2, b / 2);
    }
  }

  lemma {:induction false} OrLowOnes(a: nat, h: nat)
    requires LowBits(a, h) == 0
    ensures BitOr(a, Pow2(h) - 1) == a + Pow2(h) - 1
  {
    if h > 0 && a > 0 {
      var ones := Pow2(h) - 1;
      assert ones / 2 == Pow2(h - 1) - 1 && ones % 2 == 1;
      assert a % 2 == 0 && LowBits(a / 2, h - 1) == 0;
      OrLowOnes(a / 2, h - 1);
      assert BitOr(a, ones) == 2 * BitOr(a / 2, ones / 2) + 1;
    }
  }

  lemma {:induction false} LowBitsCleared(a: nat, h: nat)
    ensures LowBits(a - LowBits(a, h), h) == 0
  {
    if h > 0 {
      assert (a - LowBits(a, h)) / 2 == a / 2 - LowBits(a / 2, h - 1);
      LowBitsCleared(a / 2, h - 1);
    }
  }

  /** Clearing the host bits of x gives the network exactly for the addresses of its range. */
  lemma {:induction false} SameNetworkIffInRange(x: nat, net: nat, h: nat)
    requires LowBits(net, h) == 0
    ensures x - LowBits(x, h) == net <==> net <= x <= net + Pow2(h) - 1
  {
    if h > 0 {
      SameNetworkIffInRange(x / 2, net / 2, h - 1);
    }
  }

  lemma {:induction false} LowBitsIs(a: nat, h: nat)
    ensures LowBits(a, h) == a % Pow2(h)
  {
    if h > 0 {
      LowBitsIs(a / 2, h - 1);
      DoubleModulus(a, Pow2(h - 1));
    }
  }

  lemma DoubleModulus(a: nat, m: nat)
    requires m > 0
    ensures a % (2 * m) == 2 * ((a / 2) % m) + a % 2
  {
    var q, r := a / 2 / m, (a / 2) % m;
    assert a / 2 == q * m + r;
    assert a == (2 * m) * q + (2 * r + a % 2);
    Remainder(a, 2 * m, q, 2 * r + a % 2);
  }

  lemma Remainder(a: nat, m: nat, q: nat, r: nat)
    requires a == m * q + r && r < m
    ensures a / m == q && a % m == r
  {
    var d := a / m - q;
    assert a == m * (a / m) + a % m;
    assert m * d == r - a % m;
    assert d >= 1 ==> m * (d - 1) >= 0;
    assert d <= -1 ==> m * (d + 1) <= 0;
  }

  /** Two numbers are in one network exactly when they agree above its host bits. */
  lemma SameNetworkIffSamePrefix(x: nat, a: nat, h: nat)
    ensures x - LowBits(x, h) == a - LowBits(a, h) <==> x / Pow2(h) == a / Pow2(h)
  {
    LowBitsIs(x, h);
    LowBitsIs(a, h);
    var m := Pow2(h);
    hide *;
    assert x == m * (x / m) + x % m && a == m * (a / m) + a % m;
    if x - x % m == a - a % m {
      assert m * (x / m) == m * (a / m);
      Remainder(m * (x / m), m, x / m, 0);
      Remainder(m * (a / m), m, a / m, 0);
    }
  }
}
