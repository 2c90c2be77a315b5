/** Bitwise conjunction of unsigned integers, and what masking low bits means. */
module Bits {

  function Pow2(k: nat): (p: nat)
    ensures p > 0
  {
    if k == 0 then 1 else 2 * Pow2(k - 1)
  }

  lemma {:induction false} Pow2Plus3(k: nat)
    ensures Pow2(k + 3) == 8 * Pow2(k)
  {
    assert Pow2(k + 3) == 2 * Pow2(k + 2) && Pow2(k + 2) == 2 * Pow2(k + 1) && Pow2(k + 1) == 2 * Pow2(k);
  }

  lemma {:induction false} Pow2Values()
    ensures Pow2(17) == 131072 && Pow2(18) == 262144
  {
    Pow2Plus3(0);
    Pow2Plus3(3);
    Pow2Plus3(6);
    Pow2Plus3(9);
    Pow2Plus3(12);
    Pow2Plus3(15);
    assert Pow2(18) == 2 * Pow2(17);
  }

  /** The k-th binary digit. */
  function Bit(x: nat, k: nat): nat {
    if k == 0 then x % 2 else Bit(x / 2, k - 1)
  }

  function BitAnd(x: nat, y: nat): nat {
    if x == 0 || y == 0 then 0
    else 2 * BitAnd(x / 2, y / 2) + (if x % 2 == 1 && y % 2 == 1 then 1 else 0)
  }

  /** The definition is the usual one: digit by digit. */
  lemma {:induction false} BitAndDigits(x: nat, y: nat, k: nat)
    ensures Bit(BitAnd(x, y), k) == if Bit(x, k) == 1 && Bit(y, k) == 1 then 1 else 0
  {
    if x == 0 || y == 0 {
      ZeroDigits(k);
    } else if k > 0 {
      BitAndDigits(x / 2, y / 2, k - 1);
    }
  }

  lemma {:induction false} ZeroDigits(k: nat)
    ensures Bit(0, k) == 0
  {
    if k > 0 { ZeroDigits(k - 1); }
  }

  lemma {:induction false} BitAndOdd(x: nat, h: nat)
    ensures BitAnd(x, 2 * h + 1) == 2 * BitAnd(x / 2, h) + x % 2
  {
    assert (2 * h + 1) / 2 == h && (2 * h + 1) % 2 == 1;
  }

  /** Masking with 2^k - 1 is reduction modulo 2^k. */
  lemma {:induction false} LowMask(x: nat, k: nat)
    ensures BitAnd(x, Pow2(k) - 1) == x % Pow2(k)
  {
    if k == 0 {
      assert x % 1 == 0;
    } else {
      var p, q := Pow2(k - 1), Pow2(k);
      assert q == 2 * p;
      hide BitAnd, Pow2;
      LowMask(x / 2, k - 1);
      MaskOneMore(x, p);
    }
  }

  lemma {:induction false} MaskOneMore(x: nat, p: nat)
    requires p > 0 && BitAnd(x / 2, p - 1) == x / 2 % p
    ensures BitAnd(x, 2 * p - 1) == x % (2 * p)
  {
    hide BitAnd;
    BitAndOdd(x, p - 1);
    HalveModulus(x, p);
  }

  lemma {:induction false} HalveModulus(x: nat, p: nat)
    requires p > 0
    ensures x % (2 * p) == 2 * (x / 2 % p) + x % 2
  {
    var q, r := x / 2 / p, x / 2 % p;
    assert x / 2 == q * p + r;
    assert x == (2 * p) * q + (2 * r + x % 2);
    Remainder(x, 2 * p, q, 2 * r + x % 2);
  }

  lemma {:induction false} Remainder(x: nat, m: nat, q: nat, r: nat)
    requires x == m * q + r && r < m
    ensures x % m == r
  {
    var d := x / m - q;
    assert x == m * (x / m) + x % m;
    assert m * d == m * (x / m) - m * q;
    MultipleBound(m, d);
  }

  lemma {:induction false} MultipleBound(m: nat, d: int)
    ensures d >= 1 ==> m * d >= m
    ensures d <= -1 ==> m * d + m <= 0
  {
  }
}
