/** Bitwise and on natural numbers, and the two masks the repository builds from powers
    of two: `x & (n - 1)` and `x & ~(n - 1)`. */
module Bits {
  newtype byte = x: int | 0 <= x < 256

  function BitAnd(x: nat, y: nat): (r: nat)
    ensures r <= x && r <= y
    decreases x
  {
    if x == 0 || y == 0 then 0
    else 2 * BitAnd(x / 2, y / 2) + if x % 2 == 1 && y % 2 == 1 then 1 else 0
  }

  function Pow2(k: nat): (p: nat)
    ensures 0 < p
  {
    if k == 0 then 1 else 2 * Pow2(k - 1)
  }

  lemma MultipleIsLarge(z: int, d: int)
    requires 0 < d
    ensures z == 0 || z * d >= d || z * d <= -d
  {
    if z >= 1 { assert (z - 1) * d >= 0; }
    if z <= -1 { assert (-z - 1) * d >= 0; }
  }

  lemma Distribute(x: int, y: int, d: int)
    ensures (x - y) * d == x * d - y * d
  {
  }

  lemma DivModUnique(a: int, d: int, q: int, r: int)
    requires 0 <= r < d && a == q * d + r
    ensures a / d == q && a % d == r
  {
    Distribute(q, a / d, d);
    assert a == d * (a / d) + a % d;
    MultipleIsLarge(q - a / d, d);
  }

  lemma ModDouble(h: nat, m: nat)
    requires 0 < m
    ensures h % (2 * m) == 2 * (h / 2 % m) + h % 2
  {
    var q, r := h / 2 / m, h / 2 % m;
    assert h / 2 == q * m + r;
    assert h == q * (2 * m) + (2 * r + h % 2) by {
      assert h == 2 * (h / 2) + h % 2;
      assert 2 * (q * m) == q * (2 * m);
    }
    DivModUnique(h, 2 * m, q, 2 * r + h % 2);
  }

  /** Masking with n - 1 is the remainder modulo n, for every power of two n. */
  lemma {:induction false} MaskIsModulo(h: nat, k: nat)
    ensures BitAnd(h, Pow2(k) - 1) == h % Pow2(k)
    decreases k
  {
    if k > 0 {
      var m := Pow2(k - 1);
      assert (2 * m - 1) / 2 == m - 1 && (2 * m - 1) % 2 == 1;
      MaskIsModulo(h / 2, k - 1);
      ModDouble(h, m);
      if h == 0 { assert 0 % (2 * m) == 0; }
    }
  }

  lemma {:induction false} AndSelf(x: nat)
    ensures BitAnd(x, x) == x
  {
    if x > 0 { AndSelf(x / 2); }
  }

  ghost predicate IsPow2(n: nat) {
    exists k: nat :: n == Pow2(k)
  }

  lemma HalfPow2(n: nat)
    requires 1 < n
    ensures IsPow2(n) <==> n % 2 == 0 && IsPow2(n / 2)
  {
    if IsPow2(n) {
      var k: nat :| n == Pow2(k);
      assert n / 2 == Pow2(k - 1);
    }
    if n % 2 == 0 && IsPow2(n / 2) {
      var k: nat :| n / 2 == Pow2(k);
      assert n == Pow2(k + 1);
    }
  }

  /** The test of the hash map's constructor accepts exactly the powers of two. */
  lemma {:induction false} PowerOfTwoTest(n: nat)
    requires 0 < n
    ensures BitAnd(n - 1, n) == 0 <==> IsPow2(n)
  {
    if n == 1 {
      assert n == Pow2(0);
    } else if n % 2 == 1 {
      assert (n - 1) / 2 == n / 2;
      AndSelf(n / 2);
      HalfPow2(n);
    } else {
      assert (n - 1) / 2 == n / 2 - 1;
      PowerOfTwoTest(n / 2);
      HalfPow2(n);
    }
  }

  lemma {:induction false} Pow2Monotone(j: nat, k: nat)
    requires j <= k
    ensures Pow2(j) <= Pow2(k)
  {
    if j < k { Pow2Monotone(j, k - 1); }
  }

  lemma Pow2Byte(k: nat)
    ensures Pow2(k + 8) == 256 * Pow2(k)
  {
    assert Pow2(k + 8) == 4 * Pow2(k + 6) == 16 * Pow2(k + 4) == 64 * Pow2(k + 2);
  }

  lemma Pow2Word()
    ensures Pow2(64) == 0x1_0000_0000_0000_0000
  {
    Pow2Byte(0);
    Pow2Byte(8);
    Pow2Byte(16);
    Pow2Byte(24);
    Pow2Byte(32);
    Pow2Byte(40);
    Pow2Byte(48);
    Pow2Byte(56);
  }

  lemma AndDoubled(x: nat, y: nat)
    ensures BitAnd(x, 2 * y) == 2 * BitAnd(x / 2, y)
  {
    assert 2 * y / 2 == y && 2 * y % 2 == 0;
  }

  /** The largest multiple of m that is not above x. */
  function RoundDown(x: nat, m: nat): nat
    requires 0 < m
  {
    x - x % m
  }

  lemma RoundDownDouble(x: nat, m: nat)
    requires 0 < m
    ensures RoundDown(x, 2 * m) == 2 * RoundDown(x / 2, m)
  {
    ModDouble(x, m);
  }

  lemma WholeWordMask(x: nat, w: nat)
    requires x < Pow2(w)
    ensures BitAnd(x, Pow2(w) - Pow2(0)) == RoundDown(x, Pow2(0))
  {
    MaskIsModulo(x, w);
    DivModUnique(x, Pow2(w), 0, x);
    DivModUnique(x, 1, x, 0);
  }

  lemma ComplementMaskStep(x: nat, m: nat, n: nat)
    requires 0 < m <= n && BitAnd(x / 2, n - m) == RoundDown(x / 2, m)
    ensures BitAnd(x, 2 * n - 2 * m) == RoundDown(x, 2 * m)
  {
    hide BitAnd, RoundDown;
    RoundDownDouble(x, m);
    AndDoubled(x, n - m);
  }

  /** In words of w bits, masking with the complement of 2^k - 1 rounds down to a multiple
      of 2^k. */
  lemma {:induction false} ComplementMaskRoundsDown(x: nat, k: nat, w: nat)
    requires k <= w && x < Pow2(w)
    ensures Pow2(k) <= Pow2(w) && BitAnd(x, Pow2(w) - Pow2(k)) == RoundDown(x, Pow2(k))
    decreases w
  {
    Pow2Monotone(k, w);
    assert k > 0 ==> Pow2(k) == 2 * Pow2(k - 1) && Pow2(w) == 2 * Pow2(w - 1);
    hide Pow2, BitAnd, RoundDown;
    if k == 0 {
      WholeWordMask(x, w);
    } else {
      ComplementMaskRoundsDown(x / 2, k - 1, w - 1);
      ComplementMaskStep(x, Pow2(k - 1), Pow2(w - 1));
    }
  }
}
