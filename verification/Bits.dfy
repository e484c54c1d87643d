/** Masks and remainders: what `&` with a power of two does. */
module Bits {
  import opened Words

  function BitAnd(x: nat, y: nat): (r: nat)
    ensures r <= x
  {
    if x == 0 || y == 0 then 0 else x % 2 * (y % 2) + 2 * BitAnd(x / 2, y / 2)
  }

  lemma {:induction false} AndOnes(x: nat, n: nat)
    requires x < Pow2(n)
    ensures BitAnd(x, Pow2(n) - 1) == x
    decreases n
  {
    if n > 0 && x > 0 {
      assert (Pow2(n) - 1) / 2 == Pow2(n - 1) - 1 && (Pow2(n) - 1) % 2 == 1;
      AndOnes(x / 2, n - 1);
    }
  }

  /** The low k bits masked off. */
  lemma {:induction false} AndHigh(x: nat, k: nat, n: nat)
    requires k <= n && x < Pow2(n)
    ensures Pow2(k) <= Pow2(n)
    ensures BitAnd(x, Pow2(n) - Pow2(k)) <= x < BitAnd(x, Pow2(n) - Pow2(k)) + Pow2(k)
    ensures BitAnd(x, Pow2(n) - Pow2(k)) % Pow2(k) == 0
    decreases k
  {
    if k == 0 {
      AndOnes(x, n);
    } else {
      var y := Pow2(n - 1) - Pow2(k - 1);
      AndHigh(x / 2, k - 1, n - 1);
      assert Pow2(n) - Pow2(k) == 2 * y;
      var half := BitAnd(x / 2, y);
      AndDouble(x, y);
      DoubleMod(half, Pow2(k - 1));
    }
  }

  lemma AndDouble(x: nat, y: nat)
    ensures BitAnd(x, 2 * y) == 2 * BitAnd(x / 2, y)
  {
    if y > 0 && x > 0 {
      assert 2 * y % 2 == 0 && 2 * y / 2 == y;
    }
  }

  lemma DoubleMod(x: nat, m: nat)
    requires m > 0 && x % m == 0
    ensures 2 * x % (2 * m) == 0
  {
    var q := x / m;
    assert x == q * m;
    assert 2 * x == q * (2 * m);
    MultipleMod(q, 2 * m);
  }

  lemma MultipleMod(q: nat, m: nat)
    requires m > 0
    ensures q * m % m == 0
  {
    if q > 0 {
      MultipleMod(q - 1, m);
      assert q * m == (q - 1) * m + m;
      AddMod((q - 1) * m, m);
    }
  }

  lemma AddMod(x: nat, m: nat)
    requires m > 0
    ensures (x + m) % m == x % m
  {
    assert x + m == (x / m + 1) * m + x % m;
    ModUnique(x + m, m, x / m + 1, x % m);
  }

  lemma ModUnique(x: nat, m: nat, q: nat, r: nat)
    requires m > 0 && x == q * m + r && r < m
    ensures x % m == r
  {
    var d := x / m - q;
    Minus(x / m, q, m);
    assert d * m == r - x % m;
    if d > 0 { Minus(d, 1, m); }
    if d < 0 { Minus(-1, d, m); }
  }

  lemma Minus(a: int, b: int, m: nat)
    ensures (a - b) * m == a * m - b * m
    ensures a >= b ==> (a - b) * m >= 0
  {}

  lemma Pow2At64()
    ensures Pow2(64) == TWO64
  {
    assert Pow2(4) == 16;
    hide Pow2;
    Pow2Plus(4, 4);
    Pow2Plus(8, 8);
    Pow2Plus(16, 16);
    Pow2Plus(32, 32);
  }

  lemma {:induction false} Pow2Plus(a: nat, b: nat)
    ensures Pow2(a + b) == Pow2(a) * Pow2(b)
  {
    if a > 0 {
      Pow2Plus(a - 1, b);
      assert 2 * Pow2(a - 1) * Pow2(b) == Pow2(a) * Pow2(b);
    }
  }

  lemma {:induction false} AndLow(x: nat, k: nat)
    ensures BitAnd(x, Pow2(k) - 1) == x % Pow2(k)
    decreases k
  {
    hide BitAnd;
    if k == 0 {
      AndZero(x);
    } else {
      var m := Pow2(k - 1);
      AndOdd(x, m);
      AndLow(x / 2, k - 1);
      HalfMod(x, m);
    }
  }

  lemma AndZero(x: nat)
    ensures BitAnd(x, 0) == 0
  {}

  lemma AndOdd(x: nat, m: nat)
    requires m > 0
    ensures BitAnd(x, 2 * m - 1) == x % 2 + 2 * BitAnd(x / 2, m - 1)
  {
    assert (2 * m - 1) / 2 == m - 1 && (2 * m - 1) % 2 == 1;
    if x == 0 { assert BitAnd(0, m - 1) == 0; }
  }

  lemma HalfMod(x: nat, m: nat)
    requires m > 0
    ensures x % (2 * m) == x % 2 + 2 * (x / 2 % m)
  {
    var q, r := x / 2 / m, x / 2 % m;
    assert x / 2 == q * m + r;
    assert x == q * (2 * m) + (x % 2 + 2 * r);
    ModUnique(x, 2 * m, q, x % 2 + 2 * r);
  }
}
