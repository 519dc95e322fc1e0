// Bitwise operators on unbounded non-negative integers, defined bit by bit, and
// the facts that turn the masks of the hash table into arithmetic.
module Bits {

  function Pow2(k: nat): (p: nat)
    ensures p >= 1
  {
    if k == 0 then 1 else 2 * Pow2(k - 1)
  }

  ghost predicate IsPow2(n: nat) {
    exists k: nat :: n == Pow2(k)
  }

  function And(a: nat, b: nat): nat {
    if a == 0 || b == 0 then 0
    else (if a % 2 == 1 && b % 2 == 1 then 1 else 0) + 2 * And(a / 2, b / 2)
  }

  // `a & ~b`
  function AndNot(a: nat, b: nat): nat {
    if a == 0 then 0
    else (if a % 2 == 1 && b % 2 == 0 then 1 else 0) + 2 * AndNot(a / 2, b / 2)
  }

  function Or(a: nat, b: nat): nat
    decreases a + b
  {
    if a == 0 && b == 0 then 0
    else (if a % 2 == 1 || b % 2 == 1 then 1 else 0) + 2 * Or(a / 2, b / 2)
  }

  function Xor(a: nat, b: nat): nat
    decreases a + b
  {
    if a == 0 && b == 0 then 0
    else (if a % 2 != b % 2 then 1 else 0) + 2 * Xor(a / 2, b / 2)
  }

  // Division by a double is halving first.
  lemma HalvedMod(x: nat, m: nat)
    requires m > 0
    ensures x % (2 * m) == x % 2 + 2 * (x / 2 % m)
  {
    var q := x / 2 / m;
    assert x / 2 == q * m + x / 2 % m;
    assert x == 2 * (q * m + x / 2 % m) + x % 2;
    assert x == q * (2 * m) + (x % 2 + 2 * (x / 2 % m));
    ModUnique(x, 2 * m, q, x % 2 + 2 * (x / 2 % m));
  }

  lemma ModUnique(x: int, m: int, q: int, r: int)
    requires m > 0 && 0 <= r < m && x == q * m + r
    ensures x % m == r && x / m == q
  {
    var d := x / m - q;
    assert d * m == r - x % m;
    Multiple(d, m);
  }

  lemma Multiple(d: int, m: int)
    requires m > 0
    ensures d >= 1 ==> d * m >= m
    ensures d <= -1 ==> d * m <= -m
  {
  }

  lemma Pow2Monotone(j: nat, k: nat)
    requires j <= k
    ensures Pow2(j) <= Pow2(k)
  {
    if j < k {
      Pow2Monotone(j, k - 1);
    }
  }

  lemma HalfMask(k: nat)
    requires k > 0
    ensures (Pow2(k) - 1) / 2 == Pow2(k - 1) - 1 && (Pow2(k) - 1) % 2 == 1
    ensures Pow2(k) / 2 == Pow2(k - 1) && Pow2(k) % 2 == 0
  {
    var p := Pow2(k - 1);
    assert Pow2(k) == 2 * p;
  }

  lemma {:induction false} AndNotMasks(j: nat, k: nat)
    requires j <= k
    ensures Pow2(j) <= Pow2(k)
    ensures AndNot(Pow2(k) - 1, Pow2(j) - 1) == Pow2(k) - Pow2(j)
  {
    hide AndNot;
    Pow2Monotone(j, k);
    if j == 0 {
      AndNotZero(Pow2(k) - 1);
    } else {
      var a, b := Pow2(k) - 1, Pow2(j) - 1;
      HalfMask(k);
      HalfMask(j);
      AndNotMasks(j - 1, k - 1);
      AndNotHalves(a, b);
    }
  }

  lemma {:induction false} AndNotZero(x: nat)
    ensures AndNot(x, 0) == x
  {
    if x > 0 {
      AndNotZero(x / 2);
    }
  }

  // The low `k` bits.
  function Low(x: nat, k: nat): nat {
    if k == 0 then 0 else x % 2 + 2 * Low(x / 2, k - 1)
  }

  lemma {:induction false} LowIsModulo(x: nat, k: nat)
    ensures Low(x, k) == x % Pow2(k)
  {
    if k > 0 {
      LowIsModulo(x / 2, k - 1);
      HalvedMod(x, Pow2(k - 1));
    }
  }

  // `x & ((2^k - 1) & ~(2^j - 1))`
  lemma {:induction false} AndMask(x: nat, j: nat, k: nat)
    requires j <= k
    ensures Pow2(j) <= Pow2(k)
    ensures And(x, Pow2(k) - Pow2(j)) == Low(x, k) - Low(x, j)
  {
    Pow2Monotone(j, k);
    if k == j {
      AndZero(x);
    } else if j == 0 {
      HalfMask(k);
      AndMask(x / 2, 0, k - 1);
      AndHalves(x, Pow2(k) - 1);
    } else {
      AndMask(x / 2, j - 1, k - 1);
      AndHalves(x, Pow2(k) - Pow2(j));
    }
  }

  lemma AndHalves(a: nat, b: nat)
    ensures And(a, b) == (if a % 2 == 1 && b % 2 == 1 then 1 else 0) + 2 * And(a / 2, b / 2)
  {
  }

  lemma AndZero(x: nat)
    ensures And(x, 0) == 0
  {
  }

  // `x & ~(2^j - 1)`
  lemma {:induction false} AndNotLow(x: nat, j: nat)
    ensures AndNot(x, Pow2(j) - 1) == x - Low(x, j)
  {
    if j == 0 {
      AndNotZero(x);
    } else {
      HalfMask(j);
      AndNotLow(x / 2, j - 1);
      AndNotHalves(x, Pow2(j) - 1);
    }
  }

  lemma AndNotHalves(a: nat, b: nat)
    ensures AndNot(a, b) == (if a % 2 == 1 && b % 2 == 0 then 1 else 0) + 2 * AndNot(a / 2, b / 2)
  {
  }

  // Setting and toggling one bit above a value.
  lemma {:induction false} SetHighBit(x: nat, k: nat)
    requires x < Pow2(k)
    ensures Or(x, Pow2(k)) == x + Pow2(k)
  {
    if k > 0 {
      var p := Pow2(k);
      HalfMask(k);
      SetHighBit(x / 2, k - 1);
      assert Or(x, p) == x % 2 + 2 * Or(x / 2, p / 2);
    }
  }

  lemma {:induction false} ToggleHighBit(x: nat, k: nat)
    requires x < Pow2(k)
    ensures Xor(x, Pow2(k)) == x + Pow2(k)
    ensures Xor(x + Pow2(k), Pow2(k)) == x
  {
    if k > 0 {
      var p, y := Pow2(k), x + Pow2(k);
      HalfMask(k);
      ToggleHighBit(x / 2, k - 1);
      assert y % 2 == x % 2 && y / 2 == x / 2 + p / 2;
      assert Xor(x, p) == x % 2 + 2 * Xor(x / 2, p / 2);
      assert Xor(y, p) == y % 2 + 2 * Xor(y / 2, p / 2);
    }
  }
}
