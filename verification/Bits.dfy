/** Bitwise AND on unsigned integers, and the two places where the driver relies on it. */
module Bits {
  import Ring

  function Pow2(k: nat): (r: nat)
    ensures r > 0
  {
    if k == 0 then 1 else 2 * Pow2(k - 1)
  }

  function And(x: nat, y: nat): nat
  {
    if x == 0 || y == 0 then 0
    else (if x % 2 == 1 && y % 2 == 1 then 1 else 0) + 2 * And(x / 2, y / 2)
  }

  predicate IsPow2(a: nat)
  {
    a == 1 || (a > 0 && a % 2 == 0 && IsPow2(a / 2))
  }

  lemma AndSelf(x: nat)
    ensures And(x, x) == x
  {
  }

  lemma DoubleMod(h: nat, b: nat, p: nat)
    requires 0 < p && b < 2
    ensures (2 * h + b) % (2 * p) == 2 * (h % p) + b
  {
    var q, r := h / p, h % p;
    assert h == p * q + r;
    assert (2 * p) * q == 2 * (p * q);
    Ring.ModUnique(2 * h + b, q, 2 * r + b, 2 * p);
  }

  /** `x & (2^k - 1)` is the remainder modulo `2^k`. */
  lemma {:induction false} AndMaskIsMod(x: nat, k: nat)
    ensures And(x, Pow2(k) - 1) == x % Pow2(k)
  {
    hide And;
    if k == 0 {
      AndNone(x);
    } else {
      var p := Pow2(k - 1);
      AndMaskIsMod(x / 2, k - 1);
      AndOdd(x, p - 1);
      assert x == 2 * (x / 2) + x % 2;
      DoubleMod(x / 2, x % 2, p);
    }
  }

  lemma AndNone(x: nat)
    ensures And(x, 0) == 0
  {
  }

  lemma AndOdd(x: nat, m: nat)
    ensures And(x, 2 * m + 1) == x % 2 + 2 * And(x / 2, m)
  {
    assert (2 * m + 1) / 2 == m;
  }

  /** The test `a & (a - 1) == 0` accepts exactly the powers of two. */
  lemma {:induction false} PowerOfTwoTest(a: nat)
    requires a > 0
    ensures And(a, a - 1) == 0 <==> IsPow2(a)
  {
    if a == 1 {
    } else if a % 2 == 1 {
      AndSelf(a / 2);
      assert (a - 1) / 2 == a / 2;
    } else {
      assert (a - 1) / 2 == a / 2 - 1;
      PowerOfTwoTest(a / 2);
    }
  }

  lemma {:induction false} Log2(a: nat) returns (k: nat)
    requires IsPow2(a)
    ensures a == Pow2(k)
  {
    if a == 1 {
      k := 0;
    } else {
      var j := Log2(a / 2);
      k := j + 1;
    }
  }

  /** For an accepted aperture the mask in the driver is a remainder. */
  lemma MaskIsMod(x: nat, a: nat)
    requires IsPow2(a)
    ensures And(x, a - 1) == x % a
  {
    var k := Log2(a);
    AndMaskIsMod(x, k);
  }
}
