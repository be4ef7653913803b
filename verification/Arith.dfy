/** Division facts the solver needs spelled out, and bitwise `&` of numbers. */
module Arith {

  lemma {:induction false} MulStep(b: nat, x: nat, y: nat)
    requires x < y
    ensures b * x + b <= b * y
    decreases y
  {
    assert b * y == b * (y - 1) + b;
    if x < y - 1 { MulStep(b, x, y - 1); }
  }

  /** Quotient and remainder are unique. */
  lemma DivIs(x: nat, b: nat, q: nat, r: nat)
    requires b > 0 && r < b && x == b * q + r
    ensures x / b == q && x % b == r
  {
    var q', r' := x / b, x % b;
    assert x == b * q' + r';
    if q' < q { MulStep(b, q', q); }
    if q < q' { MulStep(b, q, q'); }
  }

  function Pow2(k: nat): (p: nat)
    ensures p > 0
  {
    if k == 0 then 1 else 2 * Pow2(k - 1)
  }

  /** x >> k */
  function Shr(x: nat, k: nat): nat
    decreases k
  {
    if k == 0 then x else Shr(x / 2, k - 1)
  }

  /** Bitwise `x & y`. */
  function And(x: nat, y: nat): nat {
    if x == 0 || y == 0 then 0 else 2 * And(x / 2, y / 2) + if x % 2 == 1 && y % 2 == 1 then 1 else 0
  }

  lemma AndOdd(x: nat, m: nat)
    ensures And(x, 2 * m + 1) == 2 * And(x / 2, m) + x % 2
  {
    assert (2 * m + 1) / 2 == m && (2 * m + 1) % 2 == 1;
  }

  lemma AndEven(x: nat, m: nat)
    ensures And(x, 2 * m) == 2 * And(x / 2, m)
  {
    assert (2 * m) / 2 == m && (2 * m) % 2 == 0;
  }

  /** Masking with 2^k - 1 keeps the remainder modulo 2^k. */
  lemma {:induction false} AndLowMask(x: nat, k: nat)
    ensures And(x, Pow2(k) - 1) == x % Pow2(k)
  {
    if k > 0 {
      var h := Pow2(k - 1);
      AndLowMask(x / 2, k - 1);
      AndOdd(x, h - 1);
      ModTwice(x, h);
    }
  }

  lemma ModTwice(x: nat, h: nat)
    requires h > 0
    ensures x % (2 * h) == 2 * (x / 2 % h) + x % 2
  {
    var y, b := x / 2, x % 2;
    var q, r := y / h, y % h;
    assert y == h * q + r && x == 2 * y + b;
    assert x == 2 * h * q + (2 * r + b);
    DivIs(x, 2 * h, q, 2 * r + b);
  }

  lemma {:induction false} Pow2Sum(j: nat, k: nat)
    ensures Pow2(j + k) == Pow2(j) * Pow2(k)
  {
    if k > 0 {
      Pow2Sum(j, k - 1);
      assert Pow2(j) * (2 * Pow2(k - 1)) == 2 * (Pow2(j) * Pow2(k - 1));
    }
  }

  /** Masking with a run of 1 bits from bit e to bit e + f - 1. */
  lemma {:induction false} AndRun(x: nat, e: nat, f: nat)
    ensures Pow2(e) <= Pow2(e + f) && And(x, Pow2(e + f) - Pow2(e)) == x % Pow2(e + f) - x % Pow2(e)
  {
    if e == 0 {
      AndLowMask(x, f);
    } else {
      var h, l := Pow2(e - 1 + f), Pow2(e - 1);
      AndRun(x / 2, e - 1, f);
      AndEven(x, h - l);
      ModTwice(x, h);
      ModTwice(x, l);
    }
  }

  /** The complement of `m` in `w` bits. */
  function Not(w: nat, m: nat): nat
    requires m < Pow2(w)
  {
    Pow2(w) - 1 - m
  }

  lemma AndStep(x: nat, y: nat)
    ensures And(x, y) == 2 * And(x / 2, y / 2) + if x % 2 == 1 && y % 2 == 1 then 1 else 0
  {
  }

  lemma {:induction false} AndNot(x: nat, w: nat, m: nat)
    requires m < Pow2(w)
    ensures And(x, m) + And(x, Not(w, m)) == x % Pow2(w)
  {
    if w > 0 {
      var h := Pow2(w - 1);
      AndNot(x / 2, w - 1, m / 2);
      AndStep(x, m);
      AndStep(x, Not(w, m));
      assert Not(w, m) / 2 == Not(w - 1, m / 2) && Not(w, m) % 2 == 1 - m % 2;
      ModTwice(x, h);
    }
  }

  /** Reducing modulo a multiple first changes nothing. */
  lemma ModMod(x: nat, b: nat, c: nat)
    requires b > 0 && c > 0
    ensures b * c > 0 && x % (b * c) % b == x % b
  {
    MulStep(b, 0, c);
    Compose(x, b, c, x / (b * c), x % (b * c) / b, x % (b * c) % b);
  }

  lemma Compose(x: nat, b: nat, c: nat, q: nat, q': nat, r: nat)
    requires b > 0 && x == b * c * q + (b * q' + r) && r < b
    ensures x % b == r
  {
    assert b * c * q == b * (c * q);
    assert b * (c * q + q') == b * (c * q) + b * q';
    DivIs(x, b, c * q + q', r);
  }

  /** Bitwise `x | y`. */
  function Or(x: nat, y: nat): (r: nat)
    ensures r >= y
  {
    if x == 0 then y
    else if y == 0 then x
    else 2 * Or(x / 2, y / 2) + if x % 2 == 1 || y % 2 == 1 then 1 else 0
  }

  lemma OrStep(x: nat, y: nat)
    ensures Or(x, y) == 2 * Or(x / 2, y / 2) + if x % 2 == 1 || y % 2 == 1 then 1 else 0
    ensures Or(x, y) / 2 == Or(x / 2, y / 2) && (Or(x, y) % 2 == 1 <==> x % 2 == 1 || y % 2 == 1)
  {
  }

  lemma {:induction false} OrSwap(x: nat, y: nat, z: nat)
    ensures Or(Or(x, y), z) == Or(Or(x, z), y)
    decreases x + y + z
  {
    if x + y + z > 0 {
      OrSwap(x / 2, y / 2, z / 2);
      OrStep(x, y);
      OrStep(x, z);
      OrStep(Or(x, y), z);
      OrStep(Or(x, z), y);
    }
  }

  lemma OrEven(x: nat, t: nat)
    ensures Or(x, 2 * t) == 2 * Or(x / 2, t) + x % 2
  {
    OrStep(x, 2 * t);
  }

  /** y << k */
  function Shl(y: nat, k: nat): nat {
    if k == 0 then y else 2 * Shl(y, k - 1)
  }

  lemma {:induction false} ShlIs(y: nat, k: nat)
    ensures Shl(y, k) == Pow2(k) * y
  {
    if k > 0 {
      ShlIs(y, k - 1);
      Twice(Pow2(k - 1), y);
    }
  }

  lemma Twice(p: nat, y: nat)
    ensures (2 * p) * y == 2 * (p * y)
  {
  }

  /** Bits below and from bit k on do not meet. */
  lemma {:induction false} OrShl(x: nat, k: nat, y: nat)
    requires x < Pow2(k)
    ensures Or(x, Shl(y, k)) == x + Shl(y, k)
    decreases k
  {
    if k > 0 {
      OrShl(x / 2, k - 1, y);
      OrEven(x, Shl(y, k - 1));
    }
  }

  lemma OrApart(x: nat, k: nat, y: nat, w: nat)
    requires x < Pow2(k) && w == Pow2(k) * y
    ensures Or(x, w) == x + w
  {
    OrShl(x, k, y);
    ShlIs(y, k);
  }
}
