/** Powers of two, and facts about products, quotients and remainders that the
    solver needs spelled out. */
module Arith {

  function Pow2(n: nat): (r: nat)
    ensures r >= 1
  {
    if n == 0 then 1 else 2 * Pow2(n - 1)
  }

  lemma {:induction false} Pow2Add(a: nat, b: nat)
    ensures Pow2(a + b) == Pow2(a) * Pow2(b)
  {
    if b > 0 {
      Pow2Add(a, b - 1);
      assert Pow2(a + b) == 2 * Pow2(a + (b - 1));
      assert 2 * (Pow2(a) * Pow2(b - 1)) == Pow2(a) * (2 * Pow2(b - 1));
    }
  }

  lemma {:induction false} PowMono(a: nat, b: nat)
    requires a <= b
    ensures Pow2(a) <= Pow2(b)
  {
    if a < b { PowMono(a, b - 1); }
  }

  lemma {:induction false} MulMono(d: nat, x: int, y: int)
    requires x <= y
    ensures d * x <= d * y
  {
    if d > 0 {
      MulMono(d - 1, x, y);
      assert d * x == (d - 1) * x + x;
      assert d * y == (d - 1) * y + y;
    }
  }

  // Quotient and remainder are determined by the division equation.
  lemma DivUnique(a: int, d: nat, q: int, r: nat)
    requires d > 0 && a == d * q + r && r < d
    ensures a % d == r && a / d == q
  {
    var e := a / d;
    assert a == d * e + a % d;
    if e < q {
      MulMono(d, e + 1, q);
    } else if e > q {
      MulMono(d, q + 1, e);
    }
  }

  lemma ModShift(r: nat, d: nat, k: nat)
    requires d > 0
    ensures (d * k + r) % d == r % d
  {
    assert d * k + r == d * (k + r / d) + r % d;
    DivUnique(d * k + r, d, k + r / d, r % d);
  }

  // A remainder modulo a multiple of d keeps the remainder modulo d.
  lemma ModOfMod(u: nat, d: nat, e: nat, h: nat)
    requires d > 0 && e > 0 && h == d * e
    ensures h > 0 && (u % h) % d == u % d
  {
    MulMono(d, 1, e);
    var q, r := u / h, u % h;
    assert u == h * q + r;
    Regroup(d, e, q);
    ModShift(r, d, e * q);
  }

  lemma Regroup(a: nat, b: nat, c: nat)
    ensures (a * b) * c == a * (b * c)
  {
  }

  lemma HalfQuotient(x: nat, p: nat, q: nat, r: nat, h: nat)
    requires p > 0 && x == p * q + r && r < p
    requires q == 2 * h || q == 2 * h + 1
    ensures x / (2 * p) == h
  {
    Regroup(2, p, h);
    if q == 2 * h {
      assert p * (2 * h) == 2 * (p * h);
      DivUnique(x, 2 * p, h, r);
    } else {
      assert p * (2 * h + 1) == 2 * (p * h) + p;
      DivUnique(x, 2 * p, h, p + r);
    }
  }

  lemma DivDiv(x: nat, p: nat)
    requires p > 0
    ensures x / (2 * p) == (x / p) / 2
  {
    HalfQuotient(x, p, x / p, x % p, (x / p) / 2);
  }

  // Dropping the lowest bit of a remainder.
  lemma HalfMod(y: nat, h: nat)
    requires h > 0
    ensures (y % (2 * h)) / 2 == (y / 2) % h
    ensures (y % (2 * h)) % 2 == y % 2
  {
    HalfRemainder(y, h, y / (2 * h), y % (2 * h));
  }

  lemma HalfRemainder(y: nat, h: nat, q: nat, r: nat)
    requires h > 0 && y == (2 * h) * q + r && r < 2 * h
    ensures r / 2 == (y / 2) % h && r % 2 == y % 2
  {
    Regroup(2, h, q);
    HalvesAgree(y, h * q, r);
    DivUnique(y / 2, h, q, r / 2);
  }

  lemma HalvesAgree(y: nat, a: nat, r: nat)
    requires y == 2 * a + r
    ensures y / 2 == a + r / 2 && y % 2 == r % 2
  {
  }
}
