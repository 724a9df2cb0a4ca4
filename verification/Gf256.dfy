/** The field GF(256) behind the Reed-Solomon codec: the shift register that
    fills the log tables (src/rs_init.c), and multiplication defined without
    them, as carry-less multiplication reduced by the field polynomial. */
module Gf256 {

  // One step of the table generator: multiply by x, reduce by x^8 + g.  The
  // mask 0 - (a >> 7) is all ones exactly when the top bit is shifted out.
  function TimesX(g: bv8, a: bv8): bv8 {
    (a << 1) ^ ((0 - (a >> 7)) & g)
  }

  // x^n * a
  function Orbit(g: bv8, a: bv8, n: nat): bv8
    decreases n, a, g
  {
    if n == 0 then a else TimesX(g, Orbit(g, a, n - 1))
  }

  // The field polynomial of the frame header code, 0x11d without its top bit.
  const POLY: bv8 := 0x1d

  // ---------- the orbit of 1 ----------

  lemma {:induction false} OrbitAdd(g: bv8, a: bv8, m: nat, n: nat)
    ensures Orbit(g, a, m + n) == Orbit(g, Orbit(g, a, m), n)
    decreases n
  {
    if n > 0 {
      OrbitAdd(g, a, m, n - 1);
      assert m + n - 1 == m + (n - 1);
    }
  }

  lemma {:induction false} OrbitMultiple(g: bv8, d: nat, k: nat)
    requires Orbit(g, 1, d) == 1
    ensures Orbit(g, 1, k * d) == 1
    decreases k
  {
    if k > 0 {
      OrbitMultiple(g, d, k - 1);
      OrbitAdd(g, 1, (k - 1) * d, d);
      assert (k - 1) * d + d == k * d;
    }
  }

  // Reducing an exponent modulo a period.
  lemma OrbitMod(g: bv8, n: nat, p: nat)
    requires p > 0 && Orbit(g, 1, p) == 1
    ensures Orbit(g, 1, n) == Orbit(g, 1, n % p)
  {
    OrbitMultiple(g, p, n / p);
    assert (n / p) * p >= 0;
    OrbitAdd(g, 1, (n / p) * p, n % p);
    assert n == (n / p) * p + n % p;
  }

  // The check made at the end of the table loop.
  predicate Accepted(g: bv8) { Orbit(g, 1, 255) == 1 }

  // What the tables need: the first 255 powers are all different.
  ghost predicate Primitive(g: bv8) {
    forall i: nat, j: nat :: i < j < 255 ==> Orbit(g, 1, i) != Orbit(g, 1, j)
  }

  // The three exponents that decide primitivity: 255 = 3 * 5 * 17.
  predicate NoShortPeriod(g: bv8) {
    Orbit(g, 1, 85) != 1 && Orbit(g, 1, 51) != 1 && Orbit(g, 1, 15) != 1
  }

  lemma Scale(p: nat, q: nat, f: nat, e: nat)
    requires p * q == 255
    ensures q * (p * f + e) == 255 * f + q * e
  {
    assert q * (p * f) == (p * q) * f;
  }

  // A period d below 255 misses one of the primes 3, 5, 17; q = 255/p times it
  // is q * (d mod p) modulo 255, and a further multiple is q itself.
  lemma ShortPeriod(g: bv8, p: nat, q: nat, f: nat, e: nat, m: nat, h: nat)
    requires Accepted(g) && p * q == 255
    requires Orbit(g, 1, p * f + e) == 1
    requires e * m == p * h + 1
    ensures Orbit(g, 1, q) == 1
  {
    var d := p * f + e;
    OrbitMultiple(g, d, q);
    Scale(p, q, f, e);
    SamePower(g, q * d, q * e, f);
    OrbitMultiple(g, q * e, m);
    assert m * (q * e) == q * (e * m);
    Scale(p, q, h, 1);
    SamePower(g, m * (q * e), q, h);
  }

  lemma SamePower(g: bv8, m: nat, n: nat, k: nat)
    requires Accepted(g) && m == 255 * k + n
    ensures Orbit(g, 1, m) == Orbit(g, 1, n)
  {
    OrbitMultiple(g, 255, k);
    OrbitAdd(g, 1, k * 255, n);
  }

  lemma InverseMod5(e: nat) returns (m: nat, h: nat)
    requires 0 < e < 5
    ensures e * m == 5 * h + 1
  {
    m := [0, 1, 3, 2, 4][e];
    h := [0, 0, 1, 1, 3][e];
  }

  lemma InverseMod17(e: nat) returns (m: nat, h: nat)
    requires 0 < e < 17
    ensures e * m == 17 * h + 1
  {
    m := [0, 1, 9, 6, 13, 7, 3, 5, 15, 2, 12, 14, 10, 4, 11, 8, 16][e];
    h := [0, 0, 1, 1, 3, 2, 1, 2, 7, 1, 7, 9, 7, 3, 9, 7, 15][e];
  }

  lemma MultipleOf255(d: nat, a: nat, b: nat, c: nat)
    requires 0 < d < 255 && d == 3 * a && d == 5 * b
    ensures d != 17 * c
  {
    assert d == 15 * (2 * b - a);
  }

  lemma PeriodIsNotShort(g: bv8, d: nat)
    requires Accepted(g) && NoShortPeriod(g) && 0 < d < 255
    ensures Orbit(g, 1, d) != 1
  {
    if Orbit(g, 1, d) == 1 {
      var d3, d5, d17 := d / 3, d / 5, d / 17;
      if d != 3 * d3 {
        var e := d - 3 * d3;
        assert e * e == 3 * (e - 1) + 1;
        ShortPeriod(g, 3, 85, d3, e, e, e - 1);
      } else if d != 5 * d5 {
        var m, h := InverseMod5(d - 5 * d5);
        ShortPeriod(g, 5, 51, d5, d - 5 * d5, m, h);
      } else {
        MultipleOf255(d, d3, d5, d17);
        var m, h := InverseMod17(d - 17 * d17);
        ShortPeriod(g, 17, 15, d17, d - 17 * d17, m, h);
      }
      assert false;
    }
  }

  // A polynomial the table loop accepts is primitive exactly when none of the
  // three short exponents returns to 1.
  lemma AcceptedIsPrimitiveIff(g: bv8)
    requires Accepted(g)
    ensures Primitive(g) <==> NoShortPeriod(g)
  {
    if NoShortPeriod(g) {
      forall i: nat, j: nat | i < j < 255 ensures Orbit(g, 1, i) != Orbit(g, 1, j) {
        if Orbit(g, 1, i) == Orbit(g, 1, j) {
          OrbitAdd(g, 1, i, 255 - i);
          OrbitAdd(g, 1, j, 255 - i);
          OrbitAdd(g, 1, 255, j - i);
          assert j + (255 - i) == 255 + (j - i);
          PeriodIsNotShort(g, j - i);
          assert false;
        }
      }
    } else {
      var d := if Orbit(g, 1, 85) == 1 then 85 else if Orbit(g, 1, 51) == 1 then 51 else 15;
      assert Orbit(g, 1, 0) == Orbit(g, 1, d);
    }
  }

  // ---------- evaluating long orbits ----------

  function TimesX4(g: bv8, a: bv8): bv8 {
    TimesX(g, TimesX(g, TimesX(g, TimesX(g, a))))
  }

  lemma Orbit4(g: bv8, a: bv8)
    ensures Orbit(g, a, 4) == TimesX4(g, a)
  {
    assert Orbit(g, a, 1) == TimesX(g, a);
    assert Orbit(g, a, 2) == TimesX(g, Orbit(g, a, 1));
  }

  lemma Orbit17(g: bv8, a: bv8)
    ensures Orbit(g, a, 17) == TimesX17(g, a)
  {
    Orbit4(g, a);
    Orbit4(g, Orbit(g, a, 4));
    OrbitAdd(g, a, 4, 4);
    Orbit4(g, Orbit(g, a, 8));
    OrbitAdd(g, a, 8, 4);
    Orbit4(g, Orbit(g, a, 12));
    OrbitAdd(g, a, 12, 4);
  }

  // The test after the loop alone does not establish primitivity: 0x11b passes,
  // yet x has order 51 there.
  lemma NonPrimitiveAccepted()
    ensures Accepted(0x1b) && !Primitive(0x1b)
  {
    Orbit17(0x1b, 1);
    Orbit17(0x1b, 0xbc);
    Orbit17(0x1b, 0xbd);
    OrbitAdd(0x1b, 1, 17, 17);
    OrbitAdd(0x1b, 1, 34, 17);
    OrbitMultiple(0x1b, 51, 5);
    assert Orbit(0x1b, 1, 51) == Orbit(0x1b, 1, 0);
  }

  function TimesX17(g: bv8, a: bv8): bv8 {
    TimesX(g, TimesX4(g, TimesX4(g, TimesX4(g, TimesX4(g, a)))))
  }

  lemma Hop5(g: bv8, n: nat, a: bv8)
    requires Orbit(g, 1, n) == a
    ensures Orbit(g, 1, n + 51) == TimesX17(g, TimesX17(g, TimesX17(g, a)))
    ensures Orbit(g, 1, n + 85) == TimesX17(g, TimesX17(g, Orbit(g, 1, n + 51)))
  {
    OrbitAdd(g, 1, n, 17);
    OrbitAdd(g, 1, n + 17, 17);
    OrbitAdd(g, 1, n + 34, 17);
    OrbitAdd(g, 1, n + 51, 17);
    OrbitAdd(g, 1, n + 68, 17);
    Orbit17(g, a);
    Orbit17(g, Orbit(g, 1, n + 17));
    Orbit17(g, Orbit(g, 1, n + 34));
    Orbit17(g, Orbit(g, 1, n + 51));
    Orbit17(g, Orbit(g, 1, n + 68));
  }

  lemma Powers15(g: bv8)
    requires g == POLY
    ensures Orbit(g, 1, 15) != 1
  {
    Orbit17(g, 1);
    assert Orbit(g, 1, 16) == TimesX(g, Orbit(g, 1, 15));
    assert Orbit(g, 1, 17) == TimesX(g, Orbit(g, 1, 16));
  }

  lemma Powers85(g: bv8)
    requires g == POLY
    ensures Orbit(g, 1, 51) == 0x0a && Orbit(g, 1, 85) == 0xd6
  {
    Hop5(g, 0, 0x01);
  }

  lemma Powers170(g: bv8)
    requires g == POLY
    ensures Orbit(g, 1, 170) == 0xd7
  {
    Powers85(g);
    Hop5(g, 85, 0xd6);
  }

  lemma Powers255(g: bv8)
    requires g == POLY
    ensures Orbit(g, 1, 255) == 1
  {
    Powers170(g);
    Hop5(g, 170, 0xd7);
  }

  // The polynomial 0x11d passes the check and is primitive.
  lemma PolyIsPrimitive(g: bv8)
    requires g == POLY
    ensures Accepted(g) && Primitive(g)
  {
    Powers15(g);
    Powers85(g);
    Powers255(g);
    AcceptedIsPrimitiveIff(g);
  }

  // ---------- the 255 powers are all nonzero bytes ----------

  lemma {:induction false} OrbitOfZero(g: bv8, n: nat)
    ensures Orbit(g, 0, n) == 0
  {
    if n > 0 { OrbitOfZero(g, n - 1); }
  }

  lemma OrbitNonzero(g: bv8, i: nat)
    requires Accepted(g) && i <= 255
    ensures Orbit(g, 1, i) != 0
  {
    OrbitAdd(g, 1, i, 255 - i);
    OrbitOfZero(g, 255 - i);
  }

  function PowersBelow(g: bv8, n: nat): set<int> {
    if n == 0 then {} else PowersBelow(g, n - 1) + {Orbit(g, 1, n - 1) as int}
  }

  lemma {:induction false} PowersBelowMember(g: bv8, n: nat, x: int) returns (i: nat)
    requires x in PowersBelow(g, n)
    ensures i < n && Orbit(g, 1, i) as int == x
  {
    if x == Orbit(g, 1, n - 1) as int { i := n - 1; } else { i := PowersBelowMember(g, n - 1, x); }
  }

  lemma {:induction false} PowersBelowSize(g: bv8, n: nat)
    requires Accepted(g) && Primitive(g) && n <= 255
    ensures |PowersBelow(g, n)| == n
  {
    if n > 0 {
      PowersBelowSize(g, n - 1);
      var p := Orbit(g, 1, n - 1) as int;
      if p in PowersBelow(g, n - 1) {
        var i := PowersBelowMember(g, n - 1, p);
        assert false;
      }
    }
  }

  function Below(n: nat): set<int> {
    if n == 0 then {} else Below(n - 1) + {n - 1}
  }

  lemma {:induction false} InBelow(n: nat, x: int)
    ensures x in Below(n) <==> 0 <= x < n
  {
    if n > 0 { InBelow(n - 1, x); }
  }

  lemma {:induction false} BelowSize(n: nat)
    ensures |Below(n)| == n
  {
    if n > 0 {
      BelowSize(n - 1);
      InBelow(n - 1, n - 1);
    }
  }

  lemma SubsetOfSameSize(a: set<int>, b: set<int>, x: int)
    requires a <= b && |a| == |b| && x in b
    ensures x in a
  {
    if x !in a {
      assert a <= b - {x};
      SubsetSize(a, b - {x});
    }
  }

  lemma PickOne(a: set<int>) returns (x: int)
    requires a != {}
    ensures x in a
  {
    if forall y :: y !in a { assert false; }
    x :| x in a;
  }

  lemma {:induction false} SubsetSize(a: set<int>, b: set<int>)
    requires a <= b
    ensures |a| <= |b|
    decreases a
  {
    if |a| > 0 {
      var x := PickOne(a);
      SubsetSize(a - {x}, b - {x});
    }
  }

  lemma NonzeroByte(v: bv8)
    requires v != 0
    ensures 0 < v as int < 256
  {
  }

  lemma {:induction false} PowersBelowRange(g: bv8, n: nat, m: nat)
    requires Accepted(g) && n <= 255 && m == 256
    ensures PowersBelow(g, n) <= Below(m) - {0}
  {
    if n > 0 {
      PowersBelowRange(g, n - 1, m);
      var x := PowerRange(g, n - 1);
      AddInside(PowersBelow(g, n - 1), m, x);
    }
  }

  lemma PowerRange(g: bv8, i: nat) returns (x: int)
    requires Accepted(g) && i <= 255
    ensures x == Orbit(g, 1, i) as int && 0 < x < 256
  {
    OrbitNonzero(g, i);
    NonzeroByte(Orbit(g, 1, i));
    x := Orbit(g, 1, i) as int;
  }

  lemma AddInside(a: set<int>, m: nat, x: int)
    requires a <= Below(m) - {0} && 0 < x < m
    ensures a + {x} <= Below(m) - {0}
  {
    InBelow(m, x);
  }

  lemma ByteIsPower(g: bv8, m: nat, x: int) returns (i: nat)
    requires Accepted(g) && Primitive(g) && m == 256 && 0 < x < m
    ensures i < 255 && Orbit(g, 1, i) as int == x
  {
    PowersBelowSize(g, 255);
    PowersBelowRange(g, 255, m);
    BelowSize(m);
    InBelow(m, 0);
    InBelow(m, x);
    SubsetOfSameSize(PowersBelow(g, 255), Below(m) - {0}, x);
    i := PowersBelowMember(g, 255, x);
  }

  // Every nonzero byte is a power of x.
  lemma EveryByteIsAPower(g: bv8, a: bv8) returns (i: nat)
    requires Accepted(g) && Primitive(g) && a != 0
    ensures i < 255 && Orbit(g, 1, i) == a
  {
    NonzeroByte(a);
    i := ByteIsPower(g, 256, a as int);
  }

  lemma TimesXAdd(a: bv8, b: bv8)
    ensures TimesX(POLY, a ^ b) == TimesX(POLY, a) ^ TimesX(POLY, b)
  {
  }
}
