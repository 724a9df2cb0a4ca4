/** Arithmetic in GF(256): addition is exclusive or, multiplication is
    carry-less multiplication modulo x^8 + x^4 + x^3 + x^2 + 1.  The log tables
    of src/rs_init.c are a faster way to compute the same product.

    The algebra of the decoder uses the field laws only, so the operations sit
    behind a counter that proofs do not unwind (SEALS): outside the first
    section nothing depends on bit patterns. */
module Field {
  import opened Basics
  import opened Gf256

  datatype GF = GF(bits: bv8)

  const ZERO := GF(0)
  const ONE := GF(1)

  function Add(a: GF, b: GF): GF { SealedAdd(SEALS, a, b) }

  function SealedAdd(seals: seq<bool>, a: GF, b: GF): GF {
    if |seals| > 0 then SealedAdd(seals[1..], a, b) else GF(a.bits ^ b.bits)
  }

  function Shift(a: GF): GF { SealedShift(SEALS, a) }

  function SealedShift(seals: seq<bool>, a: GF): GF {
    if |seals| > 0 then SealedShift(seals[1..], a) else GF(TimesX(POLY, a.bits))
  }

  // The sum of x^i * a over the bits i set in b.
  function ShiftAdd(a: GF, b: bv8): GF
    decreases b
  {
    if b == 0 then ZERO
    else if b & 1 == 1 then Add(a, ShiftAdd(Shift(a), b >> 1))
    else ShiftAdd(Shift(a), b >> 1)
  }

  function Mul(a: GF, b: GF): GF { SealedMul(SEALS, a, b) }

  function SealedMul(seals: seq<bool>, a: GF, b: GF): GF {
    if |seals| > 0 then SealedMul(seals[1..], a, b) else ShiftAdd(a, b.bits)
  }

  lemma {:induction false} OpenAdd(seals: seq<bool>, a: GF, b: GF)
    ensures SealedAdd(seals, a, b) == GF(a.bits ^ b.bits)
  {
    if |seals| > 0 { OpenAdd(seals[1..], a, b); }
  }

  lemma {:induction false} OpenShift(seals: seq<bool>, a: GF)
    ensures SealedShift(seals, a) == GF(TimesX(POLY, a.bits))
  {
    if |seals| > 0 { OpenShift(seals[1..], a); }
  }

  lemma {:induction false} OpenMul(seals: seq<bool>, a: GF, b: GF)
    ensures SealedMul(seals, a, b) == ShiftAdd(a, b.bits)
  {
    if |seals| > 0 { OpenMul(seals[1..], a, b); }
  }

  lemma AddIsXor(a: GF, b: GF)
    ensures Add(a, b) == GF(a.bits ^ b.bits)
  {
    OpenAdd(SEALS, a, b);
  }

  lemma ShiftIsTimesX(a: GF)
    ensures Shift(a) == GF(TimesX(POLY, a.bits))
  {
    OpenShift(SEALS, a);
  }

  lemma MulIsShiftAdd(a: GF, b: GF)
    ensures Mul(a, b) == ShiftAdd(a, b.bits)
  {
    OpenMul(SEALS, a, b);
  }

  // ---------- laws of addition ----------

  lemma AddComm(a: GF, b: GF)
    ensures Add(a, b) == Add(b, a)
  {
    AddIsXor(a, b); AddIsXor(b, a);
  }

  lemma AddAssoc(a: GF, b: GF, c: GF)
    ensures Add(Add(a, b), c) == Add(a, Add(b, c))
  {
    AddIsXor(a, b); AddIsXor(Add(a, b), c);
    AddIsXor(b, c); AddIsXor(a, Add(b, c));
  }

  lemma AddZero(a: GF)
    ensures Add(a, ZERO) == a && Add(ZERO, a) == a && Add(a, a) == ZERO
  {
    AddIsXor(a, ZERO); AddIsXor(ZERO, a); AddIsXor(a, a);
  }

  lemma AddSwap(a: GF, b: GF, c: GF, d: GF)
    ensures Add(Add(a, b), Add(c, d)) == Add(Add(a, c), Add(b, d))
  {
    AddAssoc(a, b, Add(c, d)); AddAssoc(b, c, d); AddComm(b, c);
    AddAssoc(c, b, d); AddAssoc(a, c, Add(b, d));
  }

  // ---------- laws of multiplication ----------

  lemma ShiftAdds(a: GF, b: GF)
    ensures Shift(Add(a, b)) == Add(Shift(a), Shift(b))
  {
    AddIsXor(a, b); AddIsXor(Shift(a), Shift(b));
    ShiftIsTimesX(a); ShiftIsTimesX(b); ShiftIsTimesX(Add(a, b));
    TimesXAdd(a.bits, b.bits);
  }

  lemma ShiftZero()
    ensures Shift(ZERO) == ZERO
  {
    ShiftIsTimesX(ZERO);
  }

  lemma {:induction false} ShiftAddLeft(a: GF, c: GF, b: bv8)
    ensures ShiftAdd(Add(a, c), b) == Add(ShiftAdd(a, b), ShiftAdd(c, b))
    decreases b
  {
    if b == 0 {
      AddZero(ZERO);
    } else {
      var h := b >> 1;
      ShiftAdds(a, c);
      ShiftAddLeft(Shift(a), Shift(c), h);
      AddSwap(a, c, ShiftAdd(Shift(a), h), ShiftAdd(Shift(c), h));
    }
  }

  lemma {:induction false} ShiftAddShift(a: GF, b: bv8)
    ensures ShiftAdd(Shift(a), b) == Shift(ShiftAdd(a, b))
    decreases b
  {
    if b == 0 {
      ShiftZero();
    } else {
      ShiftAddShift(Shift(a), b >> 1);
      ShiftAdds(a, ShiftAdd(Shift(a), b >> 1));
    }
  }

  lemma {:induction false} ShiftAddZero(b: bv8)
    ensures ShiftAdd(ZERO, b) == ZERO
    decreases b
  {
    if b != 0 {
      ShiftZero();
      ShiftAddZero(b >> 1);
      AddZero(ZERO);
    }
  }

  lemma MulZero(a: GF)
    ensures Mul(a, ZERO) == ZERO && Mul(ZERO, a) == ZERO
  {
    MulIsShiftAdd(a, ZERO);
    MulIsShiftAdd(ZERO, a);
    ShiftAddZero(a.bits);
  }

  // One bit of the second factor at a time.
  lemma ShiftAddStep(a: GF, b: bv8)
    ensures ShiftAdd(a, b) == Add(if b & 1 == 1 then a else ZERO, Shift(ShiftAdd(a, b >> 1)))
  {
    ShiftAddShift(a, b >> 1);
    AddZero(ShiftAdd(Shift(a), b >> 1));
    if b == 0 { ShiftZero(); AddZero(ZERO); }
  }

  lemma Halves(b: bv8, c: bv8)
    ensures (b ^ c) >> 1 == (b >> 1) ^ (c >> 1)
    ensures ((b ^ c) & 1 == 1) == ((b & 1 == 1) != (c & 1 == 1))
  {}

  lemma {:induction false} ShiftAddRight(a: GF, b: bv8, c: bv8)
    ensures ShiftAdd(a, b ^ c) == Add(ShiftAdd(a, b), ShiftAdd(a, c))
    decreases b, c
  {
    if b == 0 {
      assert 0 ^ c == c;
      AddZero(ShiftAdd(a, c));
    } else if c == 0 {
      assert b ^ 0 == b;
      AddZero(ShiftAdd(a, b));
    } else {
      var hb, hc := b >> 1, c >> 1;
      Halves(b, c);
      ShiftAddRight(a, hb, hc);
      ShiftAddRightStep(a, b, c, b ^ c);
    }
  }

  lemma ShiftAddRightStep(a: GF, b: bv8, c: bv8, d: bv8)
    requires ShiftAdd(a, d >> 1) == Add(ShiftAdd(a, b >> 1), ShiftAdd(a, c >> 1))
    requires (d & 1 == 1) == ((b & 1 == 1) != (c & 1 == 1))
    ensures ShiftAdd(a, d) == Add(ShiftAdd(a, b), ShiftAdd(a, c))
  {
    var sb, sc := ShiftAdd(a, b >> 1), ShiftAdd(a, c >> 1);
    var u, v := if b & 1 == 1 then a else ZERO, if c & 1 == 1 then a else ZERO;
    ShiftAddStep(a, b);
    ShiftAddStep(a, c);
    ShiftAddStep(a, d);
    ShiftAdds(sb, sc);
    AddSwap(u, Shift(sb), v, Shift(sc));
    AddZero(a);
    AddZero(ZERO);
  }

  lemma MulAddRight(a: GF, b: GF, c: GF)
    ensures Mul(a, Add(b, c)) == Add(Mul(a, b), Mul(a, c))
  {
    AddIsXor(b, c);
    MulIsShiftAdd(a, Add(b, c));
    MulIsShiftAdd(a, b);
    MulIsShiftAdd(a, c);
    ShiftAddRight(a, b.bits, c.bits);
  }

  lemma MulAddLeft(a: GF, b: GF, c: GF)
    ensures Mul(Add(a, b), c) == Add(Mul(a, c), Mul(b, c))
  {
    MulIsShiftAdd(Add(a, b), c);
    MulIsShiftAdd(a, c);
    MulIsShiftAdd(b, c);
    ShiftAddLeft(a, b, c.bits);
  }

  lemma MulShift(a: GF, b: GF)
    ensures Mul(Shift(a), b) == Shift(Mul(a, b))
  {
    MulIsShiftAdd(Shift(a), b);
    MulIsShiftAdd(a, b);
    ShiftAddShift(a, b.bits);
  }

  lemma MulOne(a: GF)
    ensures Mul(a, ONE) == a
  {
    MulIsShiftAdd(a, ONE);
    assert ShiftAdd(Shift(a), 0) == ZERO;
    AddZero(a);
  }

  lemma Halve(b: bv8)
    ensures b == (b & 1) ^ ((b >> 1) << 1)
    ensures b & 1 == 0 || b & 1 == 1
    ensures (b >> 1) & 0x80 == 0
  {}

  lemma ShiftOfHalf(h: bv8)
    requires h & 0x80 == 0
    ensures Shift(GF(h)) == GF(h << 1)
  {
    ShiftIsTimesX(GF(h));
  }

  // GF(b) = low bit + x * GF(b / 2).
  lemma SplitLowBit(b: bv8)
    ensures GF(b) == Add(if b & 1 == 1 then ONE else ZERO, Shift(GF(b >> 1)))
  {
    Halve(b);
    ShiftOfHalf(b >> 1);
    AddIsXor(GF(b & 1), GF((b >> 1) << 1));
  }

  lemma {:induction false} MulCommBits(a: GF, b: bv8)
    ensures Mul(a, GF(b)) == Mul(GF(b), a)
    decreases b
  {
    if b == 0 {
      MulZero(a);
    } else {
      var h := b >> 1;
      MulCommBits(a, h);
      MulIsShiftAdd(a, GF(b));
      MulIsShiftAdd(a, GF(h));
      ShiftAddStep(a, b);
      SplitLowBit(b);
      MulAddLeft(if b & 1 == 1 then ONE else ZERO, Shift(GF(h)), a);
      MulShift(GF(h), a);
      MulZero(a);
      OneMul(a.bits);
    }
  }

  lemma {:induction false} OneMul(a: bv8)
    ensures Mul(ONE, GF(a)) == GF(a)
    decreases a
  {
    MulIsShiftAdd(ONE, GF(a));
    if a != 0 {
      OneMul(a >> 1);
      MulIsShiftAdd(ONE, GF(a >> 1));
      ShiftAddStep(ONE, a);
      SplitLowBit(a);
    }
  }

  lemma MulComm(a: GF, b: GF)
    ensures Mul(a, b) == Mul(b, a)
  {
    MulCommBits(a, b.bits);
  }

  lemma MulShiftRight(a: GF, b: GF)
    ensures Mul(a, Shift(b)) == Shift(Mul(a, b))
  {
    MulComm(a, Shift(b));
    MulShift(b, a);
    MulComm(a, b);
  }

  lemma {:induction false} MulAssocBits(a: GF, b: GF, c: bv8)
    ensures Mul(Mul(a, b), GF(c)) == Mul(a, Mul(b, GF(c)))
    decreases c
  {
    if c == 0 {
      MulZero(Mul(a, b));
      MulZero(b);
      MulZero(a);
    } else {
      var h := c >> 1;
      var y := Mul(b, GF(h));
      MulAssocBits(a, b, h);
      MulStep(Mul(a, b), c);
      MulStep(b, c);
      MulAddRight(a, if c & 1 == 1 then b else ZERO, Shift(y));
      MulShiftRight(a, y);
      MulZero(a);
    }
  }

  lemma MulStep(a: GF, c: bv8)
    ensures Mul(a, GF(c)) == Add(if c & 1 == 1 then a else ZERO, Shift(Mul(a, GF(c >> 1))))
  {
    MulIsShiftAdd(a, GF(c));
    MulIsShiftAdd(a, GF(c >> 1));
    ShiftAddStep(a, c);
  }

  lemma MulAssoc(a: GF, b: GF, c: GF)
    ensures Mul(Mul(a, b), c) == Mul(a, Mul(b, c))
  {
    MulAssocBits(a, b, c.bits);
  }

  // ---------- powers, logarithms, inverses ----------

  const GEN := GF(2)

  function Pow(a: GF, n: nat): GF {
    if n == 0 then ONE else Mul(a, Pow(a, n - 1))
  }

  function Exp(n: nat): GF { Pow(GEN, n) }

  lemma {:induction false} PowAdd(a: GF, m: nat, n: nat)
    ensures Pow(a, m + n) == Mul(Pow(a, m), Pow(a, n))
    decreases m
  {
    if m == 0 {
      MulComm(ONE, Pow(a, n));
      MulOne(Pow(a, n));
    } else {
      PowAdd(a, m - 1, n);
      assert m - 1 + n == m + n - 1;
      MulAssoc(a, Pow(a, m - 1), Pow(a, n));
    }
  }

  lemma {:induction false} PowMul(a: GF, m: nat, n: nat)
    ensures Pow(Pow(a, m), n) == Pow(a, m * n)
    decreases n
  {
    if n > 0 {
      PowMul(a, m, n - 1);
      PowAdd(a, m, m * (n - 1));
      assert m + m * (n - 1) == m * n;
    }
  }

  lemma GenIsShift(y: GF)
    ensures Mul(GEN, y) == Shift(y)
  {
    MulComm(GEN, y);
    MulStep(y, 2);
    MulOne(y);
    AddZero(Shift(y));
  }

  lemma {:induction false} ExpIsOrbit(n: nat)
    ensures Exp(n) == GF(Orbit(POLY, 1, n))
  {
    if n > 0 {
      ExpIsOrbit(n - 1);
      GenIsShift(Exp(n - 1));
      ShiftIsTimesX(Exp(n - 1));
    }
  }

  lemma ExpMod(n: nat)
    ensures Exp(n) == Exp(n % 255)
  {
    PolyIsPrimitive(POLY);
    OrbitMod(POLY, n, 255);
    ExpIsOrbit(n);
    ExpIsOrbit(n % 255);
  }

  lemma ExpPeriod()
    ensures Exp(255) == ONE
  {
    PolyIsPrimitive(POLY);
    ExpIsOrbit(255);
  }

  lemma ExpNonzero(n: nat)
    ensures Exp(n) != ZERO
  {
    PolyIsPrimitive(POLY);
    ExpMod(n);
    OrbitNonzero(POLY, n % 255);
    ExpIsOrbit(n % 255);
  }

  lemma ExpDistinct(i: nat, j: nat)
    requires i < 255 && j < 255 && Exp(i) == Exp(j)
    ensures i == j
  {
    PolyIsPrimitive(POLY);
    ExpIsOrbit(i);
    ExpIsOrbit(j);
  }

  lemma ExpApart(i: nat, j: nat)
    requires 1 <= i <= 255 && 1 <= j <= 255 && i != j
    ensures Exp(i) != Exp(j)
  {
    ExpMod(i);
    ExpMod(j);
    if Exp(i) == Exp(j) { ExpDistinct(i % 255, j % 255); }
  }

  ghost predicate IsLog(a: GF, i: nat) { i < 255 && Exp(i) == a }

  lemma LogExists(a: GF)
    requires a != ZERO
    ensures exists i: nat :: IsLog(a, i)
  {
    PolyIsPrimitive(POLY);
    var i := EveryByteIsAPower(POLY, a.bits);
    ExpIsOrbit(i);
    assert IsLog(a, i);
  }

  ghost function Log(a: GF): (i: nat)
    requires a != ZERO
    ensures i < 255 && Exp(i) == a
  {
    LogExists(a);
    var i: nat :| IsLog(a, i);
    i
  }

  ghost function Inv(a: GF): (r: GF)
    requires a != ZERO
    ensures r != ZERO && Mul(a, r) == ONE
  {
    var i := Log(a);
    PowAdd(GEN, i, 255 - i);
    ExpPeriod();
    ExpNonzero(255 - i);
    Exp(255 - i)
  }

  lemma MulNonzero(a: GF, b: GF)
    requires a != ZERO && b != ZERO
    ensures Mul(a, b) != ZERO
  {
    PowAdd(GEN, Log(a), Log(b));
    ExpNonzero(Log(a) + Log(b));
  }

  lemma AddCancel(a: GF, b: GF)
    ensures Add(a, b) == ZERO <==> a == b
  {
    AddZero(a);
    AddZero(b);
    if Add(a, b) == ZERO { AddAssoc(a, b, b); }
  }

  lemma MulCancel(a: GF, b: GF, c: GF)
    requires a != ZERO && Mul(a, b) == Mul(a, c)
    ensures b == c
  {
    MulAddRight(a, b, c);
    AddCancel(Mul(a, b), Mul(a, c));
    AddCancel(b, c);
    if Add(b, c) != ZERO { MulNonzero(a, Add(b, c)); }
  }

  // (a * b) * (c * d) == (a * c) * (b * d)
  lemma MulSwap(a: GF, b: GF, c: GF, d: GF)
    ensures Mul(Mul(a, b), Mul(c, d)) == Mul(Mul(a, c), Mul(b, d))
  {
    MulAssoc(a, b, Mul(c, d)); MulAssoc(b, c, d); MulComm(b, c);
    MulAssoc(c, b, d); MulAssoc(a, c, Mul(b, d));
  }

  lemma PowNonzero(a: GF, n: nat)
    requires a != ZERO
    ensures Pow(a, n) != ZERO
  {
    PowMul(GEN, Log(a), n);
    ExpNonzero(Log(a) * n);
  }

  lemma {:induction false} PowOfProduct(a: GF, b: GF, n: nat)
    ensures Pow(Mul(a, b), n) == Mul(Pow(a, n), Pow(b, n))
  {
    if n == 0 {
      MulOne(ONE);
    } else {
      PowOfProduct(a, b, n - 1);
      MulSwap(a, b, Pow(a, n - 1), Pow(b, n - 1));
    }
  }

  lemma {:induction false} PowOfOne(n: nat)
    ensures Pow(ONE, n) == ONE
  {
    if n > 0 { PowOfOne(n - 1); MulOne(ONE); }
  }
}
