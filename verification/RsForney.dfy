/** Forney's formula (src/rs_decode.c:159-203): the error evaluator at an inverse
    locator is the error value times the formal derivative of the locator. */
module RsForney {
  import opened Field
  import opened RsAlgebra

  // The sum over i < n of u^i times the first i + 1 terms of p at w.
  function Stairs(p: seq<GF>, w: GF, u: GF, n: nat): GF
    requires n <= |p|
  {
    if n == 0 then ZERO else Add(Stairs(p, w, u, n - 1), Mul(Pow(u, n - 1), PartEval(p, w, n)))
  }

  lemma {:induction false} Telescope(p: seq<GF>, w: GF, u: GF, n: nat)
    requires n <= |p|
    ensures Add(Stairs(p, w, u, n), Mul(u, Stairs(p, w, u, n)))
         == Add(PartEval(p, Mul(u, w), n), Mul(Pow(u, n), PartEval(p, w, n)))
  {
    if n == 0 {
      MulZero(u);
      MulZero(ONE);
    } else {
      var k := n - 1;
      Telescope(p, w, u, k);
      var t, uk, e := Stairs(p, w, u, k), Pow(u, k), PartEval(p, w, n);
      var a, c := PartEval(p, Mul(u, w), k), Mul(p[k], Pow(w, k));
      MulAddRight(u, t, Mul(uk, e));
      MulAssoc(u, uk, e);
      AddSwap(t, Mul(uk, e), Mul(u, t), Mul(Mul(u, uk), e));
      // uk * e == uk * PartEval(k) + p[k] * (u w)^k
      MulAddRight(uk, PartEval(p, w, k), c);
      PowOfProduct(u, w, k);
      MulAssoc(p[k], uk, Pow(w, k)); MulComm(p[k], uk); MulAssoc(uk, p[k], Pow(w, k));
      var b, f, g := Mul(uk, PartEval(p, w, k)), Mul(uk, c), Mul(Pow(u, n), e);
      // (a + b) + ((b + f) + g) == (a + f) + g
      AddAssoc(Add(a, b), Add(b, f), g);
      AddAssoc(a, b, Add(b, f)); AddAssoc(b, b, f); AddZero(b); AddZero(f);
    }
  }

  // Two different roots of p.
  lemma CrossZero(p: seq<GF>, n: nat, x: GF, w: GF, z: GF)
    requires n <= |p| && Mul(x, w) == ONE && w != z
    requires PartEval(p, w, n) == ZERO && PartEval(p, z, n) == ZERO
    ensures Stairs(p, w, Mul(x, z), n) == ZERO
  {
    var u := Mul(x, z);
    Telescope(p, w, u, n);
    // u * w == z
    MulComm(x, z); MulAssoc(z, x, w); MulOne(z);
    MulZero(Pow(u, n));
    AddZero(ZERO);
    var t := Stairs(p, w, u, n);
    MulOne(t); MulComm(t, ONE);
    MulAddLeft(ONE, u, t);
    if t != ZERO {
      if u == ONE {
        MulZero(w);
        MulCancel(x, w, z);
      }
      AddCancel(ONE, u);
      MulNonzero(Add(ONE, u), t);
    }
  }

  // The formal derivative of a polynomial of degree below 8: in characteristic
  // 2 only the odd terms survive.
  function Deriv(p: seq<GF>, w: GF): GF
    requires |p| >= 8
  {
    Add(Add(Add(p[1], Mul(p[3], Pow(w, 2))), Mul(p[5], Pow(w, 4))), Mul(p[7], Pow(w, 6)))
  }

  lemma StairsPair(p: seq<GF>, w: GF, n: nat)
    requires n + 2 <= |p|
    ensures Stairs(p, w, ONE, n + 2) == Add(Stairs(p, w, ONE, n), Mul(p[n + 1], Pow(w, n + 1)))
  {
    var a, e, c := Stairs(p, w, ONE, n), PartEval(p, w, n + 1), Mul(p[n + 1], Pow(w, n + 1));
    PowOfOne(n); PowOfOne(n + 1);
    MulComm(ONE, e); MulOne(e);
    MulComm(ONE, Add(e, c)); MulOne(Add(e, c));
    assert Stairs(p, w, ONE, n + 1) == Add(a, e);
    assert Stairs(p, w, ONE, n + 2) == Add(Add(a, e), Add(e, c));
    AddAssoc(a, e, Add(e, c)); AddAssoc(e, e, c); AddZero(e); AddZero(c);
  }

  lemma OddTerm(w: GF, c: GF, k: nat)
    ensures Mul(c, Pow(w, k + 1)) == Mul(w, Mul(c, Pow(w, k)))
  {
    MulAssoc(c, w, Pow(w, k)); MulComm(c, w); MulAssoc(w, c, Pow(w, k));
  }

  lemma StairsIsDeriv(p: seq<GF>, w: GF)
    requires |p| >= 8
    ensures Stairs(p, w, ONE, 8) == Mul(w, Deriv(p, w))
  {
    StairsPair(p, w, 0); StairsPair(p, w, 2); StairsPair(p, w, 4); StairsPair(p, w, 6);
    assert Stairs(p, w, ONE, 0) == ZERO;
    OddTerm(w, p[1], 0); OddTerm(w, p[3], 2); OddTerm(w, p[5], 4); OddTerm(w, p[7], 6);
    MulOne(p[1]);
    var a, b, c, d := p[1], Mul(p[3], Pow(w, 2)), Mul(p[5], Pow(w, 4)), Mul(p[7], Pow(w, 6));
    AddZero(Mul(w, a));
    MulAddRight(w, a, b);
    MulAddRight(w, Add(a, b), c);
    MulAddRight(w, Add(Add(a, b), c), d);
  }

  // x_l * Stairs at x_l * z, for every locator.
  function StairsVec(p: seq<GF>, xs: seq<GF>, ws: seq<GF>, z: GF, n: nat): (r: seq<GF>)
    requires |xs| == |ws| && n <= |p|
    ensures |r| == |xs|
  {
    seq(|xs|, l requires 0 <= l < |xs| => Mul(xs[l], Stairs(p, ws[l], Mul(xs[l], z), n)))
  }

  // p is the product of the 1 - x z, w being the inverse of x.
  ghost predicate Rooted(p: seq<GF>, xs: seq<GF>, ws: seq<GF>) {
    && |p| == 9 && p[0] == ONE && |ws| == |xs| <= 8 && Distinct(xs)
    && (forall l :: 0 <= l < |xs| ==> Mul(xs[l], ws[l]) == ONE)
    && DegreeAtMost(p, |xs|)
    && (forall l :: 0 <= l < |xs| ==> PartEval(p, ws[l], |p|) == ZERO)
  }

  ghost predicate Locator(p: seq<GF>, s: seq<GF>, xs: seq<GF>, ys: seq<GF>, ws: seq<GF>) {
    |s| == 8 && Explains(xs, ys, s) && Rooted(p, xs, ws)
  }

  ghost predicate Evaluator(om: seq<GF>, p: seq<GF>, s: seq<GF>) {
    |s| == 8 && |p| == 9 && |om| == 8 && forall i :: 0 <= i < 8 ==> om[i] == Coef(p, s, i)
  }

  lemma {:induction false} EvaluatorIsDot(om: seq<GF>, p: seq<GF>, s: seq<GF>, xs: seq<GF>, ys: seq<GF>, ws: seq<GF>, z: GF, n: nat)
    requires Locator(p, s, xs, ys, ws) && Evaluator(om, p, s) && n <= 8
    ensures PartEval(om, z, n) == Dot(ys, StairsVec(p, xs, ws, z, n))
  {
    if n == 0 {
      forall l | 0 <= l < |xs| ensures Mul(ys[l], StairsVec(p, xs, ws, z, 0)[l]) == ZERO {
        MulZero(xs[l]);
        MulZero(ys[l]);
      }
      DotZero(ys, StairsVec(p, xs, ws, z, 0));
    } else {
      var k := n - 1;
      EvaluatorIsDot(om, p, s, xs, ys, ws, z, k);
      ConvIsDot(p, s, xs, ys, ws, k, n);
      var c := Pow(z, k);
      forall l | 0 <= l < |xs|
        ensures StairsVec(p, xs, ws, z, n)[l]
             == Add(StairsVec(p, xs, ws, z, k)[l], Mul(c, Scaled(p, xs, ws, k, n)[l]))
      {
        StairsTerm(p, xs[l], ws[l], z, k);
      }
      DotLinear(ys, StairsVec(p, xs, ws, z, k), Scaled(p, xs, ws, k, n), c, StairsVec(p, xs, ws, z, n));
      MulComm(om[k], c);
    }
  }

  lemma StairsTerm(p: seq<GF>, x: GF, w: GF, z: GF, k: nat)
    requires k < |p|
    ensures Mul(x, Stairs(p, w, Mul(x, z), k + 1))
         == Add(Mul(x, Stairs(p, w, Mul(x, z), k)), Mul(Pow(z, k), Mul(Pow(x, k + 1), PartEval(p, w, k + 1))))
  {
    var u, e := Mul(x, z), PartEval(p, w, k + 1);
    MulAddRight(x, Stairs(p, w, u, k), Mul(Pow(u, k), e));
    PowOfProduct(x, z, k);
    var px, pz := Pow(x, k), Pow(z, k);
    // x * ((px * pz) * e) == pz * ((x * px) * e)
    MulComm(px, pz); MulAssoc(pz, px, e);
    MulAssoc(x, pz, Mul(px, e)); MulComm(x, pz); MulAssoc(pz, x, Mul(px, e));
    MulAssoc(x, px, e);
  }

  // p vanishes at ws[l] already on its first n terms.
  lemma EarlyRoot(p: seq<GF>, xs: seq<GF>, ws: seq<GF>, l: nat, n: nat)
    requires Rooted(p, xs, ws) && l < |xs| < n <= 9
    ensures PartEval(p, ws[l], n) == ZERO
  {
    PartEvalStable(p, ws[l], n, 9);
  }

  lemma OffDiagonal(p: seq<GF>, xs: seq<GF>, ws: seq<GF>, l: nat, m: nat)
    requires Rooted(p, xs, ws) && l < |xs| && m < |xs| && l != m
    ensures Stairs(p, ws[l], Mul(xs[l], ws[m]), 8) == ZERO
  {
    InversesDistinct(xs, ws);
    CrossZero(p, 9, xs[l], ws[l], ws[m]);
    MulZero(Pow(Mul(xs[l], ws[m]), 8));
    AddZero(Stairs(p, ws[l], Mul(xs[l], ws[m]), 8));
  }

  // The evaluator at an inverse locator.
  lemma EvaluatorValue(om: seq<GF>, p: seq<GF>, s: seq<GF>, xs: seq<GF>, ys: seq<GF>, ws: seq<GF>, m: nat)
    requires Locator(p, s, xs, ys, ws) && Evaluator(om, p, s) && m < |xs|
    ensures PartEval(om, ws[m], 8) == Mul(ys[m], Deriv(p, ws[m]))
  {
    var v := StairsVec(p, xs, ws, ws[m], 8);
    EvaluatorIsDot(om, p, s, xs, ys, ws, ws[m], 8);
    forall l | 0 <= l < |xs| && l != m ensures Mul(ys[l], v[l]) == ZERO {
      OffDiagonal(p, xs, ws, l, m);
      MulZero(xs[l]);
      MulZero(ys[l]);
    }
    DotSingle(ys, v, m);
    StairsIsDeriv(p, ws[m]);
    // x * (w * d) == d
    var x, w, d := xs[m], ws[m], Deriv(p, ws[m]);
    MulAssoc(x, w, d); MulComm(ONE, d); MulOne(d);
  }

  // The coefficients of p(z) / (1 - x z).
  function Cofactor(p: seq<GF>, x: GF, w: GF): (r: seq<GF>)
    requires |p| >= 8
    ensures |r| == 8
  {
    seq(8, i requires 0 <= i < 8 => Mul(Pow(x, i), PartEval(p, w, i + 1)))
  }

  lemma {:induction false} CofactorEval(p: seq<GF>, x: GF, w: GF, z: GF, n: nat)
    requires |p| >= 8 && n <= 8
    ensures PartEval(Cofactor(p, x, w), z, n) == Stairs(p, w, Mul(x, z), n)
  {
    if n > 0 {
      var k := n - 1;
      CofactorEval(p, x, w, z, k);
      PowOfProduct(x, z, k);
      var e := PartEval(p, w, n);
      MulAssoc(Pow(x, k), e, Pow(z, k)); MulComm(e, Pow(z, k)); MulAssoc(Pow(x, k), Pow(z, k), e);
    }
  }

  // Simple roots: the derivative does not vanish.
  lemma DerivNonzero(p: seq<GF>, xs: seq<GF>, ws: seq<GF>, m: nat)
    requires Rooted(p, xs, ws) && m < |xs|
    ensures Deriv(p, ws[m]) != ZERO
  {
    if Deriv(p, ws[m]) == ZERO {
      var q := Cofactor(p, xs[m], ws[m]);
      forall l | 0 <= l < |ws| ensures PartEval(q, ws[l], |q|) == ZERO {
        CofactorEval(p, xs[m], ws[m], ws[l], 8);
        if l == m {
          StairsIsDeriv(p, ws[m]);
          MulZero(ws[m]);
        } else {
          OffDiagonal(p, xs, ws, m, l);
        }
      }
      forall i | 0 <= i < |q| && |xs| - 1 < i ensures q[i] == ZERO {
        EarlyRoot(p, xs, ws, m, i + 1);
        MulZero(Pow(xs[m], i));
      }
      InversesDistinct(xs, ws);
      RootsWithin(q, |xs| - 1, ws);
      FirstTerm(p, xs[m], ws[m]);
    }
  }

  lemma FirstTerm(p: seq<GF>, x: GF, w: GF)
    requires |p| >= 8 && p[0] == ONE
    ensures Cofactor(p, x, w)[0] == ONE
  {
    MulOne(ONE);
    AddZero(ONE);
    assert PartEval(p, w, 1) == Add(PartEval(p, w, 0), Mul(p[0], Pow(w, 0)));
  }
}
