/** Algebra behind the Reed-Solomon decoder: exponential sums, polynomials over
    GF(256), and how the product of a polynomial with a syndrome sequence looks
    when the syndromes are power sums of error values. */
module RsAlgebra {
  import opened Field

  ghost predicate Distinct(xs: seq<GF>) {
    forall i, j :: 0 <= i < j < |xs| ==> xs[i] != xs[j]
  }

  ghost predicate AllNonzero(xs: seq<GF>) {
    forall i :: 0 <= i < |xs| ==> xs[i] != ZERO
  }

  ghost predicate AllZero(xs: seq<GF>) {
    forall i :: 0 <= i < |xs| ==> xs[i] == ZERO
  }

  // ---------- dot products ----------

  function Dot(ys: seq<GF>, vs: seq<GF>): GF
    requires |ys| == |vs|
  {
    if |ys| == 0 then ZERO
    else Add(Dot(ys[..|ys| - 1], vs[..|ys| - 1]), Mul(ys[|ys| - 1], vs[|ys| - 1]))
  }

  lemma {:induction false} DotSame(ys: seq<GF>, vs: seq<GF>, ys': seq<GF>, vs': seq<GF>)
    requires |ys| == |vs| == |ys'| == |vs'|
    requires forall l :: 0 <= l < |ys| ==> Mul(ys[l], vs[l]) == Mul(ys'[l], vs'[l])
    ensures Dot(ys, vs) == Dot(ys', vs')
  {
    if |ys| > 0 {
      var n := |ys| - 1;
      DotSame(ys[..n], vs[..n], ys'[..n], vs'[..n]);
    }
  }

  // Dot is linear in its second argument.
  lemma {:induction false} DotLinear(ys: seq<GF>, us: seq<GF>, vs: seq<GF>, c: GF, ws: seq<GF>)
    requires |ys| == |us| == |vs| == |ws|
    requires forall l :: 0 <= l < |ys| ==> ws[l] == Add(us[l], Mul(c, vs[l]))
    ensures Dot(ys, ws) == Add(Dot(ys, us), Mul(c, Dot(ys, vs)))
  {
    if |ys| == 0 {
      MulZero(c);
      AddZero(ZERO);
    } else {
      var n := |ys| - 1;
      DotLinear(ys[..n], us[..n], vs[..n], c, ws[..n]);
      var y, u, v := ys[n], us[n], vs[n];
      MulAddRight(y, u, Mul(c, v));
      MulAssoc(y, c, v); MulComm(y, c); MulAssoc(c, y, v);
      AddSwap(Dot(ys[..n], us[..n]), Mul(c, Dot(ys[..n], vs[..n])), Mul(y, u), Mul(c, Mul(y, v)));
      MulAddRight(c, Dot(ys[..n], vs[..n]), Mul(y, v));
    }
  }

  lemma {:induction false} DotZero(ys: seq<GF>, vs: seq<GF>)
    requires |ys| == |vs|
    requires forall l :: 0 <= l < |ys| ==> Mul(ys[l], vs[l]) == ZERO
    ensures Dot(ys, vs) == ZERO
  {
    if |ys| > 0 {
      DotZero(ys[..|ys| - 1], vs[..|ys| - 1]);
      AddZero(ZERO);
    }
  }

  // A sum with a single nonzero term.
  lemma {:induction false} DotSingle(ys: seq<GF>, vs: seq<GF>, m: nat)
    requires |ys| == |vs| && m < |ys|
    requires forall l :: 0 <= l < |ys| && l != m ==> Mul(ys[l], vs[l]) == ZERO
    ensures Dot(ys, vs) == Mul(ys[m], vs[m])
  {
    var n := |ys| - 1;
    if m == n {
      DotZero(ys[..n], vs[..n]);
      AddZero(Mul(ys[m], vs[m]));
    } else {
      DotSingle(ys[..n], vs[..n], m);
      AddZero(Mul(ys[m], vs[m]));
    }
  }

  // ---------- exponential sums ----------

  function PowVec(xs: seq<GF>, i: nat): (r: seq<GF>)
    ensures |r| == |xs|
  {
    seq(|xs|, l requires 0 <= l < |xs| => Pow(xs[l], i))
  }

  // The sum of ys[l] * xs[l]^i.
  function PowerSum(xs: seq<GF>, ys: seq<GF>, i: nat): GF
    requires |xs| == |ys|
  {
    Dot(ys, PowVec(xs, i))
  }

  function Damped(xs: seq<GF>, ys: seq<GF>, z: GF): (r: seq<GF>)
    requires |xs| == |ys|
    ensures |r| == |ys|
  {
    seq(|ys|, l requires 0 <= l < |ys| => Mul(ys[l], Add(xs[l], z)))
  }

  lemma DampedSum(xs: seq<GF>, ys: seq<GF>, z: GF, i: nat)
    requires |xs| == |ys|
    ensures PowerSum(xs, Damped(xs, ys, z), i) == Add(PowerSum(xs, ys, i + 1), Mul(z, PowerSum(xs, ys, i)))
  {
    var ws := seq(|ys|, l requires 0 <= l < |ys| => Mul(Add(xs[l], z), Pow(xs[l], i)));
    forall l | 0 <= l < |ys| ensures ws[l] == Add(PowVec(xs, i + 1)[l], Mul(z, PowVec(xs, i)[l])) {
      MulAddLeft(xs[l], z, Pow(xs[l], i));
    }
    DotLinear(ys, PowVec(xs, i + 1), PowVec(xs, i), z, ws);
    forall l | 0 <= l < |ys| ensures Mul(Damped(xs, ys, z)[l], PowVec(xs, i)[l]) == Mul(ys[l], ws[l]) {
      MulAssoc(ys[l], Add(xs[l], z), Pow(xs[l], i));
    }
    DotSame(Damped(xs, ys, z), PowVec(xs, i), ys, ws);
  }

  // As many consecutive zeros as terms force every coefficient to be zero.
  lemma {:induction false} Vandermonde(xs: seq<GF>, ys: seq<GF>, a: nat)
    requires |xs| == |ys| && Distinct(xs) && AllNonzero(xs)
    requires forall i :: a <= i < a + |xs| ==> PowerSum(xs, ys, i) == ZERO
    ensures AllZero(ys)
    decreases |xs|
  {
    if |xs| > 0 {
      var n := |xs| - 1;
      var z, ds := xs[n], Damped(xs, ys, xs[n]);
      forall i | a <= i < a + n ensures PowerSum(xs[..n], ds[..n], i) == ZERO {
        DampedSum(xs, ys, z, i);
        MulZero(z); AddZero(ZERO);
        LastTermZero(xs, ys, i);
      }
      Vandermonde(xs[..n], ds[..n], a);
      forall l | 0 <= l < n ensures ys[l] == ZERO {
        assert ds[..n][l] == ZERO;
        AddCancel(xs[l], z);
        if ys[l] != ZERO { MulNonzero(ys[l], Add(xs[l], z)); }
      }
      forall l | 0 <= l < n ensures Mul(ys[l], PowVec(xs, a)[l]) == ZERO { MulZero(PowVec(xs, a)[l]); }
      DotSingle(ys, PowVec(xs, a), n);
      assert PowerSum(xs, ys, a) == Mul(ys[n], Pow(z, a));
      if ys[n] != ZERO {
        PowNonzero(z, a);
        MulNonzero(ys[n], Pow(z, a));
      }
    }
  }

  lemma LastTermZero(xs: seq<GF>, ys: seq<GF>, i: nat)
    requires |xs| == |ys| > 0
    ensures var n := |xs| - 1;
      PowerSum(xs, Damped(xs, ys, xs[n]), i) == PowerSum(xs[..n], Damped(xs, ys, xs[n])[..n], i)
  {
    var n := |xs| - 1;
    var ds := Damped(xs, ys, xs[n]);
    AddZero(xs[n]);
    MulZero(ys[n]);
    MulZero(Pow(xs[n], i));
    assert PowVec(xs, i)[..n] == PowVec(xs[..n], i);
    AddZero(PowerSum(xs[..n], ds[..n], i));
  }

  // ---------- polynomials ----------

  // p[0] + p[1] z + p[2] z^2 + ...
  function Eval(p: seq<GF>, z: GF): GF {
    if |p| == 0 then ZERO else Add(p[0], Mul(z, Eval(p[1..], z)))
  }

  // The quotient of p - p(z) by x - z.
  function Quotient(p: seq<GF>, z: GF): (r: seq<GF>)
    ensures |r| == if |p| == 0 then 0 else |p| - 1
  {
    if |p| <= 1 then [] else [Eval(p[1..], z)] + Quotient(p[1..], z)
  }

  lemma {:induction false} QuotientEval(p: seq<GF>, z: GF, w: GF)
    ensures Eval(p, w) == Add(Eval(p, z), Mul(Add(w, z), Eval(Quotient(p, z), w)))
  {
    if |p| <= 1 {
      if |p| == 1 {
        assert p[1..] == [];
        MulZero(w); MulZero(z);
      }
      MulZero(Add(w, z));
      AddZero(Eval(p, z));
    } else {
      var t := p[1..];
      var ez, ew, q := Eval(t, z), Eval(t, w), Eval(Quotient(t, z), w);
      QuotientEval(t, z, w);
      assert Quotient(p, z)[1..] == Quotient(t, z);
      // w * ew == z * ez + (w + z) * (ez + w * q)
      var d := Add(w, z);
      calc {
        Add(Mul(z, ez), Mul(d, Add(ez, Mul(w, q))));
        { MulAddRight(d, ez, Mul(w, q)); }
        Add(Mul(z, ez), Add(Mul(d, ez), Mul(d, Mul(w, q))));
        { AddAssoc(Mul(z, ez), Mul(d, ez), Mul(d, Mul(w, q))); MulAddLeft(z, d, ez); }
        Add(Mul(Add(z, d), ez), Mul(d, Mul(w, q)));
        { AddComm(w, z); AddAssoc(z, z, w); AddZero(z); AddZero(w); }
        Add(Mul(w, ez), Mul(d, Mul(w, q)));
        { MulAssoc(d, w, q); MulComm(d, w); MulAssoc(w, d, q); }
        Add(Mul(w, ez), Mul(w, Mul(d, q)));
        { MulAddRight(w, ez, Mul(d, q)); }
        Mul(w, ew);
      }
      AddAssoc(p[0], Mul(z, ez), Mul(d, Add(ez, Mul(w, q))));
    }
  }

  // A zero quotient and a zero value leave only the zero polynomial.
  lemma {:induction false} ZeroQuotient(p: seq<GF>, z: GF)
    requires AllZero(Quotient(p, z)) && Eval(p, z) == ZERO
    ensures AllZero(p)
  {
    if |p| >= 1 {
      if |p| == 1 {
        assert p[1..] == [];
      } else {
        assert Quotient(p, z)[0] == Eval(p[1..], z);
        assert Quotient(p, z)[1..] == Quotient(p[1..], z);
        ZeroQuotient(p[1..], z);
      }
      MulZero(z);
      AddZero(p[0]);
      forall i | 0 <= i < |p| ensures p[i] == ZERO { if i > 0 { assert p[i] == p[1..][i - 1]; } }
    }
  }

  // A polynomial with at least as many roots as coefficients is zero.
  lemma {:induction false} RootCount(p: seq<GF>, zs: seq<GF>)
    requires |p| <= |zs| && Distinct(zs)
    requires forall i :: 0 <= i < |zs| ==> Eval(p, zs[i]) == ZERO
    ensures AllZero(p)
    decreases |p|
  {
    if |p| > 0 {
      var n := |zs| - 1;
      var z, q := zs[n], Quotient(p, zs[n]);
      forall i | 0 <= i < n ensures Eval(q, zs[..n][i]) == ZERO {
        QuotientEval(p, z, zs[i]);
        AddZero(Mul(Add(zs[i], z), Eval(q, zs[i])));
        AddCancel(zs[i], z);
        if Eval(q, zs[i]) != ZERO { MulNonzero(Add(zs[i], z), Eval(q, zs[i])); }
      }
      RootCount(q, zs[..n]);
      ZeroQuotient(p, z);
    }
  }

  // The first n terms of p at w.
  function PartEval(p: seq<GF>, w: GF, n: nat): GF
    requires n <= |p|
  {
    if n == 0 then ZERO else Add(PartEval(p, w, n - 1), Mul(p[n - 1], Pow(w, n - 1)))
  }

  lemma {:induction false} PartEvalShift(p: seq<GF>, w: GF, n: nat)
    requires 1 <= n <= |p|
    ensures PartEval(p, w, n) == Add(p[0], Mul(w, PartEval(p[1..], w, n - 1)))
  {
    if n == 1 {
      MulZero(w); MulOne(p[0]); AddZero(p[0]);
    } else {
      PartEvalShift(p, w, n - 1);
      var t, c, e := PartEval(p[1..], w, n - 2), p[n - 1], Pow(w, n - 2);
      assert p[1..][n - 2] == c;
      MulAddRight(w, t, Mul(c, e));
      MulAssoc(w, c, e); MulComm(w, c); MulAssoc(c, w, e);
      AddAssoc(p[0], Mul(w, t), Mul(c, Pow(w, n - 1)));
    }
  }

  lemma {:induction false} EvalIsPartEval(p: seq<GF>, w: GF)
    ensures Eval(p, w) == PartEval(p, w, |p|)
  {
    if |p| > 0 {
      EvalIsPartEval(p[1..], w);
      PartEvalShift(p, w, |p|);
    }
  }

  // Zero coefficients beyond d do not count.
  ghost predicate DegreeAtMost(p: seq<GF>, d: int) {
    forall j :: 0 <= j < |p| && d < j ==> p[j] == ZERO
  }

  lemma {:induction false} PartEvalStable(p: seq<GF>, w: GF, m: nat, n: nat)
    requires m <= n <= |p| && DegreeAtMost(p, m - 1)
    ensures PartEval(p, w, n) == PartEval(p, w, m)
    decreases n
  {
    if m < n {
      PartEvalStable(p, w, m, n - 1);
      MulZero(Pow(w, n - 1));
      AddZero(PartEval(p, w, m));
    }
  }

  lemma {:induction false} PartEvalPrefix(p: seq<GF>, w: GF, n: nat, m: nat)
    requires n <= m <= |p|
    ensures PartEval(p[..m], w, n) == PartEval(p, w, n)
  {
    if n > 0 { PartEvalPrefix(p, w, n - 1, m); }
  }

  // RootCount for a polynomial stored with trailing zeros.
  lemma RootsWithin(p: seq<GF>, d: nat, zs: seq<GF>)
    requires d < |p| && DegreeAtMost(p, d) && d < |zs| && Distinct(zs)
    requires forall i :: 0 <= i < |zs| ==> PartEval(p, zs[i], |p|) == ZERO
    ensures AllZero(p)
  {
    var q := p[..d + 1];
    forall i | 0 <= i < |zs| ensures Eval(q, zs[i]) == ZERO {
      EvalIsPartEval(q, zs[i]);
      PartEvalPrefix(p, zs[i], d + 1, d + 1);
      PartEvalStable(p, zs[i], d + 1, |p|);
    }
    RootCount(q, zs);
    forall j | 0 <= j < |p| ensures p[j] == ZERO { if j <= d { assert q[j] == p[j]; } }
  }

  // ---------- products with a syndrome sequence ----------

  // The first n terms of coefficient i of p(z) * s(z).
  function Conv(p: seq<GF>, s: seq<GF>, i: nat, n: nat): GF
    requires i < |s| && n <= i + 1 && n <= |p|
  {
    if n == 0 then ZERO else Add(Conv(p, s, i, n - 1), Mul(p[n - 1], s[i - (n - 1)]))
  }

  // Coefficient i of p(z) * s(z).
  function Coef(p: seq<GF>, s: seq<GF>, i: nat): GF
    requires i < |s| < |p|
  {
    Conv(p, s, i, i + 1)
  }

  // s is the sequence of power sums s[i] = sum of ys[l] * xs[l]^(i+1).
  ghost predicate Explains(xs: seq<GF>, ys: seq<GF>, s: seq<GF>) {
    && |xs| == |ys|
    && Distinct(xs) && AllNonzero(xs)
    && forall i :: 0 <= i < |s| ==> s[i] == PowerSum(xs, ys, i + 1)
  }

  ghost function Inverses(xs: seq<GF>): (r: seq<GF>)
    requires AllNonzero(xs)
    ensures |r| == |xs|
    ensures forall l :: 0 <= l < |xs| ==> Mul(xs[l], r[l]) == ONE
  {
    seq(|xs|, l requires 0 <= l < |xs| => Inv(xs[l]))
  }

  lemma InversesDistinct(xs: seq<GF>, ws: seq<GF>)
    requires |xs| == |ws| && Distinct(xs)
    requires forall l :: 0 <= l < |xs| ==> Mul(xs[l], ws[l]) == ONE
    ensures Distinct(ws)
  {
    forall i, j | 0 <= i < j < |ws| ensures ws[i] != ws[j] {
      if ws[i] == ws[j] {
        MulZero(xs[i]);
        MulComm(xs[i], ws[i]);
        MulComm(xs[j], ws[j]);
        MulCancel(ws[i], xs[i], xs[j]);
      }
    }
  }

  // x^(i+1) = x^(k+1) * ... : dividing a power by x is multiplying by w.
  lemma {:induction false} PowDivide(x: GF, w: GF, i: nat, j: nat)
    requires Mul(x, w) == ONE && j <= i
    ensures Pow(x, i - j) == Mul(Pow(x, i), Pow(w, j))
  {
    PowAdd(x, i - j, j);
    PowOfProduct(x, w, j);
    PowOfOne(j);
    MulAssoc(Pow(x, i - j), Pow(x, j), Pow(w, j));
    MulOne(Pow(x, i - j));
  }

  // xs[l]^(i+1) times the first n terms of p at 1/xs[l]
  function Scaled(p: seq<GF>, xs: seq<GF>, ws: seq<GF>, i: nat, n: nat): (r: seq<GF>)
    requires |xs| == |ws| && n <= |p|
    ensures |r| == |xs|
  {
    seq(|xs|, l requires 0 <= l < |xs| => Mul(Pow(xs[l], i + 1), PartEval(p, ws[l], n)))
  }

  lemma {:induction false} ConvIsDot(p: seq<GF>, s: seq<GF>, xs: seq<GF>, ys: seq<GF>, ws: seq<GF>, i: nat, n: nat)
    requires Explains(xs, ys, s) && |ws| == |xs|
    requires forall l :: 0 <= l < |xs| ==> Mul(xs[l], ws[l]) == ONE
    requires i < |s| && n <= i + 1 && n <= |p|
    ensures Conv(p, s, i, n) == Dot(ys, Scaled(p, xs, ws, i, n))
  {
    if n == 0 {
      forall l | 0 <= l < |xs| ensures Mul(ys[l], Scaled(p, xs, ws, i, 0)[l]) == ZERO {
        MulZero(Pow(xs[l], i + 1));
        MulZero(ys[l]);
      }
      DotZero(ys, Scaled(p, xs, ws, i, 0));
    } else {
      var j, c := n - 1, p[n - 1];
      ConvIsDot(p, s, xs, ys, ws, i, j);
      forall l | 0 <= l < |xs|
        ensures Scaled(p, xs, ws, i, n)[l] == Add(Scaled(p, xs, ws, i, j)[l], Mul(c, PowVec(xs, i - j + 1)[l]))
      {
        var x, w := xs[l], ws[l];
        PowDivide(x, w, i + 1, j);
        MulAddRight(Pow(x, i + 1), PartEval(p, w, j), Mul(c, Pow(w, j)));
        MulAssoc(Pow(x, i + 1), c, Pow(w, j));
        MulComm(Pow(x, i + 1), c);
        MulAssoc(c, Pow(x, i + 1), Pow(w, j));
      }
      DotLinear(ys, Scaled(p, xs, ws, i, j), PowVec(xs, i - j + 1), c, Scaled(p, xs, ws, i, n));
    }
  }

  // Beyond the degree of p the coefficients of p * s are again power sums, with
  // weights that vanish exactly where p does.
  function Weights(p: seq<GF>, ys: seq<GF>, ws: seq<GF>): (r: seq<GF>)
    requires |ys| == |ws|
    ensures |r| == |ys|
  {
    seq(|ys|, l requires 0 <= l < |ys| => Mul(ys[l], PartEval(p, ws[l], |p|)))
  }

  lemma CoefIsPowerSum(p: seq<GF>, s: seq<GF>, xs: seq<GF>, ys: seq<GF>, ws: seq<GF>, i: nat)
    requires Explains(xs, ys, s) && |ws| == |xs|
    requires forall l :: 0 <= l < |xs| ==> Mul(xs[l], ws[l]) == ONE
    requires i < |s| < |p| && DegreeAtMost(p, i)
    ensures Coef(p, s, i) == PowerSum(xs, Weights(p, ys, ws), i + 1)
  {
    ConvIsDot(p, s, xs, ys, ws, i, i + 1);
    forall l | 0 <= l < |xs|
      ensures Mul(ys[l], Scaled(p, xs, ws, i, i + 1)[l]) == Mul(Weights(p, ys, ws)[l], PowVec(xs, i + 1)[l])
    {
      var e, q := PartEval(p, ws[l], |p|), Pow(xs[l], i + 1);
      PartEvalStable(p, ws[l], i + 1, |p|);
      MulComm(q, e);
      MulAssoc(ys[l], e, q);
    }
    DotSame(ys, Scaled(p, xs, ws, i, i + 1), Weights(p, ys, ws), PowVec(xs, i + 1));
  }

  // If p * s has as many consecutive zeros above the degree of p as there are
  // errors, then p vanishes at every inverse locator carrying a nonzero value
  // and every later coefficient is zero as well.
  lemma LongZeroRun(p: seq<GF>, s: seq<GF>, xs: seq<GF>, ys: seq<GF>, ws: seq<GF>, a: nat)
    requires Explains(xs, ys, s) && |ws| == |xs| && |s| < |p|
    requires forall l :: 0 <= l < |xs| ==> Mul(xs[l], ws[l]) == ONE
    requires DegreeAtMost(p, a) && a + |xs| <= |s|
    requires forall i :: a <= i < a + |xs| ==> Coef(p, s, i) == ZERO
    ensures forall l :: 0 <= l < |xs| && ys[l] != ZERO ==> PartEval(p, ws[l], |p|) == ZERO
    ensures forall i :: a <= i < |s| ==> Coef(p, s, i) == ZERO
  {
    var cs := Weights(p, ys, ws);
    forall i | a + 1 <= i < a + 1 + |xs| ensures PowerSum(xs, cs, i) == ZERO {
      CoefIsPowerSum(p, s, xs, ys, ws, i - 1);
    }
    Vandermonde(xs, cs, a + 1);
    forall l | 0 <= l < |xs| && ys[l] != ZERO ensures PartEval(p, ws[l], |p|) == ZERO {
      assert cs[l] == ZERO;
      if PartEval(p, ws[l], |p|) != ZERO { MulNonzero(ys[l], PartEval(p, ws[l], |p|)); }
    }
    forall i | a <= i < |s| ensures Coef(p, s, i) == ZERO {
      CoefIsPowerSum(p, s, xs, ys, ws, i);
      forall l | 0 <= l < |xs| ensures Mul(cs[l], PowVec(xs, i + 1)[l]) == ZERO { MulZero(PowVec(xs, i + 1)[l]); }
      DotZero(cs, PowVec(xs, i + 1));
    }
  }
}
