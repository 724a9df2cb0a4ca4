/** The Berlekamp-Massey iteration (src/rs_decode.c:77-120) on values: the
    invariant its three kinds of step keep, and what it says about the errors. */
module RsSteps {
  import opened Field
  import opened RsAlgebra

  const NROOTS := 8

  // Pointwise p + c * q.
  function AddScaled(p: seq<GF>, c: GF, q: seq<GF>): (r: seq<GF>)
    requires |p| == |q|
    ensures |r| == |p|
  {
    seq(|p|, j requires 0 <= j < |p| => Add(p[j], Mul(c, q[j])))
  }

  function Scale(c: GF, p: seq<GF>): (r: seq<GF>)
    ensures |r| == |p|
  {
    seq(|p|, j requires 0 <= j < |p| => Mul(c, p[j]))
  }

  // z * p(z), dropping the last coefficient.
  function TimesZ(p: seq<GF>): (r: seq<GF>)
    requires |p| > 0
    ensures |r| == |p|
  {
    [ZERO] + p[..|p| - 1]
  }

  lemma {:induction false} ConvAddScaled(p: seq<GF>, c: GF, q: seq<GF>, s: seq<GF>, i: nat, n: nat)
    requires |p| == |q| && i < |s| && n <= i + 1 && n <= |p|
    ensures Conv(AddScaled(p, c, q), s, i, n) == Add(Conv(p, s, i, n), Mul(c, Conv(q, s, i, n)))
  {
    if n == 0 {
      MulZero(c);
      AddZero(ZERO);
    } else {
      var j := n - 1;
      ConvAddScaled(p, c, q, s, i, j);
      var v := s[i - j];
      MulAddLeft(p[j], Mul(c, q[j]), v);
      MulAssoc(c, q[j], v);
      AddSwap(Conv(p, s, i, j), Mul(c, Conv(q, s, i, j)), Mul(p[j], v), Mul(c, Mul(q[j], v)));
      MulAddRight(c, Conv(q, s, i, j), Mul(q[j], v));
    }
  }

  lemma {:induction false} ConvScale(c: GF, p: seq<GF>, s: seq<GF>, i: nat, n: nat)
    requires i < |s| && n <= i + 1 && n <= |p|
    ensures Conv(Scale(c, p), s, i, n) == Mul(c, Conv(p, s, i, n))
  {
    if n == 0 {
      MulZero(c);
    } else {
      var j := n - 1;
      ConvScale(c, p, s, i, j);
      MulAssoc(c, p[j], s[i - j]);
      MulAddRight(c, Conv(p, s, i, j), Mul(p[j], s[i - j]));
    }
  }

  lemma {:induction false} ConvTimesZ(p: seq<GF>, s: seq<GF>, i: nat, n: nat)
    requires 1 <= i < |s| && 1 <= n <= i + 1 && n <= |p|
    ensures Conv(TimesZ(p), s, i, n) == Conv(p, s, i - 1, n - 1)
  {
    if n == 1 {
      MulZero(s[i]);
      AddZero(ZERO);
    } else {
      ConvTimesZ(p, s, i, n - 1);
      assert TimesZ(p)[n - 1] == p[n - 2];
    }
  }

  lemma CoefTimesZ(p: seq<GF>, s: seq<GF>, i: nat)
    requires 1 <= i < |s| < |p|
    ensures Coef(TimesZ(p), s, i) == Coef(p, s, i - 1)
  {
    ConvTimesZ(p, s, i, i + 1);
  }

  // After r steps: lam generates the first r syndromes with a register of length
  // el, and bp is the last polynomial that failed, scaled so that its failure
  // was 1 and shifted up to the current step.
  ghost predicate Generates(s: seq<GF>, lam: seq<GF>, bp: seq<GF>, el: nat, r: nat) {
    && |s| == NROOTS && |lam| == |bp| == NROOTS + 1
    && lam[0] == ONE && el <= r <= NROOTS
    && DegreeAtMost(lam, el)
    && DegreeAtMost(bp, r - el)
    && (forall i :: el <= i < r ==> Coef(lam, s, i) == ZERO)
    && (el > 0 ==>
          && (forall i :: r - el <= i < r - 1 ==> Coef(bp, s, i) == ZERO)
          && Coef(bp, s, r - 1) == ONE)
  }

  // The register is never longer than the number of errors.
  ghost predicate Short(s: seq<GF>, el: nat, xs: seq<GF>, ys: seq<GF>) {
    Explains(xs, ys, s) ==> el <= |xs|
  }

  // Whatever errors explain the syndromes.
  ghost predicate NoLonger(s: seq<GF>, el: nat) { forall xs, ys :: Explains(xs, ys, s) ==> el <= |xs| }

  lemma StepZero(s: seq<GF>, lam: seq<GF>, bp: seq<GF>, el: nat, r: nat)
    requires Generates(s, lam, bp, el, r) && r < NROOTS && Coef(lam, s, r) == ZERO
    ensures Generates(s, lam, TimesZ(bp), el, r + 1)
  {
    BpShift(s, lam, bp, el, r);
  }

  lemma BpShift(s: seq<GF>, lam: seq<GF>, bp: seq<GF>, el: nat, r: nat)
    requires Generates(s, lam, bp, el, r) && r < NROOTS
    ensures var b2 := TimesZ(bp);
      && DegreeAtMost(b2, r + 1 - el)
      && (el > 0 ==>
            && (forall i :: r + 1 - el <= i < r ==> Coef(b2, s, i) == ZERO)
            && Coef(b2, s, r) == ONE)
  {
    var b2 := TimesZ(bp);
    forall j | 0 <= j < |b2| && r + 1 - el < j ensures b2[j] == ZERO {
      if j > 0 { assert b2[j] == bp[j - 1]; }
    }
    if el > 0 {
      forall i | r + 1 - el <= i < r ensures Coef(b2, s, i) == ZERO { CoefTimesZ(bp, s, i); }
      CoefTimesZ(bp, s, r);
    }
  }

  // lam - d * z * bp: what both correcting steps make of lam.
  lemma Corrected(s: seq<GF>, lam: seq<GF>, bp: seq<GF>, el: nat, r: nat, d: GF, el': nat)
    requires Generates(s, lam, bp, el, r) && r < NROOTS && d == Coef(lam, s, r)
    requires el <= el' && r + 1 - el <= el' <= r + 1 && (el == 0 ==> el' == r + 1)
    ensures var t := AddScaled(lam, d, TimesZ(bp));
      && t[0] == ONE
      && DegreeAtMost(t, el')
      && forall i :: el' <= i < r + 1 ==> Coef(t, s, i) == ZERO
  {
    var b2 := TimesZ(bp);
    var t := AddScaled(lam, d, b2);
    BpShift(s, lam, bp, el, r);
    MulZero(d);
    AddZero(ONE);
    AddZero(ZERO);
    forall i | el' <= i < r + 1 ensures Coef(t, s, i) == ZERO {
      ConvAddScaled(lam, d, b2, s, i, i + 1);
      assert Coef(t, s, i) == Add(Coef(lam, s, i), Mul(d, Coef(b2, s, i)));
      if i == r {
        MulOne(d);
        AddZero(d);
      } else {
        assert Coef(lam, s, i) == ZERO;
        assert Coef(b2, s, i) == ZERO;
      }
    }
  }

  lemma StepKeep(s: seq<GF>, lam: seq<GF>, bp: seq<GF>, el: nat, r: nat, d: GF)
    requires Generates(s, lam, bp, el, r) && r < NROOTS && d == Coef(lam, s, r)
    requires r < 2 * el
    ensures Generates(s, AddScaled(lam, d, TimesZ(bp)), TimesZ(bp), el, r + 1)
  {
    Corrected(s, lam, bp, el, r, d, el);
    BpShift(s, lam, bp, el, r);
  }

  lemma StepGrow(s: seq<GF>, lam: seq<GF>, bp: seq<GF>, el: nat, r: nat, d: GF, dinv: GF)
    requires Generates(s, lam, bp, el, r) && r < NROOTS && d == Coef(lam, s, r)
    requires 2 * el <= r && Mul(d, dinv) == ONE
    ensures Generates(s, AddScaled(lam, d, TimesZ(bp)), Scale(dinv, lam), r + 1 - el, r + 1)
  {
    Corrected(s, lam, bp, el, r, d, r + 1 - el);
    var b2 := Scale(dinv, lam);
    MulZero(dinv);
    forall i | el <= i < r + 1 ensures Coef(b2, s, i) == Mul(dinv, Coef(lam, s, i)) {
      ConvScale(dinv, lam, s, i, i + 1);
    }
    MulComm(d, dinv);
  }

  // Growing happens only when there are that many errors.
  lemma GrowIsShort(s: seq<GF>, lam: seq<GF>, bp: seq<GF>, el: nat, r: nat, xs: seq<GF>, ys: seq<GF>)
    requires Generates(s, lam, bp, el, r) && r < NROOTS && Coef(lam, s, r) != ZERO
    ensures Short(s, r + 1 - el, xs, ys)
  {
    if Explains(xs, ys, s) && |xs| < r + 1 - el {
      LongZeroRun(lam, s, xs, ys, Inverses(xs), el);
      assert false;
    }
  }

  lemma GrowIsNoLonger(s: seq<GF>, lam: seq<GF>, bp: seq<GF>, el: nat, r: nat)
    requires Generates(s, lam, bp, el, r) && r < NROOTS && Coef(lam, s, r) != ZERO
    ensures NoLonger(s, r + 1 - el)
  {
    forall xs, ys | Explains(xs, ys, s) ensures r + 1 - el <= |xs| { GrowIsShort(s, lam, bp, el, r, xs, ys); }
  }

  // At the end, every inverse locator is a root of lam, and lam has no other.
  lemma FinalRoots(s: seq<GF>, lam: seq<GF>, el: nat, xs: seq<GF>, ys: seq<GF>, ws: seq<GF>)
    requires |s| == NROOTS && |lam| == NROOTS + 1 && lam[0] == ONE && DegreeAtMost(lam, el)
    requires (forall i :: el <= i < NROOTS ==> Coef(lam, s, i) == ZERO) && Short(s, el, xs, ys)
    requires Explains(xs, ys, s) && AllNonzero(ys) && 2 * |xs| <= NROOTS && |ws| == |xs|
    requires forall l :: 0 <= l < |xs| ==> Mul(xs[l], ws[l]) == ONE
    ensures forall l :: 0 <= l < |xs| ==> PartEval(lam, ws[l], |lam|) == ZERO
    ensures DegreeAtMost(lam, |xs|)
  {
    LongZeroRun(lam, s, xs, ys, ws, el);
  }

  // The degree of a polynomial with these roots is their number.
  lemma DegreeIsRootCount(lam: seq<GF>, d: nat, ws: seq<GF>)
    requires |lam| > 0 && lam[0] == ONE && DegreeAtMost(lam, d) && d < |lam|
    requires Distinct(ws)
    requires forall l :: 0 <= l < |ws| ==> PartEval(lam, ws[l], |lam|) == ZERO
    ensures |ws| <= d
  {
    if d < |ws| {
      RootsWithin(lam, d, ws);
    }
  }
}
