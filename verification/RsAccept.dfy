/** What the decoder makes of any word, near a codeword or not (src/rs_decode.c:122-203):
    when the locator has as many roots as its degree, the values that are added make
    the word a codeword if and only if that degree is the length of the register. */
module RsAccept {
  import opened Field
  import opened RsAlgebra
  import opened RsSteps
  import opened RsShortest
  import opened RsForney
  import opened RsTables
  import opened RsDecode
  import opened RsCorrect
  import opened RsWords

  // ---------- the key equation determines the syndromes ----------

  lemma {:induction false} PartEvalAdd(p: seq<GF>, q: seq<GF>, w: GF, n: nat)
    requires |p| == |q| && n <= |p|
    ensures PartEval(AddScaled(p, ONE, q), w, n) == Add(PartEval(p, w, n), PartEval(q, w, n))
  {
    if n == 0 {
      AddZero(ZERO);
    } else {
      var k := n - 1;
      PartEvalAdd(p, q, w, k);
      MulComm(ONE, q[k]); MulOne(q[k]);
      MulAddLeft(p[k], q[k], Pow(w, k));
      AddSwap(PartEval(p, w, k), PartEval(q, w, k), Mul(p[k], Pow(w, k)), Mul(q[k], Pow(w, k)));
    }
  }

  // Two polynomials of degree below |ws| that agree at ws.
  lemma SameValues(p: seq<GF>, q: seq<GF>, ws: seq<GF>)
    requires |p| == |q| == 8 && |ws| <= 8 && Distinct(ws)
    requires DegreeAtMost(p, |ws| - 1) && DegreeAtMost(q, |ws| - 1)
    requires forall l :: 0 <= l < |ws| ==> PartEval(p, ws[l], 8) == PartEval(q, ws[l], 8)
    ensures p == q
  {
    if |ws| > 0 {
      var d := AddScaled(p, ONE, q);
      forall j | 0 <= j < 8 ensures d[j] == Add(p[j], q[j]) { MulComm(ONE, q[j]); MulOne(q[j]); }
      AddZero(ZERO);
      forall l | 0 <= l < |ws| ensures PartEval(d, ws[l], |d|) == ZERO {
        PartEvalAdd(p, q, ws[l], 8);
        AddZero(PartEval(p, ws[l], 8));
      }
      RootsWithin(d, |ws| - 1, ws);
      forall j | 0 <= j < 8 ensures p[j] == q[j] { AddCancel(p[j], q[j]); }
    }
  }

  lemma {:induction false} ConvDiffers(p: seq<GF>, s: seq<GF>, t: seq<GF>, i: nat, n: nat)
    requires |s| == |t| < |p| && i < |s| && 1 <= n <= i + 1 && p[0] == ONE
    requires forall k :: 0 <= k < i ==> s[k] == t[k]
    ensures Add(Conv(p, s, i, n), Conv(p, t, i, n)) == Add(s[i], t[i])
  {
    if n == 1 {
      MulComm(ONE, s[i]); MulOne(s[i]); AddZero(s[i]);
      MulComm(ONE, t[i]); MulOne(t[i]); AddZero(t[i]);
      assert Conv(p, s, i, 0) == ZERO == Conv(p, t, i, 0);
    } else {
      ConvDiffers(p, s, t, i, n - 1);
      var a, b, c := Conv(p, s, i, n - 1), Conv(p, t, i, n - 1), Mul(p[n - 1], s[i - (n - 1)]);
      AddSwap(a, c, b, c);
      AddZero(c);
      AddZero(Add(a, b));
    }
  }

  lemma {:induction false} CoefsDetermine(p: seq<GF>, s: seq<GF>, t: seq<GF>, n: nat)
    requires |s| == |t| < |p| && n <= |s| && p[0] == ONE
    requires forall i :: 0 <= i < n ==> Coef(p, s, i) == Coef(p, t, i)
    ensures forall i :: 0 <= i < n ==> s[i] == t[i]
  {
    if n > 0 {
      CoefsDetermine(p, s, t, n - 1);
      ConvDiffers(p, s, t, n - 1, n);
      AddZero(Coef(p, s, n - 1));
      AddCancel(s[n - 1], t[n - 1]);
    }
  }

  // Above the number of locators the product with power sums vanishes.
  lemma PowerSumsEnd(p: seq<GF>, s: seq<GF>, xs: seq<GF>, ys: seq<GF>, ws: seq<GF>, i: nat)
    requires Locator(p, s, xs, ys, ws) && |xs| <= i < 8
    ensures Coef(p, s, i) == ZERO
  {
    CoefIsPowerSum(p, s, xs, ys, ws, i);
    var cs := Weights(p, ys, ws);
    forall l | 0 <= l < |xs| ensures Mul(cs[l], PowVec(xs, i + 1)[l]) == ZERO {
      MulZero(ys[l]);
      MulZero(PowVec(xs, i + 1)[l]);
    }
    DotZero(cs, PowVec(xs, i + 1));
  }

  /** The converse of Forney's formula: when the product of locator and syndromes ends
      at the degree of the locator, the values it gives explain the syndromes. */
  lemma ValuesExplain(om: seq<GF>, p: seq<GF>, s: seq<GF>, xs: seq<GF>, ys: seq<GF>, ws: seq<GF>)
    requires Rooted(p, xs, ws) && AllNonzero(xs) && |ys| == |xs| && |s| == 8
    requires Evaluator(om, p, s) && forall i :: |xs| <= i < 8 ==> Coef(p, s, i) == ZERO
    requires forall m :: 0 <= m < |xs| ==> PartEval(om, ws[m], 8) == Mul(ys[m], Deriv(p, ws[m]))
    ensures Explains(xs, ys, s)
  {
    var t := seq(8, i requires 0 <= i < 8 => PowerSum(xs, ys, i + 1));
    var ot := seq(8, i requires 0 <= i < 8 => Coef(p, t, i));
    assert Locator(p, t, xs, ys, ws);
    forall i | |xs| <= i < 8 ensures ot[i] == ZERO { PowerSumsEnd(p, t, xs, ys, ws, i); }
    forall m | 0 <= m < |xs| ensures PartEval(om, ws[m], 8) == PartEval(ot, ws[m], 8) {
      EvaluatorValue(ot, p, t, xs, ys, ws, m);
    }
    InversesDistinct(xs, ws);
    SameValues(om, ot, ws);
    forall i | 0 <= i < 8 ensures Coef(p, s, i) == Coef(p, t, i) { assert om[i] == ot[i]; }
    CoefsDetermine(p, s, t, 8);
  }

  // ---------- places ----------

  ghost predicate Rising(ps: seq<nat>, n: nat) {
    (forall k :: 0 <= k < |ps| ==> ps[k] < n) && forall k, l :: 0 <= k < l < |ps| ==> ps[k] < ps[l]
  }

  // Power sums over places, among which are all where the words differ.
  lemma {:induction false} SumOver(c: Word, d: Word, ps: seq<nat>, n: nat, e: nat)
    requires n <= NN && Rising(ps, n) && forall p: nat :: p < n && c[p] != d[p] ==> p in ps
    ensures var qs := Places(c, d, n);
      PowerSum(Locators(ps), Errors(c, d, ps), e) == PowerSum(Locators(qs), Errors(c, d, qs), e)
    decreases n
  {
    if n > 0 {
      var k := n - 1;
      if |ps| > 0 && ps[|ps| - 1] == k {
        SumOver(c, d, ps[..|ps| - 1], k, e);
        SumAt(c, d, ps, k, e);
      } else {
        assert k !in ps;
        SumOver(c, d, ps, k, e);
      }
    } else {
      assert ps == [];
    }
  }

  lemma SumAt(c: Word, d: Word, ps: seq<nat>, k: nat, e: nat)
    requires k < NN && |ps| > 0 && ps[|ps| - 1] == k && Rising(ps, NN)
    requires var fore, qs := ps[..|ps| - 1], Places(c, d, k);
      PowerSum(Locators(fore), Errors(c, d, fore), e) == PowerSum(Locators(qs), Errors(c, d, qs), e)
    ensures var qs := Places(c, d, k + 1);
      PowerSum(Locators(ps), Errors(c, d, ps), e) == PowerSum(Locators(qs), Errors(c, d, qs), e)
  {
    var fore := ps[..|ps| - 1];
    LastPlace(c, d, ps, e);
    if c[k] != d[k] {
      var qs := Places(c, d, k + 1);
      LastPlace(c, d, qs, e);
      assert qs[..|qs| - 1] == Places(c, d, k);
    } else {
      ZeroTerm(PowerSum(Locators(fore), Errors(c, d, fore), e), c[k], Pow(Exp(NN - 1 - k), e));
    }
  }

  lemma ZeroTerm(a: GF, c: GF, w: GF)
    ensures Add(a, Mul(Add(c, c), w)) == a
  {
    AddZero(c);
    MulZero(w);
    AddZero(a);
  }

  lemma LastPlace(c: Word, d: Word, ps: seq<nat>, e: nat)
    requires |ps| > 0 && forall k :: 0 <= k < |ps| ==> ps[k] < NN
    ensures var n := |ps| - 1; var p, fore := ps[n], ps[..n];
      PowerSum(Locators(ps), Errors(c, d, ps), e) ==
      Add(PowerSum(Locators(fore), Errors(c, d, fore), e), Mul(Add(c[p], d[p]), Pow(Exp(NN - 1 - p), e)))
  {
    var n := |ps| - 1;
    var ys, v := Errors(c, d, ps), PowVec(Locators(ps), e);
    assert ys[..n] == Errors(c, d, ps[..n]);
    assert v[..n] == PowVec(Locators(ps[..n]), e);
  }

  /** A word that differs from d by errors that explain d's syndromes is a codeword. */
  lemma ExplainedIsCodeword(c: Word, d: Word, ps: seq<nat>, s: seq<GF>)
    requires Rising(ps, NN) && forall p: nat :: p < NN && c[p] != d[p] ==> p in ps
    requires |s| == NROOTS && forall i :: 0 <= i < NROOTS ==> s[i] == Syndrome(d, i)
    requires Explains(Locators(ps), Errors(c, d, ps), s)
    ensures IsCodeword(c)
  {
    forall i | 0 <= i < NROOTS ensures Syndrome(c, i) == ZERO {
      PrefixSum(c, d, i, NN);
      assert c[..NN] == c && d[..NN] == d;
      SumOver(c, d, ps, NN, i + 1);
      var a, b := Syndrome(c, i), Syndrome(d, i);
      MulOne(Add(a, b));
      AddComm(a, b); AddAssoc(b, b, a); AddZero(b); AddZero(a);
      AddComm(ZERO, a);
    }
  }

  lemma {:induction false} PlacesWithin(c: Word, d: Word, ps: seq<nat>, n: nat)
    requires n <= NN && Rising(ps, n) && forall p: nat :: p < n && c[p] != d[p] ==> p in ps
    ensures |Places(c, d, n)| <= |ps|
    decreases n
  {
    if n > 0 {
      if |ps| > 0 && ps[|ps| - 1] == n - 1 {
        PlacesWithin(c, d, ps[..|ps| - 1], n - 1);
      } else {
        assert n - 1 !in ps;
        PlacesWithin(c, d, ps, n - 1);
      }
    }
  }

  // ---------- the outcome ----------

  function SyndromesOf(d: Word): (s: seq<GF>)
    ensures |s| == NROOTS
  {
    seq(NROOTS, i requires 0 <= i < NROOTS => Syndrome(d, i))
  }

  ghost predicate Degree(lam: seq<GF>, deg: nat) {
    deg < |lam| && DegreeAtMost(lam, deg) && (deg > 0 ==> lam[deg] != ZERO)
  }

  ghost predicate RootList(lam: seq<GF>, root: seq<int>) {
    && (forall i, j :: 0 <= i < j < |root| ==> root[i] != root[j])
    && forall k :: 0 <= k < |root| ==> 1 <= root[k] <= NN && IsRoot(lam, root[k])
  }

  // lam has as many roots as its degree.
  ghost predicate Splits(lam: seq<GF>) { exists root :: RootList(lam, root) && Degree(lam, |root|) }

  /** What decoding makes of d: with lam the shortest register of its syndromes, of
      length el, it is given up and left alone unless lam splits, and then the result
      is a codeword if and only if lam's degree is el. */
  ghost predicate Outcome(d: Word, r: Word, count: int, lam: seq<GF>, el: nat) {
    && Makes(SyndromesOf(d), lam, el, NROOTS) && Shortest(SyndromesOf(d), el, NROOTS)
    && -1 <= count <= NROOTS && (count >= 0 <==> Splits(lam))
    && (count < 0 ==> r == d)
    && (count >= 0 ==> Degree(lam, count) && Distance(r, d) <= count && (IsCodeword(r) <==> Degree(lam, el)))
  }

  lemma DegreeUnique(lam: seq<GF>, a: nat, b: nat)
    requires Degree(lam, a) && Degree(lam, b)
    ensures a == b
  {
  }

  function PlacesOf(root: seq<int>): (ps: seq<nat>)
    requires forall k :: 0 <= k < |root| ==> root[k] >= 1
    ensures |ps| == |root| && forall k :: 0 <= k < |ps| ==> ps[k] == root[k] - 1
  {
    seq(|root|, k requires 0 <= k < |root| => root[k] - 1)
  }

  // Where the search found all roots of lam.
  lemma FoundIsRooted(root: seq<int>, loc: seq<int>, ps: seq<nat>, lam: seq<GF>)
    requires Found(root, loc, lam, NN + 1) && ps == PlacesOf(root)
    requires |lam| == NROOTS + 1 && lam[0] == ONE && |root| <= NROOTS && DegreeAtMost(lam, |root|)
    ensures Rising(ps, NN) && Rooted(lam, Locators(ps), InverseLocators(ps)) && AllNonzero(Locators(ps))
  {
    var xs, ws := Locators(ps), InverseLocators(ps);
    forall k, l | 0 <= k < l < |ps| ensures xs[k] != xs[l] {
      assert root[k] < root[l];
      if xs[k] == xs[l] { ExpDistinct(NN - 1 - ps[k], NN - 1 - ps[l]); }
    }
    forall l | 0 <= l < |ps| ensures xs[l] != ZERO && Mul(xs[l], ws[l]) == ONE {
      ExpNonzero(NN - 1 - ps[l]);
      PowAdd(GEN, NN - 1 - ps[l], ps[l] + 1);
      ExpPeriod();
    }
    forall l | 0 <= l < |ps| ensures PartEval(lam, ws[l], |lam|) == ZERO { assert IsRoot(lam, root[l]); }
  }

  // The error value at place p.
  ghost function ValueAt(om: seq<GF>, lam: seq<GF>, p: nat): GF
    requires |om| == NROOTS && |lam| == NROOTS + 1
  {
    var d := Deriv(lam, Exp(p + 1));
    if d == ZERO then ZERO else Mul(PartEval(om, Exp(p + 1), NROOTS), Inv(d))
  }

  ghost function ValueWord(om: seq<GF>, lam: seq<GF>): Word
    requires |om| == NROOTS && |lam| == NROOTS + 1
  {
    seq(NN, p requires 0 <= p < NN => ValueAt(om, lam, p))
  }

  // The correction never gives up.
  lemma AlwaysSolvable(om: seq<GF>, lam: seq<GF>, root: seq<int>, loc: seq<int>, ps: seq<nat>)
    requires Found(root, loc, lam, NN + 1) && ps == PlacesOf(root)
    requires |om| == NROOTS && Rising(ps, NN) && Rooted(lam, Locators(ps), InverseLocators(ps))
    ensures Solvable(om, lam, ValueWord(om, lam), root)
  {
    forall k | 0 <= k < |root| ensures Solves(om, lam, ValueWord(om, lam)[root[k] - 1], root[k]) {
      DerivNonzero(lam, Locators(ps), InverseLocators(ps), k);
      var d, v := Deriv(lam, Exp(root[k])), PartEval(om, Exp(root[k]), NROOTS);
      assert InverseLocators(ps)[k] == Exp(root[k]);
      MulAssoc(v, Inv(d), d); MulComm(Inv(d), d); MulOne(v);
    }
  }

  // Only the places found have changed.
  lemma ChangedWithin(r: Word, d: Word, loc: seq<int>, ps: seq<nat>)
    requires Elsewhere(r, d, loc, 0) && |ps| == |loc| && forall k :: 0 <= k < |ps| ==> ps[k] == loc[k]
    ensures forall p: nat :: p < NN && r[p] != d[p] ==> p in ps
  {
    assert loc[0..] == loc;
    forall p: nat | p < NN && r[p] != d[p] ensures p in ps {
      var k :| 0 <= k < |loc| && loc[k] == p;
      assert ps[k] == p;
    }
  }

  // With the degree the length of the register, the result is a codeword.
  lemma FullDegreeRepairs(r: Word, d: Word, s: seq<GF>, om: seq<GF>, lam: seq<GF>,
                          root: seq<int>, loc: seq<int>, ps: seq<nat>)
    requires Found(root, loc, lam, NN + 1) && ps == PlacesOf(root)
    requires Rising(ps, NN) && Rooted(lam, Locators(ps), InverseLocators(ps)) && AllNonzero(Locators(ps))
    requires Evaluator(om, lam, s) && Repaired(r, d, ValueWord(om, lam), loc, 0) && Elsewhere(r, d, loc, 0)
    requires Solvable(om, lam, ValueWord(om, lam), root)
    requires s == SyndromesOf(d) && forall i :: |root| <= i < NROOTS ==> Coef(lam, s, i) == ZERO
    ensures IsCodeword(r)
  {
    var ys := Errors(r, d, ps);
    var ws := InverseLocators(ps);
    forall m | 0 <= m < |ps| ensures PartEval(om, ws[m], 8) == Mul(ys[m], Deriv(lam, ws[m])) {
      var p := ps[m];
      var v := ValueWord(om, lam)[p];
      assert r[loc[m]] == Add(d[loc[m]], v);
      AddComm(Add(d[p], v), d[p]); AddAssoc(d[p], d[p], v); AddZero(d[p]); AddZero(v); AddComm(ZERO, v);
      assert Solves(om, lam, ValueWord(om, lam)[root[m] - 1], root[m]);
    }
    ValuesExplain(om, lam, s, Locators(ps), ys, InverseLocators(ps));
    ChangedWithin(r, d, loc, ps);
    ExplainedIsCodeword(r, d, ps, s);
  }

  // A codeword within the degree of the locator makes the degree the length.
  lemma CodewordNeedsFullDegree(r: Word, d: Word, s: seq<GF>, lam: seq<GF>, el: nat, deg: nat)
    requires IsCodeword(r) && Distance(r, d) <= deg && s == SyndromesOf(d)
    requires Degree(lam, deg) && DegreeAtMost(lam, el) && NoLonger(s, el)
    ensures el == deg
  {
    SyndromesExplained(r, d, s);
    var ps := Places(r, d, NN);
    assert el <= |Locators(ps)|;
  }

  // ---------- a word that is accepted and is none ----------

  /** When only the first syndrome is not zero, decoding reports no error and changes
      nothing, though the word is no codeword. */
  lemma FarWordAccepted(d: Word, r: Word, count: int, lam: seq<GF>, el: nat)
    requires Outcome(d, r, count, lam, el) && OnlyFirst(SyndromesOf(d))
    ensures count == 0 && r == d && !IsCodeword(d)
  {
    OnlyFirstRegister(SyndromesOf(d), lam, el);
    assert RootList(lam, []) && Degree(lam, 0);
    DegreeUnique(lam, count, 0);
    PlacesSpec(r, d, NN);
    assert forall p: nat :: p < NN ==> p !in Places(r, d, NN);
    assert Syndrome(d, 0) != ZERO;
  }
}
