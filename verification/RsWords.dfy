/** Codewords, errors and distance: how the syndromes of a damaged word read as
    power sums of its errors, and why the nearby codeword is unique. */
module RsWords {
  import opened Field
  import opened RsAlgebra
  import opened RsSteps
  import opened RsTables
  import opened RsDecode

  type Word = w: seq<GF> | |w| == NN witness seq(NN, _ => ZERO)

  // A word is a codeword when its polynomial vanishes at alpha^1 .. alpha^8.
  ghost predicate IsCodeword(c: Word) {
    forall i :: 0 <= i < NROOTS ==> Syndrome(c, i) == ZERO
  }

  // The places below n where two words differ, in order.
  function Places(c: Word, d: Word, n: nat): (r: seq<nat>)
    requires n <= NN
    ensures forall k :: 0 <= k < |r| ==> r[k] < n
  {
    if n == 0 then []
    else if c[n - 1] != d[n - 1] then Places(c, d, n - 1) + [n - 1]
    else Places(c, d, n - 1)
  }

  function Distance(c: Word, d: Word): nat { |Places(c, d, NN)| }

  lemma {:induction false} PlacesSpec(c: Word, d: Word, n: nat)
    requires n <= NN
    ensures forall k, l :: 0 <= k < l < |Places(c, d, n)| ==> Places(c, d, n)[k] < Places(c, d, n)[l]
    ensures forall p: nat :: p in Places(c, d, n) <==> p < n && c[p] != d[p]
  {
    if n > 0 { PlacesSpec(c, d, n - 1); }
  }

  lemma {:induction false} Triangle(a: Word, b: Word, c: Word, n: nat)
    requires n <= NN
    ensures |Places(a, c, n)| <= |Places(a, b, n)| + |Places(b, c, n)|
    ensures |Places(a, b, n)| == |Places(b, a, n)|
  {
    if n > 0 { Triangle(a, b, c, n - 1); }
  }

  // The locator of a place, its inverse, and the error there.
  function Locators(ps: seq<nat>): (r: seq<GF>)
    requires forall k :: 0 <= k < |ps| ==> ps[k] < NN
    ensures |r| == |ps|
  {
    seq(|ps|, k requires 0 <= k < |ps| => Exp(NN - 1 - ps[k]))
  }

  function InverseLocators(ps: seq<nat>): (r: seq<GF>)
    ensures |r| == |ps|
  {
    seq(|ps|, k requires 0 <= k < |ps| => Exp(ps[k] + 1))
  }

  function Difference(c: Word, d: Word): (r: Word)
    ensures forall p :: 0 <= p < NN ==> r[p] == Add(c[p], d[p])
  {
    seq(NN, k requires 0 <= k < NN => Add(c[k], d[k]))
  }

  function Errors(c: Word, d: Word, ps: seq<nat>): (r: seq<GF>)
    requires forall k :: 0 <= k < |ps| ==> ps[k] < NN
    ensures |r| == |ps|
  {
    seq(|ps|, k requires 0 <= k < |ps| => Add(c[ps[k]], d[ps[k]]))
  }

  lemma {:induction false} PrefixSum(c: Word, d: Word, i: nat, n: nat)
    requires n <= NN
    ensures var ps := Places(c, d, n);
      Mul(Add(Horner(c[..n], Exp(i + 1)), Horner(d[..n], Exp(i + 1))), Pow(Exp(i + 1), NN - n))
      == PowerSum(Locators(ps), Errors(c, d, ps), i + 1)
  {
    var x := Exp(i + 1);
    if n == 0 {
      AddZero(ZERO);
      MulZero(Pow(x, NN));
    } else {
      var k := n - 1;
      PrefixSum(c, d, i, k);
      var hc, hd, e := Horner(c[..k], x), Horner(d[..k], x), Add(c[k], d[k]);
      assert c[..n][..k] == c[..k] && d[..n][..k] == d[..k];
      PrefixStep(c[k], d[k], hc, hd, x, NN - n);
      LastError(c, d, i, n);
    }
  }

  // ((a + x u) + (b + x v)) p == (u + v) (x p) + (a + b) p
  lemma PrefixStep(a: GF, b: GF, u: GF, v: GF, x: GF, m: nat)
    ensures Mul(Add(Add(a, Mul(x, u)), Add(b, Mul(x, v))), Pow(x, m))
         == Add(Mul(Add(u, v), Pow(x, m + 1)), Mul(Add(a, b), Pow(x, m)))
  {
    var p := Pow(x, m);
    AddSwap(a, Mul(x, u), b, Mul(x, v));
    MulAddRight(x, u, v);
    MulAddLeft(Add(a, b), Mul(x, Add(u, v)), p);
    MulComm(x, Add(u, v));
    MulAssoc(Add(u, v), x, p);
    AddComm(Mul(Add(a, b), p), Mul(Add(u, v), Mul(x, p)));
  }

  lemma LastError(c: Word, d: Word, i: nat, n: nat)
    requires 0 < n <= NN
    ensures var ps, qs := Places(c, d, n), Places(c, d, n - 1);
      PowerSum(Locators(ps), Errors(c, d, ps), i + 1)
      == Add(PowerSum(Locators(qs), Errors(c, d, qs), i + 1), Mul(Add(c[n - 1], d[n - 1]), Pow(Exp(i + 1), NN - n)))
  {
    var ps, qs, e := Places(c, d, n), Places(c, d, n - 1), Add(c[n - 1], d[n - 1]);
    PowMul(GEN, i + 1, NN - n);
    PowMul(GEN, NN - n, i + 1);
    assert (i + 1) * (NN - n) == (NN - n) * (i + 1);
    if c[n - 1] == d[n - 1] {
      AddZero(c[n - 1]);
      MulZero(Pow(Exp(i + 1), NN - n));
      AddZero(PowerSum(Locators(qs), Errors(c, d, qs), i + 1));
    } else {
      var ys, v := Errors(c, d, ps), PowVec(Locators(ps), i + 1);
      assert ys[..|ys| - 1] == Errors(c, d, qs);
      assert v[..|ys| - 1] == PowVec(Locators(qs), i + 1);
      assert ys[|ys| - 1] == e;
      assert v[|ys| - 1] == Pow(Exp(NN - n), i + 1);
      assert Dot(ys, v) == Add(Dot(ys[..|ys| - 1], v[..|ys| - 1]), Mul(e, v[|ys| - 1]));
    }
  }

  lemma LocatorsDistinct(c: Word, d: Word)
    ensures var ps := Places(c, d, NN);
      && Distinct(Locators(ps)) && AllNonzero(Locators(ps)) && AllNonzero(Errors(c, d, ps))
      && Distinct(InverseLocators(ps))
      && forall l :: 0 <= l < |ps| ==> Mul(Locators(ps)[l], InverseLocators(ps)[l]) == ONE
  {
    var ps := Places(c, d, NN);
    var xs, ws := Locators(ps), InverseLocators(ps);
    PlacesSpec(c, d, NN);
    forall k, l | 0 <= k < l < |ps| ensures xs[k] != xs[l] {
      if xs[k] == xs[l] { ExpDistinct(NN - 1 - ps[k], NN - 1 - ps[l]); }
    }
    forall l | 0 <= l < |ps| ensures xs[l] != ZERO && Errors(c, d, ps)[l] != ZERO && Mul(xs[l], ws[l]) == ONE {
      ExpNonzero(NN - 1 - ps[l]);
      var p := ps[l];
      assert p in ps;
      AddCancel(c[p], d[p]);
      assert Errors(c, d, ps)[l] == Add(c[p], d[p]);
      PowAdd(GEN, NN - 1 - ps[l], ps[l] + 1);
      ExpPeriod();
    }
    InversesDistinct(xs, ws);
  }

  // The syndromes of a word are the power sums of its difference to a codeword.
  lemma SyndromesExplained(c: Word, d: Word, s: seq<GF>)
    requires IsCodeword(c) && |s| == NROOTS
    requires forall i :: 0 <= i < NROOTS ==> s[i] == Syndrome(d, i)
    ensures var ps := Places(c, d, NN); Explains(Locators(ps), Errors(c, d, ps), s)
  {
    LocatorsDistinct(c, d);
    var ps := Places(c, d, NN);
    forall i | 0 <= i < NROOTS ensures s[i] == PowerSum(Locators(ps), Errors(c, d, ps), i + 1) {
      PrefixSum(c, d, i, NN);
      assert c[..NN] == c && d[..NN] == d;
      assert Syndrome(c, i) == ZERO;
      AddZero(s[i]);
      MulOne(s[i]);
    }
  }

  // Two codewords at distance at most 8 are equal.
  lemma MinimumDistance(c: Word, d: Word)
    requires IsCodeword(c) && IsCodeword(d) && Distance(c, d) <= NROOTS
    ensures c == d
  {
    var ps := Places(c, d, NN);
    var s := seq(NROOTS, _ => ZERO);
    SyndromesExplained(c, d, s);
    LocatorsDistinct(c, d);
    forall i | 1 <= i < 1 + |ps| ensures PowerSum(Locators(ps), Errors(c, d, ps), i) == ZERO {
      assert s[i - 1] == ZERO;
    }
    Vandermonde(Locators(ps), Errors(c, d, ps), 1);
    PlacesSpec(c, d, NN);
    if |ps| > 0 { NotAllZero(Errors(c, d, ps)); }
    forall p: nat | p < NN ensures c[p] == d[p] {
      if c[p] != d[p] { assert false; }
    }
  }

  lemma NotAllZero(ys: seq<GF>)
    requires AllNonzero(ys) && |ys| > 0
    ensures !AllZero(ys)
  {
    assert ys[0] != ZERO;
  }

  lemma NearbyIsUnique(c: Word, c': Word, d: Word)
    requires IsCodeword(c) && IsCodeword(c') && Distance(c, d) <= 4 && Distance(c', d) <= 4
    ensures c == c'
  {
    Triangle(c, d, c', NN);
    Triangle(c', d, c, NN);
    MinimumDistance(c, c');
  }

  lemma {:induction false} SameWord(c: Word, n: nat)
    requires n <= NN
    ensures Places(c, c, n) == []
  {
    if n > 0 { SameWord(c, n - 1); }
  }
}
