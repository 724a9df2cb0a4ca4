/** Berlekamp-Massey finds the shortest register (src/rs_decode.c:92-119): Massey's
    lemma, that a register of length el which fails at step r forces every register
    for r + 1 syndromes to have length r + 1 - el at least. */
module RsShortest {
  import opened Field
  import opened RsAlgebra
  import opened RsSteps

  // With a register of length n, mu generates the first r syndromes.
  ghost predicate Makes(s: seq<GF>, mu: seq<GF>, n: nat, r: nat) {
    && |s| == NROOTS && |mu| == NROOTS + 1 && r <= NROOTS
    && mu[0] == ONE && DegreeAtMost(mu, n)
    && forall i :: n <= i < r ==> Coef(mu, s, i) == ZERO
  }

  ghost predicate Shortest(s: seq<GF>, n: nat, r: nat) {
    forall mu, m: nat :: Makes(s, mu, m, r) ==> n <= m
  }

  // The first n terms of coefficient i of p * s, or all of them.
  function Upto(p: seq<GF>, s: seq<GF>, i: nat, n: nat): GF
    requires i < |s| < |p|
  {
    Conv(p, s, i, if n <= i + 1 then n else i + 1)
  }

  // The sum over j < m of q[j] times coefficient r - j of p * s, of p the first n
  // coefficients only.
  function Twice(p: seq<GF>, q: seq<GF>, s: seq<GF>, r: nat, m: nat, n: nat): GF
    requires r < |s| < |p| == |q| && m <= r + 1
  {
    if m == 0 then ZERO else Add(Twice(p, q, s, r, m - 1, n), Mul(q[m - 1], Upto(p, s, r - (m - 1), n)))
  }

  lemma {:induction false} TwiceNone(p: seq<GF>, q: seq<GF>, s: seq<GF>, r: nat, m: nat)
    requires r < |s| < |p| == |q| && m <= r + 1
    ensures Twice(p, q, s, r, m, 0) == ZERO
  {
    if m > 0 {
      TwiceNone(p, q, s, r, m - 1);
      MulZero(q[m - 1]);
      AddZero(ZERO);
    }
  }

  // One more coefficient of p.
  lemma {:induction false} TwiceMore(p: seq<GF>, q: seq<GF>, s: seq<GF>, r: nat, m: nat, n: nat)
    requires r < |s| < |p| == |q| && m <= r + 1 && n <= r
    ensures Twice(p, q, s, r, m, n + 1) == Add(Twice(p, q, s, r, m, n), Mul(p[n], Upto(q, s, r - n, m)))
  {
    if m == 0 {
      MulZero(p[n]);
      AddZero(ZERO);
    } else {
      var j := m - 1;
      TwiceMore(p, q, s, r, j, n);
      var a, b := Twice(p, q, s, r, j, n), Mul(p[n], Upto(q, s, r - n, j));
      var c := Mul(q[j], Upto(p, s, r - j, n));
      if n + j <= r {
        var v := s[r - j - n];
        MulAddRight(q[j], Upto(p, s, r - j, n), Mul(p[n], v));
        MulAddRight(p[n], Upto(q, s, r - n, j), Mul(q[j], v));
        MulSwapIn(q[j], p[n], v);
        AddSwap(a, b, c, Mul(q[j], Mul(p[n], v)));
      } else {
        AddAssoc(a, b, c); AddComm(b, c); AddAssoc(a, c, b);
      }
    }
  }

  lemma MulSwapIn(a: GF, b: GF, c: GF)
    ensures Mul(a, Mul(b, c)) == Mul(b, Mul(a, c))
  {
    MulAssoc(a, b, c); MulComm(a, b); MulAssoc(b, a, c);
  }

  // The first n terms of coefficient r of p * (q * s).
  function Outer(p: seq<GF>, q: seq<GF>, s: seq<GF>, r: nat, n: nat): GF
    requires r < |s| < |p| == |q| && n <= r + 1
  {
    if n == 0 then ZERO else Add(Outer(p, q, s, r, n - 1), Mul(p[n - 1], Coef(q, s, r - (n - 1))))
  }

  lemma {:induction false} TwiceIsOuter(p: seq<GF>, q: seq<GF>, s: seq<GF>, r: nat, n: nat)
    requires r < |s| < |p| == |q| && n <= r + 1
    ensures Twice(p, q, s, r, r + 1, n) == Outer(p, q, s, r, n)
  {
    if n == 0 {
      TwiceNone(p, q, s, r, r + 1);
    } else {
      TwiceIsOuter(p, q, s, r, n - 1);
      TwiceMore(p, q, s, r, r + 1, n - 1);
    }
  }

  lemma {:induction false} TwiceIsOther(p: seq<GF>, q: seq<GF>, s: seq<GF>, r: nat, m: nat)
    requires r < |s| < |p| == |q| && m <= r + 1
    ensures Twice(p, q, s, r, m, r + 1) == Outer(q, p, s, r, m)
  {
    if m > 0 { TwiceIsOther(p, q, s, r, m - 1); }
  }

  // p * (q * s) = q * (p * s)
  lemma OuterSwap(p: seq<GF>, q: seq<GF>, s: seq<GF>, r: nat)
    requires r < |s| < |p| == |q|
    ensures Outer(p, q, s, r, r + 1) == Outer(q, p, s, r, r + 1)
  {
    TwiceIsOuter(p, q, s, r, r + 1);
    TwiceIsOther(p, q, s, r, r + 1);
  }

  // All terms but the first vanish.
  lemma {:induction false} OuterFirst(p: seq<GF>, q: seq<GF>, s: seq<GF>, r: nat, n: nat)
    requires r < |s| < |p| == |q| && 1 <= n <= r + 1 && p[0] == ONE
    requires forall i :: 1 <= i < n ==> p[i] == ZERO || Coef(q, s, r - i) == ZERO
    ensures Outer(p, q, s, r, n) == Coef(q, s, r)
  {
    if n == 1 {
      MulComm(ONE, Coef(q, s, r)); MulOne(Coef(q, s, r));
      AddZero(Coef(q, s, r));
      assert Outer(p, q, s, r, 0) == ZERO;
    } else {
      OuterFirst(p, q, s, r, n - 1);
      MulZero(p[n - 1]);
      MulZero(Coef(q, s, r - (n - 1)));
      AddZero(Coef(q, s, r));
    }
  }

  /** Massey's lemma. */
  lemma GrowIsShortest(s: seq<GF>, lam: seq<GF>, bp: seq<GF>, el: nat, r: nat)
    requires Generates(s, lam, bp, el, r) && r < NROOTS && Coef(lam, s, r) != ZERO
    ensures Shortest(s, r + 1 - el, r + 1)
  {
    var next := r + 1;
    forall mu, m: nat | Makes(s, mu, m, next) ensures next - el <= m {
      if m + el <= r {
        OuterFirst(lam, mu, s, r, r + 1);
        OuterFirst(mu, lam, s, r, r + 1);
        OuterSwap(lam, mu, s, r);
      }
    }
  }

  lemma StaysShortest(s: seq<GF>, n: nat, r: nat)
    requires Shortest(s, n, r) && r < NROOTS
    ensures Shortest(s, n, r + 1)
  {
    var next := r + 1;
    forall mu, m: nat | Makes(s, mu, m, next) ensures n <= m { assert Makes(s, mu, m, r); }
  }

  // Only the first syndrome is not zero.
  ghost predicate OnlyFirst(s: seq<GF>) {
    |s| == NROOTS && s[0] != ZERO && forall i :: 1 <= i < NROOTS ==> s[i] == ZERO
  }

  lemma {:induction false} FirstTimes(p: seq<GF>, s: seq<GF>, i: nat, n: nat)
    requires OnlyFirst(s) && |p| == NROOTS + 1 && i < NROOTS && n <= i + 1
    ensures Conv(p, s, i, n) == if n == i + 1 then Mul(p[i], s[0]) else ZERO
  {
    if n > 0 {
      FirstTimes(p, s, i, n - 1);
      MulZero(p[n - 1]);
      AddZero(ZERO);
      AddZero(Mul(p[n - 1], s[i - (n - 1)]));
    }
  }

  /** For such syndromes the shortest register has length one, and nothing in it. */
  lemma OnlyFirstRegister(s: seq<GF>, lam: seq<GF>, n: nat)
    requires OnlyFirst(s) && Makes(s, lam, n, NROOTS) && Shortest(s, n, NROOTS)
    ensures n == 1 && DegreeAtMost(lam, 0)
  {
    var one := [ONE] + seq(NROOTS, _ => ZERO);
    forall i | 1 <= i < NROOTS ensures Coef(one, s, i) == ZERO {
      FirstTimes(one, s, i, i + 1);
      MulZero(s[0]);
    }
    assert Makes(s, one, 1, NROOTS);
    FirstTimes(lam, s, 0, 1);
    MulComm(ONE, s[0]); MulOne(s[0]);
    assert Coef(lam, s, 0) == s[0];
    assert n == 1;
    forall i | 1 <= i < NROOTS ensures lam[i] == ZERO {
      FirstTimes(lam, s, i, i + 1);
      assert Coef(lam, s, i) == ZERO;
      if lam[i] != ZERO { MulNonzero(lam[i], s[0]); }
    }
  }
}
