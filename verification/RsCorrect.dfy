/** Chien search, error evaluator and correction (src/rs_decode.c:129-203). */
module RsCorrect {
  import opened Basics
  import opened Field
  import opened RsAlgebra
  import opened RsSteps
  import opened RsForney
  import opened RsTables
  import opened RsDecode

  // Terms lo .. hi-1 of p at w, added from the top down as the loops do.
  function Range(p: seq<GF>, w: GF, lo: nat, hi: nat): GF
    requires lo <= hi <= |p|
    decreases hi - lo
  {
    if lo == hi then ZERO else Add(Range(p, w, lo + 1, hi), Mul(p[lo], Pow(w, lo)))
  }

  lemma {:induction false} RangeIsPart(p: seq<GF>, w: GF, lo: nat, hi: nat)
    requires lo <= hi <= |p|
    ensures Add(PartEval(p, w, lo), Range(p, w, lo, hi)) == PartEval(p, w, hi)
    decreases hi - lo
  {
    if lo == hi {
      AddZero(PartEval(p, w, lo));
    } else {
      RangeIsPart(p, w, lo + 1, hi);
      var a, b, c := PartEval(p, w, lo), Range(p, w, lo + 1, hi), Mul(p[lo], Pow(w, lo));
      AddComm(b, c);
      AddAssoc(a, c, b);
    }
  }

  // The register j of the search holds the log of p[j] * w^j.
  ghost predicate Register(k: int, c: GF, e: GF) {
    0 <= k <= A0 && Denote(k) == Mul(c, e)
  }

  // The same for w = alpha^i; the method's proof does not look inside (SEALS).
  ghost predicate RegisterAt(k: int, c: GF, i: nat, j: nat) { SealedRegister(SEALS, k, c, i, j) }

  ghost predicate SealedRegister(seals: seq<bool>, k: int, c: GF, i: nat, j: nat) {
    if |seals| > 0 then SealedRegister(seals[1..], k, c, i, j) else Register(k, c, Exp(i * j))
  }

  lemma {:induction false} OpenRegister(seals: seq<bool>, k: int, c: GF, i: nat, j: nat)
    ensures SealedRegister(seals, k, c, i, j) == Register(k, c, Exp(i * j))
  {
    if |seals| > 0 { OpenRegister(seals[1..], k, c, i, j); }
  }

  lemma NextTerm(lam: seq<GF>, w: GF, j: nat, deg: nat)
    requires 1 <= j <= deg < |lam|
    ensures Add(Add(ONE, Range(lam, w, j + 1, deg + 1)), Mul(lam[j], Pow(w, j))) == Add(ONE, Range(lam, w, j, deg + 1))
  {
    AddAssoc(ONE, Range(lam, w, j + 1, deg + 1), Mul(lam[j], Pow(w, j)));
  }

  // rs_decode.c:133-139: evaluate lambda one power of alpha further on.
  method Advance(rs: Rs, reg: array<int>, deg: nat, i: nat, ghost lam: seq<GF>) returns (q: GF)
    requires rs.Valid() && reg.Length == NROOTS + 1 == |lam| && deg <= NROOTS && 1 <= i
    requires lam[0] == ONE && DegreeAtMost(lam, deg)
    requires forall j :: 1 <= j <= deg ==> RegisterAt(reg[j], lam[j], i - 1, j)
    modifies reg
    ensures forall j :: 1 <= j <= deg ==> RegisterAt(reg[j], lam[j], i, j)
    ensures q == PartEval(lam, Exp(i), |lam|)
  {
    q := ONE;
    var j := deg;
    AddZero(ONE);
    while j > 0
      invariant 0 <= j <= deg
      invariant q == Add(ONE, Range(lam, Exp(i), j + 1, deg + 1))
      invariant forall k :: 1 <= k <= j ==> RegisterAt(reg[k], lam[k], i - 1, k)
      invariant forall k :: j < k <= deg ==> RegisterAt(reg[k], lam[k], i, k)
    {
      NextTerm(lam, Exp(i), j, deg);
      reg[j], q := AdvanceOne(rs, reg[j], q, i, j, lam[j]);
      j := j - 1;
    }
    TermsAreAll(lam, Exp(i), deg);
  }

  lemma TermsAreAll(lam: seq<GF>, w: GF, deg: nat)
    requires deg < |lam| && lam[0] == ONE && DegreeAtMost(lam, deg)
    ensures Add(ONE, Range(lam, w, 1, deg + 1)) == PartEval(lam, w, |lam|)
  {
    RangeIsPart(lam, w, 1, deg + 1);
    PartEvalStable(lam, w, deg + 1, |lam|);
    FirstTermIsOne(lam, w);
  }

  lemma FirstTermIsOne(lam: seq<GF>, w: GF)
    requires |lam| > 0 && lam[0] == ONE
    ensures PartEval(lam, w, 1) == ONE
  {
    MulOne(ONE);
    AddZero(ONE);
    assert PartEval(lam, w, 1) == Add(PartEval(lam, w, 0), Mul(lam[0], Pow(w, 0)));
  }

  method AdvanceOne(rs: Rs, k: int, acc: GF, i: nat, j: nat, ghost c: GF) returns (k': int, q: GF)
    requires rs.Valid() && 1 <= i && RegisterAt(k, c, i - 1, j)
    ensures RegisterAt(k', c, i, j) && q == Add(acc, Mul(c, Pow(Exp(i), j)))
  {
    k', q := k, acc;
    OpenRegister(SEALS, k, c, i - 1, j);
    RegisterStep(k, c, i, j);
    PowMul(GEN, i, j);
    if k != A0 {
      k' := Modnn(k + j);
      var v := rs.AlphaTo(k');
      q := Add(q, v);
    } else {
      AddZero(acc);
    }
    OpenRegister(SEALS, k', c, i, j);
  }

  lemma RegisterStep(k: int, c: GF, i: nat, j: nat)
    requires 1 <= i && Register(k, c, Exp((i - 1) * j))
    ensures k == A0 ==> Register(k, c, Exp(i * j)) && Mul(c, Exp(i * j)) == ZERO
    ensures k != A0 ==> Register((k + j) % NN, c, Exp(i * j))
  {
    var e := Exp((i - 1) * j);
    PowAdd(GEN, (i - 1) * j, j);
    assert (i - 1) * j + j == i * j;
    MulAssoc(c, e, Exp(j));
    if k == A0 {
      MulComm(ZERO, Exp(j));
      MulZero(Exp(j));
    } else {
      DenoteMul(k, j);
    }
  }

  ghost predicate IsRoot(lam: seq<GF>, i: nat) {
    PartEval(lam, Exp(i), |lam|) == ZERO
  }

  // What the search has found among the exponents below i.
  ghost predicate Found(root: seq<int>, loc: seq<int>, lam: seq<GF>, i: nat) {
    && |root| == |loc|
    && (forall k :: 0 <= k < |root| ==> 1 <= root[k] < i && loc[k] == root[k] - 1 && IsRoot(lam, root[k]))
    && (forall k, l :: 0 <= k < l < |root| ==> root[k] < root[l])
  }

  ghost predicate FoundAll(root: seq<int>, lam: seq<GF>, i: nat) {
    forall j: nat :: 1 <= j < i && IsRoot(lam, j) ==> j in root
  }

  lemma FoundOne(root: seq<int>, loc: seq<int>, lam: seq<GF>, i: nat)
    requires Found(root, loc, lam, i) && FoundAll(root, lam, i) && 1 <= i && IsRoot(lam, i)
    ensures Found(root + [i], loc + [i - 1], lam, i + 1) && FoundAll(root + [i], lam, i + 1)
  {
  }

  lemma FoundNone(root: seq<int>, loc: seq<int>, lam: seq<GF>, i: nat)
    requires Found(root, loc, lam, i) && FoundAll(root, lam, i) && !IsRoot(lam, i)
    ensures Found(root, loc, lam, i + 1) && FoundAll(root, lam, i + 1)
  {
  }

  /** The roots found are roots, in increasing order; unless the search stopped
      because there were as many as the degree allows, it found them all. */
  method ChienSearch(rs: Rs, li: array<int>, deg: nat, ghost lam: seq<GF>)
    returns (root: seq<int>, loc: seq<int>, count: nat)
    requires rs.Valid() && |lam| == NROOTS + 1 && Denotes(li[..], lam) && lam[0] == ONE
    requires deg <= NROOTS && DegreeAtMost(lam, deg)
    ensures count == |root| <= deg
    ensures Found(root, loc, lam, NN + 1)
    ensures count < deg ==> FoundAll(root, lam, NN + 1)
  {
    root, loc, count := [], [], 0;
    var reg := LoadRegisters(li, deg, lam);
    var i, k := 1, 0;
    while i <= NN
      invariant 1 <= i <= NN + 1 && k == (i - 1) % NN
      invariant fresh(reg) && reg.Length == NROOTS + 1
      invariant forall j :: 1 <= j <= deg ==> RegisterAt(reg[j], lam[j], i - 1, j)
      invariant count == |root| && (count < deg || (count == deg == 0))
      invariant Found(root, loc, lam, i) && FoundAll(root, lam, i)
    {
      var q := Advance(rs, reg, deg, i, lam);
      if q == ZERO {
        if deg == 0 { ConstantHasNoRoot(lam, Exp(i)); }
        FoundOne(root, loc, lam, i);
        root, loc, count := root + [i], loc + [k], count + 1;
        if count == deg {
          break;
        }
      } else {
        FoundNone(root, loc, lam, i);
      }
      i := i + 1;
      k := Modnn(k + 1);
    }
  }

  method LoadRegisters(li: array<int>, deg: nat, ghost lam: seq<GF>) returns (reg: array<int>)
    requires |lam| == NROOTS + 1 && Denotes(li[..], lam) && deg <= NROOTS
    ensures fresh(reg) && reg.Length == NROOTS + 1
    ensures forall j :: 1 <= j <= deg ==> RegisterAt(reg[j], lam[j], 0, j)
  {
    reg := new int[NROOTS + 1](_ => 0);
    forall j | 1 <= j <= NROOTS { reg[j] := li[j]; }
    forall j | 1 <= j <= deg ensures RegisterAt(reg[j], lam[j], 0, j) {
      assert li[..][j] == reg[j];
      MulOne(lam[j]);
      OpenRegister(SEALS, reg[j], lam[j], 0, j);
    }
  }

  lemma ConstantHasNoRoot(lam: seq<GF>, w: GF)
    requires |lam| > 0 && lam[0] == ONE && DegreeAtMost(lam, 0)
    ensures PartEval(lam, w, |lam|) != ZERO
  {
    PartEvalStable(lam, w, 1, |lam|);
    FirstTermIsOne(lam, w);
  }

  // rs_decode.c:163-175
  method ErrorEvaluator(rs: Rs, si: array<int>, li: array<int>, deg: nat, ghost s: seq<GF>, ghost lam: seq<GF>)
    returns (omega: array<int>, degOmega: nat, ghost om: seq<GF>)
    requires rs.Valid() && |s| == NROOTS && |lam| == NROOTS + 1
    requires Denotes(si[..], s) && Denotes(li[..], lam) && deg <= NROOTS && DegreeAtMost(lam, deg)
    ensures fresh(omega) && Denotes(omega[..], om) && Evaluator(om, lam, s)
    ensures degOmega < NROOTS && DegreeAtMost(om, degOmega)
  {
    omega := new int[NROOTS](_ => 0);
    om := seq(NROOTS, i requires 0 <= i < NROOTS => Coef(lam, s, i));
    degOmega := 0;
    var i := 0;
    while i < NROOTS
      invariant 0 <= i <= NROOTS
      invariant degOmega < NROOTS
      invariant forall k :: 0 <= k < i ==> 0 <= omega[k] <= A0 && Denote(omega[k]) == om[k]
      invariant forall k :: degOmega < k < i ==> om[k] == ZERO
    {
      var c := EvaluatorCoef(rs, si, li, deg, i, s, lam);
      if c != ZERO { degOmega := i; }
      omega[i] := rs.IndexOf(c);
      i := i + 1;
    }
  }

  // The terms lo .. n-1 of Conv, added from the top down.
  function ConvRange(p: seq<GF>, s: seq<GF>, i: nat, lo: nat, n: nat): GF
    requires i < |s| && lo <= n <= i + 1 && n <= |p|
    decreases n - lo
  {
    if lo == n then ZERO else Add(ConvRange(p, s, i, lo + 1, n), Mul(p[lo], s[i - lo]))
  }

  lemma {:induction false} ConvRangeIsConv(p: seq<GF>, s: seq<GF>, i: nat, lo: nat, n: nat)
    requires i < |s| && lo <= n <= i + 1 && n <= |p|
    ensures Add(Conv(p, s, i, lo), ConvRange(p, s, i, lo, n)) == Conv(p, s, i, n)
    decreases n - lo
  {
    if lo == n {
      AddZero(Conv(p, s, i, lo));
    } else {
      ConvRangeIsConv(p, s, i, lo + 1, n);
      var a, b, c := Conv(p, s, i, lo), ConvRange(p, s, i, lo + 1, n), Mul(p[lo], s[i - lo]);
      AddComm(b, c);
      AddAssoc(a, c, b);
    }
  }

  lemma {:induction false} ConvStable(p: seq<GF>, s: seq<GF>, i: nat, m: nat, n: nat)
    requires i < |s| && m <= n <= i + 1 && n <= |p|
    requires forall j :: m <= j < n ==> p[j] == ZERO
    ensures Conv(p, s, i, n) == Conv(p, s, i, m)
    decreases n
  {
    if m < n {
      ConvStable(p, s, i, m, n - 1);
      MulZero(s[i - (n - 1)]);
      AddZero(Conv(p, s, i, m));
    }
  }

  method EvaluatorCoef(rs: Rs, si: array<int>, li: array<int>, deg: nat, i: nat, ghost s: seq<GF>, ghost lam: seq<GF>)
    returns (tmp: GF)
    requires rs.Valid() && |s| == NROOTS && |lam| == NROOTS + 1 && i < NROOTS
    requires Denotes(si[..], s) && Denotes(li[..], lam) && deg <= NROOTS && DegreeAtMost(lam, deg)
    ensures tmp == Coef(lam, s, i)
  {
    tmp := ZERO;
    var top := if deg < i then deg else i;
    var j := top;
    while j >= 0
      invariant -1 <= j <= top
      invariant tmp == ConvRange(lam, s, i, j + 1, top + 1)
    {
      assert si[..][i - j] == si[i - j] && li[..][j] == li[j];
      MulComm(s[i - j], lam[j]);
      if li[j] != A0 {
        tmp := rs.AddTerm(tmp, si[i - j], li[j]);
      } else {
        MulZero(s[i - j]);
        AddZero(tmp);
      }
      j := j - 1;
    }
    ConvRangeIsConv(lam, s, i, 0, top + 1);
    AddZero(tmp);
    ConvStable(lam, s, i, top + 1, i + 1);
  }

  // rs_decode.c:182-186
  method EvalOmega(rs: Rs, omega: array<int>, degOmega: nat, root: nat, ghost om: seq<GF>) returns (num1: GF)
    requires rs.Valid() && |om| == NROOTS && Denotes(omega[..], om)
    requires degOmega < NROOTS && DegreeAtMost(om, degOmega)
    ensures num1 == PartEval(om, Exp(root), NROOTS)
  {
    num1 := ZERO;
    var i := degOmega;
    while i >= 0
      invariant -1 <= i <= degOmega
      invariant num1 == Range(om, Exp(root), i + 1, degOmega + 1)
    {
      assert omega[..][i] == omega[i];
      PowMul(GEN, root, i);
      assert i * root == root * i;
      num1 := rs.AddTerm(num1, omega[i], i * root);
      i := i - 1;
    }
    RangeIsPart(om, Exp(root), 0, degOmega + 1);
    AddZero(num1);
    PartEvalStable(om, Exp(root), degOmega + 1, NROOTS);
  }

  // The terms of the derivative from z^i upward, i even.
  function DerivFrom(p: seq<GF>, w: GF, i: nat): GF
    requires |p| > 8
    decreases 8 - i
  {
    if i >= 8 then ZERO else Add(DerivFrom(p, w, i + 2), Mul(p[i + 1], Pow(w, i)))
  }

  lemma DerivFromIsDeriv(p: seq<GF>, w: GF)
    requires |p| > 8
    ensures DerivFrom(p, w, 0) == Deriv(p, w)
  {
    var a, b, c, d := p[1], Mul(p[3], Pow(w, 2)), Mul(p[5], Pow(w, 4)), Mul(p[7], Pow(w, 6));
    MulOne(p[1]);
    assert DerivFrom(p, w, 8) == ZERO;
    AddZero(d);
    assert DerivFrom(p, w, 6) == d;
    assert DerivFrom(p, w, 4) == Add(d, c);
    assert DerivFrom(p, w, 2) == Add(Add(d, c), b);
    assert DerivFrom(p, w, 0) == Add(Add(Add(d, c), b), a);
    // ((d + c) + b) + a == ((a + b) + c) + d
    AddComm(Add(Add(d, c), b), a);
    AddComm(Add(d, c), b);
    AddAssoc(a, b, Add(d, c));
    AddComm(d, c);
    AddAssoc(Add(a, b), c, d);
  }

  lemma {:induction false} DerivFromZero(p: seq<GF>, w: GF, i: nat)
    requires |p| > 8 && DegreeAtMost(p, i)
    ensures DerivFrom(p, w, i) == ZERO
    decreases 8 - i
  {
    if i < 8 {
      DerivFromZero(p, w, i + 2);
      MulZero(Pow(w, i));
      AddZero(ZERO);
    }
  }

  // rs_decode.c:188-194
  method EvalDeriv(rs: Rs, li: array<int>, deg: nat, root: nat, ghost lam: seq<GF>) returns (den: GF)
    requires rs.Valid() && |lam| == NROOTS + 1 && Denotes(li[..], lam)
    requires deg <= NROOTS && DegreeAtMost(lam, deg)
    ensures den == Deriv(lam, Exp(root))
  {
    den := ZERO;
    var m := if deg < NROOTS - 1 then deg else NROOTS - 1;
    var i := m - m % 2;
    DerivFromZero(lam, Exp(root), i + 2);
    while i >= 0
      invariant -2 <= i <= 6 && i % 2 == 0
      invariant den == DerivFrom(lam, Exp(root), i + 2)
    {
      assert li[..][i + 1] == li[i + 1];
      PowMul(GEN, root, i);
      assert i * root == root * i;
      den := rs.AddTerm(den, li[i + 1], i * root);
      i := i - 2;
    }
    DerivFromIsDeriv(lam, Exp(root));
  }

  // num1 * num2 / den in logs, with num2 = root^0: rs_decode.c:187, 199-202
  method ErrorValue(rs: Rs, num1: GF, den: GF, root: nat) returns (e: GF)
    requires rs.Valid() && num1 != ZERO && den != ZERO
    ensures Mul(e, den) == num1
  {
    var n2 := Modnn(root * (1 - 1) + NN);
    var num2 := rs.AlphaTo(n2);
    var a := rs.IndexOf(num1);
    var b := rs.IndexOf(num2);
    var d := rs.IndexOf(den);
    ExpDistinct(b, 0);
    DivLogs(a, d);
    var m := Modnn(a + b + NN - d);
    e := rs.AlphaTo(m);
  }

  // The symbol at exponent i carries the error the evaluator implies.
  ghost predicate Solves(om: seq<GF>, lam: seq<GF>, e: GF, i: nat)
    requires |om| == NROOTS && |lam| == NROOTS + 1
  {
    && Deriv(lam, Exp(i)) != ZERO
    && PartEval(om, Exp(i), NROOTS) == Mul(e, Deriv(lam, Exp(i)))
  }

  // rs_decode.c:181-203, one symbol.
  method Repair(rs: Rs, symbol: GF, root: nat, omega: array<int>, degOmega: nat, li: array<int>, deg: nat,
                ghost om: seq<GF>, ghost lam: seq<GF>, ghost e: GF)
    returns (ok: bool, fixed: GF)
    requires rs.Valid() && |om| == NROOTS && |lam| == NROOTS + 1
    requires Denotes(omega[..], om) && degOmega < NROOTS && DegreeAtMost(om, degOmega)
    requires Denotes(li[..], lam) && deg <= NROOTS && DegreeAtMost(lam, deg)
    ensures Solves(om, lam, e, root) ==> ok && fixed == Add(symbol, e)
  {
    var num1 := EvalOmega(rs, omega, degOmega, root, om);
    var den := EvalDeriv(rs, li, deg, root, lam);
    fixed := symbol;
    if den == ZERO {
      return false, fixed;
    }
    ok := true;
    ghost var good := Solves(om, lam, e, root);
    MulComm(e, den);
    if num1 != ZERO {
      var v := ErrorValue(rs, num1, den, root);
      fixed := Add(symbol, v);
      MulComm(v, den);
      if good { MulCancel(den, v, e); }
    } else {
      MulZero(den);
      AddZero(symbol);
      if good { MulCancel(den, e, ZERO); }
    }
  }

  ghost predicate Solvable(om: seq<GF>, lam: seq<GF>, err: seq<GF>, root: seq<int>) {
    && |om| == NROOTS && |lam| == NROOTS + 1 && |err| == NN
    && forall k :: 0 <= k < |root| ==> 1 <= root[k] <= NN && Solves(om, lam, err[root[k] - 1], root[k])
  }

  // data with the errors added at the places loc[j..]
  ghost predicate Repaired(data: seq<GF>, was: seq<GF>, err: seq<GF>, loc: seq<int>, j: nat) {
    && |data| == |was| == |err| == NN
    && forall k :: j <= k < |loc| && 0 <= loc[k] < NN ==> data[loc[k]] == Add(was[loc[k]], err[loc[k]])
  }

  // data is was outside the places loc[j..]
  ghost predicate Elsewhere(data: seq<GF>, was: seq<GF>, loc: seq<int>, j: nat) {
    && |data| == |was| == NN && j <= |loc|
    && forall p :: 0 <= p < NN && p !in loc[j..] ==> data[p] == was[p]
  }

  lemma RepairOne(data: seq<GF>, was: seq<GF>, root: seq<int>, loc: seq<int>, lam: seq<GF>, j: nat, fixed: GF)
    requires Found(root, loc, lam, NN + 1) && j < |loc| && Elsewhere(data, was, loc, j + 1)
    ensures data[loc[j]] == was[loc[j]]
    ensures Elsewhere(data[loc[j] := fixed], was, loc, j)
  {
    assert loc[j..] == [loc[j]] + loc[j + 1..];
    forall k | j + 1 <= k < |loc| ensures loc[k] != loc[j] { assert root[j] < root[k]; }
    assert loc[j] !in loc[j + 1..];
  }

  lemma RepairMore(data: seq<GF>, was: seq<GF>, err: seq<GF>, root: seq<int>, loc: seq<int>, lam: seq<GF>, j: nat)
    requires Found(root, loc, lam, NN + 1) && j < |loc| && Repaired(data, was, err, loc, j + 1)
    ensures Repaired(data[loc[j] := Add(was[loc[j]], err[loc[j]])], was, err, loc, j)
  {
    forall k | j + 1 <= k < |loc| ensures loc[k] != loc[j] { assert root[j] < root[k]; }
  }

  /** The correction loop.  When the located errors solve the key equation, every
      located symbol gets its error added; no other symbol ever changes. */
  method Apply(rs: Rs, data: array<GF>, root: seq<int>, loc: seq<int>,
               omega: array<int>, degOmega: nat, li: array<int>, deg: nat,
               ghost om: seq<GF>, ghost lam: seq<GF>, ghost err: seq<GF>)
    returns (ok: bool)
    requires rs.Valid() && data.Length == NN && |om| == NROOTS && |lam| == NROOTS + 1 && |err| == NN
    requires Denotes(omega[..], om) && degOmega < NROOTS && DegreeAtMost(om, degOmega)
    requires Denotes(li[..], lam) && deg <= NROOTS && DegreeAtMost(lam, deg)
    requires Found(root, loc, lam, NN + 1)
    modifies data
    ensures Elsewhere(data[..], old(data[..]), loc, 0)
    ensures Solvable(om, lam, err, root) ==> ok && Repaired(data[..], old(data[..]), err, loc, 0)
  {
    ghost var was := data[..];
    ghost var good := Solvable(om, lam, err, root);
    var j := |root| - 1;
    ok := true;
    while j >= 0
      invariant -1 <= j < |root|
      invariant Elsewhere(data[..], was, loc, j + 1)
      invariant good ==> Repaired(data[..], was, err, loc, j + 1)
    {
      ghost var now := data[..];
      var fixed;
      ok, fixed := Repair(rs, data[loc[j]], root[j], omega, degOmega, li, deg, om, lam, err[loc[j]]);
      RepairOne(now, was, root, loc, lam, j, fixed);
      if !ok {
        ElsewhereMore(now, was, loc, j + 1);
        return;
      }
      if good { RepairMore(now, was, err, root, loc, lam, j); }
      data[loc[j]] := fixed;
      assert data[..] == now[loc[j] := fixed];
      j := j - 1;
    }
    ok := true;
  }

  lemma ElsewhereMore(data: seq<GF>, was: seq<GF>, loc: seq<int>, j: nat)
    requires Elsewhere(data, was, loc, j)
    ensures Elsewhere(data, was, loc, 0)
  {
    forall p | 0 <= p < NN && p !in loc[0..] ensures data[p] == was[p] {
      assert forall q :: q in loc[j..] ==> q in loc;
    }
  }
}
