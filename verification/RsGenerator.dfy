/** The generator polynomial of the code (src/rs_init.c:83-116), and why the decoder
    evaluates where it does. */
module RsGenerator {
  import opened Field
  import opened RsAlgebra
  import opened RsSteps
  import opened RsTables
  import opened RsDecode
  import opened RsWords

  // ---------- multiplying by a linear factor ----------

  // carry + (x + r) * p, coefficient by coefficient.
  function TimesFrom(carry: GF, p: seq<GF>, r: GF): (t: seq<GF>)
    ensures |t| == |p| + 1
    decreases |p|
  {
    if |p| == 0 then [carry] else [Add(carry, Mul(p[0], r))] + TimesFrom(p[0], p[1..], r)
  }

  function Times(p: seq<GF>, r: GF): seq<GF> { TimesFrom(ZERO, p, r) }

  lemma {:induction false} TimesFromAt(carry: GF, p: seq<GF>, r: GF, j: nat)
    requires j <= |p|
    ensures var before := if j == 0 then carry else p[j - 1];
      TimesFrom(carry, p, r)[j] == if j < |p| then Add(before, Mul(p[j], r)) else before
    decreases |p|
  {
    if j > 0 { TimesFromAt(p[0], p[1..], r, j - 1); }
  }

  lemma {:induction false} TimesFromEval(carry: GF, p: seq<GF>, r: GF, x: GF)
    ensures Eval(TimesFrom(carry, p, r), x) == Add(carry, Mul(Add(x, r), Eval(p, x)))
    decreases |p|
  {
    var e := Eval(p, x);
    if |p| == 0 {
      MulZero(x);
      MulZero(Add(x, r));
      assert [carry][1..] == [];
    } else {
      var a, q := p[0], Eval(p[1..], x);
      var t := TimesFrom(a, p[1..], r);
      TimesFromEval(a, p[1..], r, x);
      assert TimesFrom(carry, p, r)[1..] == t;
      Horners(carry, a, q, r, x);
    }
  }

  // (carry + a r) + x (a + (x + r) q) = carry + (x + r) (a + x q)
  lemma Horners(carry: GF, a: GF, q: GF, r: GF, x: GF)
    ensures Add(Add(carry, Mul(a, r)), Mul(x, Add(a, Mul(Add(x, r), q)))) ==
            Add(carry, Mul(Add(x, r), Add(a, Mul(x, q))))
  {
    var s := Add(x, r);
    MulAddRight(x, a, Mul(s, q));
    MulAddRight(s, a, Mul(x, q));
    MulAssoc(x, s, q); MulComm(x, s); MulAssoc(s, x, q);
    MulAddLeft(x, r, a); MulComm(a, r); AddComm(Mul(x, a), Mul(r, a));
    AddAssoc(carry, Mul(a, r), Add(Mul(x, a), Mul(x, Mul(s, q))));
    AddAssoc(Mul(r, a), Mul(x, a), Mul(x, Mul(s, q)));
  }

  /** A factor x + r adds the root r and no other. */
  lemma RootsOfTimes(p: seq<GF>, r: GF, x: GF)
    ensures Eval(Times(p, r), x) == ZERO <==> x == r || Eval(p, x) == ZERO
  {
    TimesFromEval(ZERO, p, r, x);
    AddZero(Mul(Add(x, r), Eval(p, x)));
    AddCancel(x, r);
    MulZero(Add(x, r));
    MulZero(Eval(p, x));
    MulComm(Add(x, r), Eval(p, x));
    if Add(x, r) != ZERO && Eval(p, x) != ZERO { MulNonzero(Add(x, r), Eval(p, x)); }
  }

  // ---------- the generator ----------

  // The product of x + alpha^1 to x + alpha^n.
  function Generator(n: nat): (g: seq<GF>)
    ensures |g| == n + 1
  {
    if n == 0 then [ONE] else Times(Generator(n - 1), Exp(n))
  }

  lemma {:induction false} GeneratorEnds(n: nat)
    ensures Generator(n)[n] == ONE && Generator(n)[0] != ZERO
  {
    if n > 0 {
      var g := Generator(n - 1);
      GeneratorEnds(n - 1);
      TimesFromAt(ZERO, g, Exp(n), n);
      TimesFromAt(ZERO, g, Exp(n), 0);
      AddZero(Mul(g[0], Exp(n)));
      ExpNonzero(n);
      MulNonzero(g[0], Exp(n));
    }
  }

  /** Its roots are alpha^1 to alpha^n and no others. */
  lemma {:induction false} GeneratorRoots(n: nat, x: GF)
    ensures Eval(Generator(n), x) == ZERO <==> exists k: nat :: 1 <= k <= n && Exp(k) == x
  {
    if n == 0 {
      MulZero(x);
      AddZero(ONE);
      assert [ONE][1..] == [];
    } else {
      GeneratorRoots(n - 1, x);
      RootsOfTimes(Generator(n - 1), Exp(n), x);
    }
  }

  /** A word is a codeword exactly when it vanishes wherever the generator does: the
      syndromes test the roots of the generator, all of them and nothing else. */
  lemma CodewordsVanishAtRoots(d: Word)
    ensures IsCodeword(d) <==> forall x :: Eval(Generator(NROOTS), x) == ZERO ==> Horner(d, x) == ZERO
  {
    if IsCodeword(d) {
      forall x | Eval(Generator(NROOTS), x) == ZERO ensures Horner(d, x) == ZERO {
        GeneratorRoots(NROOTS, x);
        var k: nat :| 1 <= k <= NROOTS && Exp(k) == x;
        assert Syndrome(d, k - 1) == ZERO;
      }
    } else {
      var i :| 0 <= i < NROOTS && Syndrome(d, i) != ZERO;
      GeneratorRoots(NROOTS, Exp(i + 1));
    }
  }

  // ---------- the loops ----------

  /** The inner loop: the polynomial is multiplied by x + alpha^root in place. */
  method MultiplyIn(rs: Rs, gen: array<GF>, i: nat, root: nat, ghost p: seq<GF>)
    requires rs.Valid() && i + 1 < gen.Length && |p| == i + 1 && gen[..i + 1] == p
    requires p[0] != ZERO && p[i] == ONE
    modifies gen
    ensures gen[..i + 2] == Times(p, Exp(root))
  {
    ghost var t := Times(p, Exp(root));
    forall k: nat | k <= i + 1 ensures k == 0 ==> t[k] == Add(ZERO, Mul(p[0], Exp(root)))
      ensures 0 < k <= i ==> t[k] == Add(p[k - 1], Mul(p[k], Exp(root)))
      ensures k == i + 1 ==> t[k] == ONE
    {
      TimesFromAt(ZERO, p, Exp(root), k);
    }
    assert forall k :: 0 <= k <= i ==> gen[k] == gen[..i + 1][k];
    gen[i + 1] := ONE;
    var j := i;
    while j > 0
      invariant 0 <= j <= i
      invariant forall k :: 0 <= k <= j ==> gen[k] == p[k]
      invariant forall k :: j < k <= i + 1 ==> gen[k] == t[k]
    {
      gen[j] := Coefficient(rs, gen[j - 1], gen[j], root);
      j := j - 1;
    }
    var k := rs.IndexOf(gen[0]);
    gen[0] := rs.Product(k, root);
    AddZero(Mul(p[0], Exp(root)));
  }

  method Coefficient(rs: Rs, before: GF, c: GF, root: nat) returns (r: GF)
    requires rs.Valid()
    ensures r == Add(before, Mul(c, Exp(root)))
  {
    if c != ZERO {
      var k := rs.IndexOf(c);
      var v := rs.Product(k, root);
      r := Add(before, v);
    } else {
      r := before;
      MulComm(ZERO, Exp(root));
      MulZero(Exp(root));
      AddZero(before);
    }
  }

  /** The generator polynomial in index form. */
  method FormGenerator(rs: Rs) returns (genpoly: array<int>)
    requires rs.Valid()
    ensures fresh(genpoly) && Denotes(genpoly[..], Generator(NROOTS))
  {
    var gen := new GF[NROOTS + 1](_ => ZERO);
    gen[0] := ONE;
    var i, root := 0, 1;
    while i < NROOTS
      invariant 0 <= i <= NROOTS && root == i + 1
      invariant fresh(gen) && gen[..i + 1] == Generator(i)
    {
      GeneratorEnds(i);
      MultiplyIn(rs, gen, i, root, Generator(i));
      i, root := i + 1, root + 1;
    }
    assert gen[..] == gen[..NROOTS + 1];
    var deg;
    genpoly, deg := ToIndexForm(rs, gen);
  }
}
