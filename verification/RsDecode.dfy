/** The Reed-Solomon decoder (src/rs_decode.c) with the parameters of
    src/frame.c:788: 255 symbols, 8 roots alpha^1 .. alpha^8, no erasures. */
module RsDecode {
  import opened Field
  import opened RsAlgebra
  import opened RsSteps
  import opened RsShortest
  import opened RsForney
  import opened RsTables

  // ---------- index-form arrays ----------

  ghost predicate Indices(idx: seq<int>) {
    forall i :: 0 <= i < |idx| ==> 0 <= idx[i] <= A0
  }

  ghost predicate Denotes(idx: seq<int>, p: seq<GF>) {
    |idx| == |p| && Indices(idx) && forall i :: 0 <= i < |idx| ==> Denote(idx[i]) == p[i]
  }

  // ---------- syndromes ----------

  // The word as a polynomial at x, highest power first.
  function Horner(d: seq<GF>, x: GF): GF {
    if |d| == 0 then ZERO else Add(d[|d| - 1], Mul(x, Horner(d[..|d| - 1], x)))
  }

  function Syndrome(d: seq<GF>, i: nat): GF { Horner(d, Exp(i + 1)) }

  // rs_decode.c:30-42
  method Syndromes(rs: Rs, data: array<GF>) returns (s: array<GF>)
    requires rs.Valid() && data.Length == NN
    ensures fresh(s) && s.Length == NROOTS
    ensures forall i :: 0 <= i < NROOTS ==> s[i] == Syndrome(data[..], i)
  {
    var first := data[0];
    s := new GF[NROOTS](_ => first);
    forall i | 0 <= i < NROOTS ensures s[i] == Horner(data[..1], Exp(i + 1)) {
      MulZero(Exp(i + 1));
      AddZero(data[0]);
      assert data[..1][..0] == [];
    }
    var j := 1;
    while j < NN
      invariant 1 <= j <= NN
      invariant forall i :: 0 <= i < NROOTS ==> s[i] == Horner(data[..j], Exp(i + 1))
    {
      assert data[..j + 1][..j] == data[..j];
      HornerStep(rs, s, data[j], data[..j + 1]);
      j := j + 1;
    }
    assert data[..NN] == data[..];
  }

  method HornerStep(rs: Rs, s: array<GF>, symbol: GF, ghost d: seq<GF>)
    requires rs.Valid() && s.Length == NROOTS && |d| > 0 && symbol == d[|d| - 1]
    requires forall i :: 0 <= i < NROOTS ==> s[i] == Horner(d[..|d| - 1], Exp(i + 1))
    modifies s
    ensures forall i :: 0 <= i < NROOTS ==> s[i] == Horner(d, Exp(i + 1))
  {
    var i := 0;
    while i < NROOTS
      invariant 0 <= i <= NROOTS
      invariant forall k :: 0 <= k < i ==> s[k] == Horner(d, Exp(k + 1))
      invariant forall k :: i <= k < NROOTS ==> s[k] == Horner(d[..|d| - 1], Exp(k + 1))
    {
      if s[i] == ZERO {
        MulZero(Exp(i + 1));
        AddZero(symbol);
        s[i] := symbol;
      } else {
        MulComm(s[i], Exp(i + 1));
        var a := rs.IndexOf(s[i]);
        var v := rs.Product(a, 1 + i);
        s[i] := Add(symbol, v);
      }
      i := i + 1;
    }
  }

  // rs_decode.c:44-49, 122-128
  method ToIndexForm(rs: Rs, p: array<GF>) returns (idx: array<int>, deg: nat)
    requires rs.Valid() && p.Length > 0
    ensures fresh(idx) && Denotes(idx[..], p[..])
    ensures deg < p.Length && DegreeAtMost(p[..], deg) && (deg > 0 ==> p[deg] != ZERO)
  {
    idx := new int[p.Length](_ => 0);
    deg := 0;
    var i := 0;
    while i < p.Length
      invariant 0 <= i <= p.Length
      invariant forall k :: 0 <= k < i ==> 0 <= idx[k] <= A0 && Denote(idx[k]) == p[k]
      invariant deg < p.Length && (deg > 0 ==> p[deg] != ZERO)
      invariant forall k :: deg < k < i ==> p[k] == ZERO
    {
      idx[i] := rs.IndexOf(p[i]);
      if idx[i] != A0 { deg := i; }
      i := i + 1;
    }
  }

  // ---------- Berlekamp-Massey ----------

  // rs_decode.c:84-90
  method Discrepancy(rs: Rs, lambda: array<GF>, si: array<int>, r: nat, ghost s: seq<GF>) returns (d: GF)
    requires rs.Valid() && lambda.Length == NROOTS + 1 && |s| == NROOTS && Denotes(si[..], s)
    requires 1 <= r <= NROOTS
    ensures d == Coef(lambda[..], s, r - 1)
  {
    d := ZERO;
    var i := 0;
    while i < r
      invariant 0 <= i <= r
      invariant d == Conv(lambda[..], s, r - 1, i)
    {
      var k := r - i - 1;
      assert si[..][k] == si[k];
      if lambda[i] != ZERO && si[k] != A0 {
        var a := rs.IndexOf(lambda[i]);
        d := rs.AddTerm(d, a, si[k]);
      } else {
        MulZero(lambda[i]);
        MulZero(s[k]);
        AddZero(d);
      }
      i := i + 1;
    }
  }

  // rs_decode.c:97-104
  method Correct(rs: Rs, lambda: array<GF>, b: array<int>, discr: int, ghost bp: seq<GF>) returns (t: array<GF>)
    requires rs.Valid() && lambda.Length == NROOTS + 1 && Denotes(b[..], bp) && |bp| == NROOTS + 1
    requires 0 <= discr < A0
    ensures fresh(t) && t[..] == AddScaled(lambda[..], Denote(discr), TimesZ(bp))
  {
    t := new GF[NROOTS + 1](_ => ZERO);
    t[0] := lambda[0];
    ghost var d := Denote(discr);
    ghost var want := AddScaled(lambda[..], d, TimesZ(bp));
    MulZero(d);
    AddZero(lambda[0]);
    var i := 0;
    while i < NROOTS
      invariant 0 <= i <= NROOTS
      invariant forall k :: 0 <= k <= i ==> t[k] == want[k]
    {
      assert b[..][i] == b[i];
      DenoteZero(b[i]);
      AddZero(lambda[i + 1]);
      if b[i] != A0 {
        var v := rs.Product(discr, b[i]);
        t[i + 1] := Add(lambda[i + 1], v);
      } else {
        t[i + 1] := lambda[i + 1];
      }
      i := i + 1;
    }
  }

  // B(x) <-- x * B(x), by moving the array up one place: rs_decode.c:93-95, 114-116
  method MoveUp(b: array<int>, ghost bp: seq<GF>)
    requires Denotes(b[..], bp) && b.Length == NROOTS + 1
    modifies b
    ensures Denotes(b[..], TimesZ(bp))
  {
    ghost var was := b[..];
    var i := NROOTS;
    while i > 0
      invariant 0 <= i <= NROOTS
      invariant forall k :: i < k <= NROOTS ==> b[k] == was[k - 1]
      invariant forall k :: 0 <= k <= i ==> b[k] == was[k]
    {
      b[i] := b[i - 1];
      i := i - 1;
    }
    b[0] := A0;
  }

  // B(x) <-- lambda(x) / discr: rs_decode.c:111-112
  method Rescale(rs: Rs, b: array<int>, lambda: array<GF>, discr: int, ghost dinv: GF)
    requires rs.Valid() && lambda.Length == NROOTS + 1 == b.Length
    requires 0 <= discr < A0 && Mul(Denote(discr), dinv) == ONE
    modifies b
    ensures Denotes(b[..], Scale(dinv, lambda[..]))
  {
    var i := 0;
    while i <= NROOTS
      invariant 0 <= i <= NROOTS + 1
      invariant forall k :: 0 <= k < i ==> 0 <= b[k] <= A0 && Denote(b[k]) == Mul(dinv, lambda[k])
    {
      MulZero(dinv);
      if lambda[i] == ZERO {
        b[i] := A0;
      } else {
        var a := rs.IndexOf(lambda[i]);
        DivLogs(a, discr);
        var m := Modnn(a - discr + NN);
        b[i] := m;
        QuotientIsProduct(Denote(m), Denote(discr), dinv, lambda[i]);
      }
      i := i + 1;
    }
  }

  lemma QuotientIsProduct(q: GF, d: GF, dinv: GF, a: GF)
    requires Mul(q, d) == a && Mul(d, dinv) == ONE
    ensures q == Mul(dinv, a)
  {
    MulComm(q, d); MulComm(d, dinv); MulAssoc(dinv, d, q); MulComm(ONE, q); MulOne(q);
  }

  // rs_decode.c:58-59, 74-120
  method BerlekampMassey(rs: Rs, si: array<int>, ghost s: seq<GF>)
    returns (lambda: array<GF>, ghost el: nat, ghost bp: seq<GF>)
    requires rs.Valid() && |s| == NROOTS && Denotes(si[..], s)
    ensures fresh(lambda) && lambda.Length == NROOTS + 1
    ensures Generates(s, lambda[..], bp, el, NROOTS)
    ensures Shortest(s, el, NROOTS) && NoLonger(s, el)
  {
    lambda := new GF[NROOTS + 1](i => if i == 0 then ONE else ZERO);
    var b := new int[NROOTS + 1](i => if i == 0 then 0 else A0);
    bp := lambda[..];
    var len := 0;
    var r := 1;
    while r <= NROOTS
      invariant 1 <= r <= NROOTS + 1
      invariant fresh(lambda) && fresh(b) && lambda.Length == NROOTS + 1
      invariant Denotes(b[..], bp)
      invariant Denotes(si[..], s)
      invariant 0 <= len
      invariant Generates(s, lambda[..], bp, len, r - 1)
      invariant Shortest(s, len, r - 1) && NoLonger(s, len)
    {
      lambda, len, bp := Step(rs, si, lambda, b, len, r, s, bp);
      r := r + 1;
    }
    el := len;
  }

  // rs_decode.c:84-119: one turn of the loop.
  method Step(rs: Rs, si: array<int>, lambda: array<GF>, b: array<int>, len: nat, r: nat,
              ghost s: seq<GF>, ghost bp: seq<GF>)
    returns (lambda': array<GF>, len': nat, ghost bp': seq<GF>)
    requires rs.Valid() && |s| == NROOTS && Denotes(si[..], s) && si != b
    requires 1 <= r <= NROOTS && lambda.Length == NROOTS + 1 && Denotes(b[..], bp)
    requires Generates(s, lambda[..], bp, len, r - 1) && Shortest(s, len, r - 1) && NoLonger(s, len)
    modifies b
    ensures lambda' == lambda || fresh(lambda')
    ensures lambda'.Length == NROOTS + 1 && Denotes(b[..], bp')
    ensures Generates(s, lambda'[..], bp', len', r) && Shortest(s, len', r) && NoLonger(s, len')
  {
    lambda', len' := lambda, len;
    StaysShortest(s, len, r - 1);
    ghost var lam := lambda[..];
    var discr := Discrepancy(rs, lambda, si, r, s);
    var di := rs.IndexOf(discr);
    if di == A0 {
      StepZero(s, lam, bp, len, r - 1);
      MoveUp(b, bp);
      bp' := TimesZ(bp);
    } else {
      lambda' := Correct(rs, lambda, b, di, bp);
      ghost var t := AddScaled(lam, discr, TimesZ(bp));
      if 2 * len <= r - 1 {
        ghost var dinv := Inv(discr);
        Rescale(rs, b, lambda, di, dinv);
        len', bp' := r - len, Scale(dinv, lam);
        assert Generates(s, t, bp', len', r) by { StepGrow(s, lam, bp, len, r - 1, discr, dinv); }
        GrowIsShortest(s, lam, bp, len, r - 1);
        GrowIsNoLonger(s, lam, bp, len, r - 1);
      } else {
        MoveUp(b, bp);
        bp' := TimesZ(bp);
        assert Generates(s, t, bp', len', r) by { StepKeep(s, lam, bp, len, r - 1, discr); }
      }
      assert lambda'[..] == t;
    }
  }
}
