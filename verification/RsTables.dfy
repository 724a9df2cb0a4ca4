/** The log tables of the codec (src/rs_init.c:63-84) and modnn (src/rs_char.h). */
module RsTables {
  import opened Basics
  import opened Gf256
  import opened Field

  const NN := 255
  const A0 := NN  // "log of zero"

  // What an index-form byte stands for.
  ghost function Denote(k: int): GF
    requires 0 <= k <= A0
  {
    if k == A0 then ZERO else Exp(k)
  }

  // Fast reduction modulo 255: fold the high byte onto the low one.
  method Modnn(x: nat) returns (r: nat)
    ensures r == x % NN
  {
    r := x;
    while r >= NN
      invariant r % NN == x % NN
    {
      ghost var before := r;
      r := r - NN;
      var high, low := r / 256, r % 256;
      assert r == 256 * high + low;
      r := high + low;
      assert before == r + NN * (high + 1);
      SameResidue(before, r, high + 1);
    }
  }

  lemma SameResidue(a: nat, b: nat, k: nat)
    requires a == b + NN * k
    ensures a % NN == b % NN
  {
    assert a == NN * (b / NN + k) + b % NN;
  }

  // Adding logs multiplies.
  lemma MulLogs(i: nat, j: nat)
    ensures Exp((i + j) % NN) == Mul(Exp(i), Exp(j))
  {
    ExpMod(i + j);
    PowAdd(GEN, i, j);
  }

  // Subtracting logs divides.
  lemma DivLogs(i: nat, j: nat)
    requires j < NN
    ensures Mul(Exp((i + NN - j) % NN), Exp(j)) == Exp(i)
  {
    var q := i + NN - j;
    ExpMod(q);
    PowAdd(GEN, q, j);
    PowAdd(GEN, i, NN);
    ExpPeriod();
    MulOne(Exp(i));
    assert q + j == i + NN;
  }

  lemma DenoteMul(i: int, k: nat)
    requires 0 <= i < NN
    ensures Denote((i + k) % NN) == Mul(Denote(i), Exp(k))
  {
    MulLogs(i, k);
  }

  lemma DenoteZero(k: int)
    requires 0 <= k <= A0
    ensures Denote(k) == ZERO <==> k == A0
  {
    if k < A0 { ExpNonzero(k); }
  }

  /** The control block: it is filled once and only read afterwards. */
  datatype Rs = Rs(alphaTo: seq<GF>, indexOf: seq<int>) {

    ghost predicate Valid() { Sealed(SEALS) }

    ghost predicate Sealed(seals: seq<bool>) {
      if |seals| > 0 then Sealed(seals[1..]) else Filled()
    }

    lemma {:induction false} Open(seals: seq<bool>)
      ensures Sealed(seals) == Filled()
    {
      if |seals| > 0 { Open(seals[1..]); }
    }

    ghost predicate Filled() {
      && |alphaTo| == 256 && |indexOf| == 256
      && (forall k :: 0 <= k <= A0 ==> alphaTo[k] == Denote(k))
      && (forall b: bv8 :: var k := indexOf[b as int]; 0 <= k <= A0 && Denote(k) == GF(b))
    }

    method AlphaTo(k: int) returns (a: GF)
      requires Valid() && 0 <= k <= A0
      ensures a == Denote(k)
    {
      Open(SEALS);
      a := alphaTo[k];
    }

    method IndexOf(a: GF) returns (k: int)
      requires Valid()
      ensures 0 <= k <= A0 && Denote(k) == a
      ensures k == A0 <==> a == ZERO
    {
      Open(SEALS);
      k := indexOf[a.bits as int];
      DenoteZero(k);
    }

    // ALPHA_TO[MODNN(i + k)]: i is the log of a nonzero symbol.
    method Product(i: int, k: nat) returns (a: GF)
      requires Valid() && 0 <= i < A0
      ensures a == Mul(Denote(i), Exp(k))
    {
      DenoteMul(i, k);
      var m := Modnn(i + k);
      a := AlphaTo(m);
    }

    // if (k != A0) acc ^= ALPHA_TO[MODNN(k + e)]
    method AddTerm(acc: GF, k: int, e: nat) returns (r: GF)
      requires Valid() && 0 <= k <= A0
      ensures r == Add(acc, Mul(Denote(k), Exp(e)))
    {
      r := acc;
      if k != A0 {
        var v := Product(k, e);
        r := Add(acc, v);
      } else {
        MulZero(Exp(e));
        AddZero(acc);
      }
    }
  }

  // The table loop branches on the bit shifted out of the byte.
  lemma TopBit(sr: bv8)
    ensures sr >> 7 == if sr & 0x80 != 0 then 1 else 0
  {}

  lemma CarryStep(g: bv8, sr: bv8, carry: bv8)
    requires carry == sr >> 7 && (carry == 0 || carry == 1)
    ensures TimesX(g, sr) == if carry == 1 then (sr << 1) ^ g else sr << 1
  {
    if carry == 1 {} else {}
  }

  method ShiftRegister(g: bv8, sr: bv8, ghost i: nat) returns (next: bv8)
    requires sr == Orbit(g, 1, i)
    ensures next == Orbit(g, 1, i + 1)
  {
    TopBit(sr);
    CarryStep(g, sr, sr >> 7);
    next := sr << 1;
    if sr & 0x80 != 0 {
      next := next ^ g;
    }
  }

  // alphaTo holds the first n powers of x, and zero at A0.
  ghost predicate Powers(g: bv8, alphaTo: seq<GF>, n: nat) {
    |alphaTo| == 256 && alphaTo[A0] == ZERO && forall k: nat :: k < n && k < NN ==> alphaTo[k] == GF(Orbit(g, 1, k))
  }

  // indexOf undoes the first n powers of x.
  ghost predicate Inverts(g: bv8, indexOf: seq<int>, n: nat) {
    |indexOf| == 256 && forall k: nat :: k < n ==> indexOf[Orbit(g, 1, k) as int] == k
  }

  lemma InvertsIsPrimitive(g: bv8, indexOf: seq<int>)
    requires Inverts(g, indexOf, NN)
    ensures Primitive(g)
  {
    forall i: nat, j: nat | i < j < NN ensures Orbit(g, 1, i) != Orbit(g, 1, j) {
      assert indexOf[Orbit(g, 1, i) as int] == i;
    }
  }

  lemma BytesApart(a: bv8, b: bv8)
    requires a != b
    ensures a as int != b as int
  {}

  lemma InvertsExtend(g: bv8, before: seq<int>, n: nat, v: int)
    requires Accepted(g) && Primitive(g) && n < NN && Inverts(g, before, n) && v == Orbit(g, 1, n) as int
    requires before[0] == A0
    ensures Inverts(g, before[v := n], n + 1) && before[v := n][0] == A0
  {
    forall k: nat | k < n ensures Orbit(g, 1, k) as int != v { BytesApart(Orbit(g, 1, k), Orbit(g, 1, n)); }
    OrbitNonzero(g, n);
    BytesApart(0, Orbit(g, 1, n));
  }

  /** The table loop, for the low byte g of the field polynomial.  An accepted
      polynomial fills alphaTo with the powers of x; the tables invert each other
      exactly when no short exponent returns to 1, which the test after the loop
      alone does not establish. */
  method InitTables(g: bv8) returns (accepted: bool, alphaTo: array<GF>, indexOf: array<int>)
    ensures accepted == Accepted(g)
    ensures fresh(alphaTo) && fresh(indexOf)
    ensures Powers(g, alphaTo[..], NN)
    ensures accepted ==> (Inverts(g, indexOf[..], NN) <==> NoShortPeriod(g))
    ensures accepted && NoShortPeriod(g) ==> indexOf[0] == A0
  {
    alphaTo := new GF[256](_ => ZERO);
    indexOf := new int[256](_ => 0);
    indexOf[0] := A0;
    alphaTo[A0] := ZERO;
    var sr: bv8 := 1;
    var i := 0;
    while i < NN
      invariant 0 <= i <= NN
      invariant sr == Orbit(g, 1, i)
      invariant Powers(g, alphaTo[..], i)
      invariant indexOf.Length == 256
      invariant Accepted(g) && Primitive(g) ==> Inverts(g, indexOf[..], i) && indexOf[0] == A0
    {
      if Accepted(g) && Primitive(g) { InvertsExtend(g, indexOf[..], i, sr as int); }
      ghost var before := indexOf[..];
      indexOf[sr as int] := i;
      assert indexOf[..] == before[sr as int := i];
      alphaTo[i] := GF(sr);
      sr := ShiftRegister(g, sr, i);
      i := i + 1;
    }
    accepted := sr == 1;
    if accepted {
      AcceptedIsPrimitiveIff(g);
      if Inverts(g, indexOf[..], NN) { InvertsIsPrimitive(g, indexOf[..]); }
    }
  }

  lemma IndexOfIsValid(indexOf: seq<int>, b: bv8)
    requires Inverts(POLY, indexOf, NN) && indexOf[0] == A0
    ensures var k := indexOf[b as int]; 0 <= k <= A0 && Denote(k) == GF(b)
  {
    if b != 0 {
      PolyIsPrimitive(POLY);
      var i := EveryByteIsAPower(POLY, b);
      ExpIsOrbit(i);
    }
  }

  lemma AlphaToIsValid(alphaTo: seq<GF>)
    requires |alphaTo| == 256 && Powers(POLY, alphaTo, NN)
    ensures forall k :: 0 <= k <= A0 ==> alphaTo[k] == Denote(k)
  {
    forall k | 0 <= k <= A0 ensures alphaTo[k] == Denote(k) {
      if k < A0 { ExpIsOrbit(k); }
    }
  }

  // The codec of the frame header: polynomial 0x11d.
  method InitRs() returns (rs: Rs)
    ensures rs.Valid()
  {
    PolyIsPrimitive(POLY);
    AcceptedIsPrimitiveIff(POLY);
    var accepted, alphaTo, indexOf := InitTables(POLY);
    rs := Rs(alphaTo[..], indexOf[..]);
    AlphaToIsValid(rs.alphaTo);
    forall b: bv8 ensures var k := rs.indexOf[b as int]; 0 <= k <= A0 && Denote(k) == GF(b) {
      IndexOfIsValid(rs.indexOf, b);
    }
    rs.Open(SEALS);
  }
}
