/** The feed-forward inverses of the punctured codes, and the round trip. */
module RoundTrip {
  import opened Arith
  import opened Trellis
  import opened Metrics
  import opened MetricRefinement
  import opened Viterbi
  import opened ViterbiDecoder
  import opened TailBiting

  // The puncturing patterns in use (src/decode.c:183-229, 261-277, 319, 339, 370).
  datatype Pattern = Fm | P3 | E1 | E2 | AmPids

  // The code each pattern is used with (src/conv_dec.c:455-479).
  function CodeOf(p: Pattern): Code {
    match p
    case Fm => Code(7, [91, 121, 117])        // 0133 0171 0165
    case P3 => Code(7, [91, 121, 117])
    case E1 => Code(9, [369, 431, 457])       // 0561 0657 0711
    case E2 => Code(9, [369, 491, 457])       // 0561 0753 0711
    case AmPids => Code(9, [369, 491, 457])
  }

  lemma CodesValid(p: Pattern)
    ensures CodeOf(p).Valid()
  {
    Powers();
    assert Pow2(7) == 128;
  }

  // Is output m of step j transmitted?
  function Sent(p: Pattern, j: nat, m: nat): bool {
    match p
    case Fm => !(j % 2 == 1 && m == 2)
    case P3 => m != 1
    case E1 => !(m == 1 && j % 5 < 3)
    case E2 => m == 0 || (m == 2 && j % 2 == 0)
    case AmPids => true
  }

  // Patterns of period two need frames of even length to join up.
  predicate FitsFrame(p: Pattern, len: nat) { (p == Fm || p == E2) ==> len % 2 == 0 }

  // Every transmitted output was received.
  ghost predicate Heard(p: Pattern, input: seq<int>, len: nat) {
    |input| == 3 * len && forall j: nat, m: nat :: j < len && m < 3 && Sent(p, j, m) ==> At(input, j, m) != 0
  }

  function At(input: seq<int>, j: nat, m: nat): int
    requires 3 * j + m < |input|
  {
    input[3 * j + m]
  }

  // ---------- two paths that fit the same values ----------

  // p and q fit the wrapped frame at every step.
  ghost predicate BothFit(c: Code, input: seq<int>, len: nat, n: nat, p: seq<nat>, q: seq<nat>) {
    && c.Valid() && EXTRA <= len && |input| == 3 * len
    && IsPath(c, p) && IsPath(c, q) && |p| == |q| == n + 1
    && (forall i :: 0 <= i < n ==> Fits(c, p, Wrapped(input, len, n)[i], i))
    && (forall i :: 0 <= i < n ==> Fits(c, q, Wrapped(input, len, n)[i], i))
  }

  // Where a value was received, the outputs of both paths agree with it.
  lemma SameOutput(c: Code, input: seq<int>, len: nat, n: nat, p: seq<nat>, q: seq<nat>, i: nat, m: nat)
    requires BothFit(c, input, len, n, p, q) && i + c.k <= n + 1 && m < 3
    requires At(input, Visit(len, i), m) != 0
    ensures Taps(Lows(p), i, c.g[m]) == Taps(Lows(q), i, c.g[m])
  {
    WrappedAt(input, len, n, i);
    OutputIsTaps(c, p, i, m);
    OutputIsTaps(c, q, i, m);
    var y := Wrapped(input, len, n)[i];
    assert y[m] == At(input, Visit(len, i), m);
    assert Fits(c, p, y, i) && Fits(c, q, y, i);
    assert Signed(c, y[m], 2 * p[i + 1] + p[i] % 2, m) >= 0;
    assert Signed(c, y[m], 2 * q[i + 1] + q[i] % 2, m) >= 0;
  }

  // The same, for the codes and patterns in use.
  ghost predicate Rivals(t: Pattern, input: seq<int>, len: nat, n: nat, p: seq<nat>, q: seq<nat>) {
    BothFit(CodeOf(t), input, len, n, p, q) && Heard(t, input, len) && FitsFrame(t, len)
  }

  // x and y agree on every transmitted output that lies inside them.
  ghost predicate Matches(t: Pattern, len: nat, x: seq<nat>, y: seq<nat>) {
    && EXTRA <= len && FitsFrame(t, len) && BitSeq(x) && BitSeq(y) && |x| == |y|
    && forall i: nat, m: nat :: i + CodeOf(t).k <= |x| && m < 3 && Sent(t, Visit(len, i), m) ==> SameTaps(t, x, y, i, m)
  }

  ghost predicate SameTaps(t: Pattern, x: seq<nat>, y: seq<nat>, i: nat, m: nat)
    requires m < 3
  {
    Taps(x, i, CodeOf(t).g[m]) == Taps(y, i, CodeOf(t).g[m])
  }

  ghost predicate BitSeq(x: seq<nat>) { forall i :: 0 <= i < |x| ==> x[i] < 2 }

  lemma RivalsMatch(t: Pattern, input: seq<int>, len: nat, n: nat, p: seq<nat>, q: seq<nat>)
    requires Rivals(t, input, len, n, p, q)
    ensures Matches(t, len, Lows(p), Lows(q))
  {
    forall i: nat, m: nat | i + CodeOf(t).k <= n + 1 && m < 3 && Sent(t, Visit(len, i), m)
      ensures SameTaps(t, Lows(p), Lows(q), i, m)
    {
      SameOutput(CodeOf(t), input, len, n, p, q, i, m);
    }
  }

  lemma {:induction false} VisitParity(len: nat, i: nat)
    requires EXTRA <= len && len % 2 == 0
    ensures Visit(len, i) % 2 == i % 2
  {
    if i > 0 { VisitParity(len, i - 1); }
  }

  // ---------- feed-forward inverses ----------

  // Outputs 2 1 | 0 1 | 1 2 of three consecutive steps give the first bit.
  lemma InverseFm0(x: seq<nat>, i: nat)
    requires BitSeq(x) && i + 9 <= |x|
    ensures (x[i] == 1) == (((Taps(x, i, 117) != Taps(x, i + 1, 91)) != (Taps(x, i + 1, 121) != Taps(x, i + 2, 121))) != Taps(x, i + 2, 117))
  {
  }

  // Outputs 1 2 | 0 | 0 2 give the second.
  lemma InverseFm1(x: seq<nat>, i: nat)
    requires BitSeq(x) && i + 9 <= |x|
    ensures (x[i + 1] == 1) == (((Taps(x, i, 121) != Taps(x, i, 117)) != (Taps(x, i + 1, 91) != Taps(x, i + 2, 91))) != Taps(x, i + 2, 117))
  {
  }

  lemma InverseP3(x: seq<nat>, i: nat)
    requires BitSeq(x) && i + 9 <= |x|
    ensures (x[i + 5] == 1) == (((Taps(x, i, 91) != Taps(x, i, 117)) != (Taps(x, i + 1, 91) != Taps(x, i + 2, 91))) != Taps(x, i + 2, 117))
  {
  }

  lemma InverseE(x: seq<nat>, i: nat)
    requires BitSeq(x) && i + 10 <= |x|
    ensures (x[i] == 1) == ((Taps(x, i, 369) != Taps(x, i + 1, 369)) != Taps(x, i + 1, 457))
  {
  }

  // The first output alone, when the bits two apart are known.
  lemma InverseE2(x: seq<nat>, i: nat)
    requires BitSeq(x) && i + 9 <= |x|
    ensures (x[i + 5] == 1) == (Taps(x, i, 369) != (((x[i] == 1) != (x[i + 4] == 1)) != ((x[i + 6] == 1) != (x[i + 8] == 1))))
  {
  }

  lemma SameFm0(len: nat, x: seq<nat>, y: seq<nat>, i: nat)
    requires Matches(Fm, len, x, y) && i % 2 == 0 && i + 9 <= |x|
    ensures x[i] == y[i]
  {
    VisitParity(len, i); VisitParity(len, i + 2);
    InverseFm0(x, i); InverseFm0(y, i);
    assert SameTaps(Fm, x, y, i, 2) && SameTaps(Fm, x, y, i + 1, 0) && SameTaps(Fm, x, y, i + 1, 1);
    assert SameTaps(Fm, x, y, i + 2, 1) && SameTaps(Fm, x, y, i + 2, 2);
  }

  lemma SameFm1(len: nat, x: seq<nat>, y: seq<nat>, i: nat)
    requires Matches(Fm, len, x, y) && i % 2 == 0 && i + 9 <= |x|
    ensures x[i + 1] == y[i + 1]
  {
    VisitParity(len, i); VisitParity(len, i + 2);
    InverseFm1(x, i); InverseFm1(y, i);
    assert SameTaps(Fm, x, y, i, 1) && SameTaps(Fm, x, y, i, 2) && SameTaps(Fm, x, y, i + 1, 0);
    assert SameTaps(Fm, x, y, i + 2, 0) && SameTaps(Fm, x, y, i + 2, 2);
  }

  lemma SameP3(len: nat, x: seq<nat>, y: seq<nat>, i: nat)
    requires Matches(P3, len, x, y) && i + 9 <= |x|
    ensures x[i + 5] == y[i + 5]
  {
    InverseP3(x, i); InverseP3(y, i);
    assert SameTaps(P3, x, y, i, 0) && SameTaps(P3, x, y, i, 2) && SameTaps(P3, x, y, i + 1, 0);
    assert SameTaps(P3, x, y, i + 2, 0) && SameTaps(P3, x, y, i + 2, 2);
  }

  // With the first output of two steps and the third output of the later one.
  lemma SameE(t: Pattern, len: nat, x: seq<nat>, y: seq<nat>, i: nat)
    requires Matches(t, len, x, y) && i + 10 <= |x|
    requires t == E1 || t == AmPids || (t == E2 && i % 2 == 1)
    ensures x[i] == y[i]
  {
    if t == E2 { VisitParity(len, i + 1); }
    InverseE(x, i); InverseE(y, i);
    assert SameTaps(t, x, y, i, 0) && SameTaps(t, x, y, i + 1, 0) && SameTaps(t, x, y, i + 1, 2);
  }

  lemma SameE2(len: nat, x: seq<nat>, y: seq<nat>, i: nat)
    requires Matches(E2, len, x, y) && i % 2 == 1 && i + 18 <= |x|
    ensures x[i + 5] == y[i + 5]
  {
    SameE(E2, len, x, y, i); SameE(E2, len, x, y, i + 4); SameE(E2, len, x, y, i + 6); SameE(E2, len, x, y, i + 8);
    assert SameTaps(E2, x, y, i, 0);
    InverseE2(x, i); InverseE2(y, i);
  }

  // Away from the ends, the transmitted values determine every bit.
  lemma SameLows(t: Pattern, len: nat, x: seq<nat>, y: seq<nat>, i: nat)
    requires Matches(t, len, x, y) && 5 <= i && i + 13 <= |x|
    ensures x[i] == y[i]
  {
    match t
    case Fm => if i % 2 == 0 { SameFm0(len, x, y, i); } else { SameFm1(len, x, y, i - 1); }
    case P3 => SameP3(len, x, y, i - 5);
    case E1 => SameE(E1, len, x, y, i);
    case E2 => if i % 2 == 1 { SameE(E2, len, x, y, i); } else { SameE2(len, x, y, i - 5); }
    case AmPids => SameE(AmPids, len, x, y, i);
  }

  lemma TopBit7(v: nat)
    requires v < 64
    ensures Parity(v, 32) == (v / 32 == 1)
  {
    assert v / 2 / 2 / 2 / 2 / 2 == v / 32;
  }

  lemma TopBit9(v: nat)
    requires v < 256
    ensures Parity(v, 128) == (v / 128 == 1)
  {
    assert v / 2 / 2 / 2 / 2 / 2 / 2 / 2 == v / 128;
  }

  lemma TopTap7(x: seq<nat>, i: nat)
    requires i + 6 <= |x|
    ensures Taps(x, i, 32) == (x[i + 5] == 1)
  {
  }

  lemma TopTap9(x: seq<nat>, i: nat)
    requires i + 8 <= |x|
    ensures Taps(x, i, 128) == (x[i + 7] == 1)
  {
  }

  lemma TopIsLow7(c: Code, p: seq<nat>, i: nat)
    requires c.Valid() && c.k == 7 && IsPath(c, p) && i + 6 <= |p|
    ensures p[i] / c.Half() == Lows(p)[i + c.k - 2]
  {
    assert c.Half() == 32;
    assert Parity(p[i], 32) == Taps(Lows(p), i, 32) by {
      Powers();
      ParityIsTaps(c, p, i, 32, 6);
    }
    TopBit7(p[i]);
    TopTap7(Lows(p), i);
  }

  lemma TopIsLow9(c: Code, p: seq<nat>, i: nat)
    requires c.Valid() && c.k == 9 && IsPath(c, p) && i + 8 <= |p|
    ensures p[i] / c.Half() == Lows(p)[i + c.k - 2]
  {
    Powers();
    ParityIsTaps(c, p, i, 128, 8);
    TopBit9(p[i]);
    TopTap9(Lows(p), i);
    assert c.Half() == 128;
  }

  // The newest bit of a state is the oldest k-2 steps later.
  lemma TopIsLow(c: Code, p: seq<nat>, i: nat)
    requires c.Valid() && IsPath(c, p) && i + c.k - 1 <= |p|
    ensures p[i] / c.Half() == Lows(p)[i + c.k - 2]
  {
    if c.k == 7 { TopIsLow7(c, p, i); } else { TopIsLow9(c, p, i); }
  }

  // The bits of two rival paths agree.
  lemma SameBit(t: Pattern, input: seq<int>, len: nat, n: nat, p: seq<nat>, q: seq<nat>, i: nat)
    requires Rivals(t, input, len, n, p, q) && i + 20 <= n
    ensures p[i] / CodeOf(t).Half() == q[i] / CodeOf(t).Half()
  {
    var c := CodeOf(t);
    RivalsMatch(t, input, len, n, p, q);
    TopIsLow(c, p, i);
    TopIsLow(c, q, i);
    SameLows(t, len, Lows(p), Lows(q), i + c.k - 2);
  }

  lemma RivalPaths(t: Pattern, u: seq<int>, input: seq<int>, n: nat, p: seq<nat>)
    requires EXTRA <= |u| && NoiseFree(CodeOf(t), u, input) && Heard(t, input, |u|) && FitsFrame(t, |u|)
    requires IsBest(CodeOf(t), Wrapped(input, |u|, n), p)
    ensures Rivals(t, input, |u|, n, p, TruePath(CodeOf(t), u, n))
  {
    var c := CodeOf(t);
    BestFits(c, u, input, n, p);
    TruePathIsPath(c, u, n);
    TruePathFits(c, u, input, n);
  }

  lemma BestBit(t: Pattern, u: seq<int>, input: seq<int>, n: nat, p: seq<nat>, i: nat)
    requires EXTRA <= |u| && NoiseFree(CodeOf(t), u, input) && Heard(t, input, |u|) && FitsFrame(t, |u|)
    requires n == |u| + 2 * EXTRA && IsBest(CodeOf(t), Wrapped(input, |u|, n), p) && i < |u|
    ensures p[i + EXTRA + 1] / CodeOf(t).Half() == u[i]
  {
    RivalPaths(t, u, input, n, p);
    TrueBits(CodeOf(t), u, n, i);
    SameBit(t, input, |u|, n, p, TruePath(CodeOf(t), u, n), i + EXTRA + 1);
  }

  /** Round trip: a frame encoded with the tail-biting register, punctured and
      received without noise, decodes to itself whenever the decoder delivers a
      maximum likelihood path. */
  lemma NoiseFreeRoundTrip(t: Pattern, u: seq<int>, input: seq<int>, out: seq<int>)
    requires EXTRA <= |u| == |out| && NoiseFree(CodeOf(t), u, input)
    requires Heard(t, input, |u|) && FitsFrame(t, |u|)
    requires MaximumLikelihood(CodeOf(t), Wrapped(input, |u|, |u| + 2 * EXTRA), out)
    ensures out == u
  {
    var n := |u| + 2 * EXTRA;
    var p :| IsBest(CodeOf(t), Wrapped(input, |u|, n), p) && BitsOf(CodeOf(t), p, out);
    forall i | 0 <= i < |u| ensures out[i] == u[i] {
      BestBit(t, u, input, n, p, i);
    }
  }
}
