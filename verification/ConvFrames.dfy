/** The decoder as the frame code uses it: depunctured frames, the five entry
    points (src/conv_dec.c:455-479), and counting bit errors by re-encoding
    (src/decode.c:234-277). */
module ConvFrames {
  import opened Arith
  import opened Trellis
  import opened Metrics
  import opened MetricRefinement
  import opened Viterbi
  import opened ViterbiDecoder
  import opened TailBiting
  import opened RoundTrip
  import opened ConvStreams

  // ---------- depunctured frames stay within 16 bits ----------

  // FM soft bits lie within +-127, AM bits are +-1; positions not sent are 0.
  function Loudest(t: Pattern): nat { if t == Fm || t == P3 then 127 else 1 }

  ghost predicate Depunctured(t: Pattern, input: seq<int>, len: nat) {
    && |input| == 3 * len && EXTRA <= len && FitsFrame(t, len)
    && (forall i :: 0 <= i < |input| ==> -(Loudest(t) as int) <= input[i] <= Loudest(t))
    && forall j: nat, m: nat :: j < len && m < 3 && !Sent(t, j, m) ==> At(input, j, m) == 0
  }

  lemma StepAmp(t: Pattern, input: seq<int>, len: nat, n: nat, i: nat)
    requires Depunctured(t, input, len) && i < n
    ensures var y := Wrapped(input, len, n)[i];
      && Amp(y) <= 3 * Loudest(t)
      && (t == P3 || (t == Fm && Visit(len, i) % 2 == 1) ==> Amp(y) <= 2 * 127)
  {
    WrappedAt(input, len, n, i);
    var j := Visit(len, i);
    var y := Wrapped(input, len, n)[i];
    assert y[0] == At(input, j, 0) && y[1] == At(input, j, 1) && y[2] == At(input, j, 2);
  }

  // In two consecutive steps at most five of the six positions were sent.
  lemma DepuncturedIsBounded(t: Pattern, input: seq<int>, len: nat, n: nat)
    requires Depunctured(t, input, len)
    ensures Bounded(Wrapped(input, len, n))
  {
    var ys := Wrapped(input, len, n);
    forall i | 0 <= i < n ensures Amp(ys[i]) <= 381 { StepAmp(t, input, len, n, i); }
    forall i | 0 <= i < n - 1 ensures Amp(ys[i]) + Amp(ys[i + 1]) <= 635 {
      StepAmp(t, input, len, n, i);
      StepAmp(t, input, len, n, i + 1);
      if t == Fm { VisitParity(len, i); VisitParity(len, i + 1); }
    }
  }

  /** nrsc5_conv_decode_p1, _pids, _p3_p4, _e1 and _e2_e3: a depunctured frame is
      always decoded, to a maximum likelihood path, and a frame received without
      noise to exactly the bits that were encoded: the bits u whose output streams,
      written out as sums, have the signs received. */
  method ConvDecodeFrame(t: Pattern, input: seq<int>, len: nat) returns (rc: int, out: array<int>)
    requires Depunctured(t, input, len)
    ensures fresh(out) && out.Length == len && rc > 0
    ensures MaximumLikelihood(CodeOf(t), Wrapped(input, len, len + 2 * EXTRA), out[..])
    ensures forall u: seq<int> :: |u| == len && NoiseFree(CodeOf(t), u, input) && Heard(t, input, len) ==> out[..] == u
    ensures forall u: seq<int> :: |u| == len && Carries(t, u, input) ==> out[..] == u
  {
    CodesValid(t);
    DepuncturedIsBounded(t, input, len, len + 2 * EXTRA);
    rc, out := Decode(input, CodeOf(t).k, len, CodeOf(t).g);
    forall u: seq<int> | |u| == len && NoiseFree(CodeOf(t), u, input) && Heard(t, input, len) ensures out[..] == u {
      NoiseFreeRoundTrip(t, u, input, out[..]);
    }
    forall u: seq<int> | |u| == len && Carries(t, u, input) ensures out[..] == u { CarriesCleanly(t, u, input); }
  }

  // What callers rely on: a frame that carries u is decoded to u.
  method DecodeInput(t: Pattern, input: seq<int>, len: nat) returns (out: array<int>)
    requires Depunctured(t, input, len)
    ensures fresh(out) && out.Length == len
    ensures forall u: seq<int> :: |u| == len && Carries(t, u, input) ==> out[..] == u
  {
    var rc;
    rc, out := ConvDecodeFrame(t, input, len);
  }

  // ---------- counting bit errors ----------

  // The puncturing array holds a one for every output that was sent.
  ghost predicate Kept(puncture: seq<bool>, j: nat, m: nat)
    requires |puncture| > 0
  {
    puncture[(3 * j + m) % |puncture|]
  }

  // Output m of step j was sent, and its sign is not that of re-encoding u.
  ghost predicate Wrong(c: Code, puncture: seq<bool>, u: seq<int>, coded: seq<int>, j: nat, m: nat)
    requires |c.g| == 3 && |puncture| > 0 && Bits(u) && |coded| == 3 * |u| && j < |u| && m < 3
  {
    Kept(puncture, j, m) && (At(coded, j, m) > 0) != Parity(Reg(u, j, c.k), c.g[m])
  }

  function One(b: bool): nat { if b then 1 else 0 }

  ghost function WrongOutputs(c: Code, puncture: seq<bool>, u: seq<int>, coded: seq<int>, j: nat): nat
    requires |c.g| == 3 && |puncture| > 0 && Bits(u) && |coded| == 3 * |u| && j < |u|
  {
    One(Wrong(c, puncture, u, coded, j, 0)) + One(Wrong(c, puncture, u, coded, j, 1)) + One(Wrong(c, puncture, u, coded, j, 2))
  }

  // How many outputs of the first n steps are wrong.
  ghost function Errors(c: Code, puncture: seq<bool>, u: seq<int>, coded: seq<int>, n: nat): nat
    requires |c.g| == 3 && |puncture| > 0 && Bits(u) && |coded| == 3 * |u| && n <= |u|
  {
    if n == 0 then 0 else Errors(c, puncture, u, coded, n - 1) + WrongOutputs(c, puncture, u, coded, n - 1)
  }

  lemma {:induction false} NoErrors(c: Code, puncture: seq<bool>, u: seq<int>, coded: seq<int>, n: nat)
    requires |c.g| == 3 && |puncture| > 0 && Bits(u) && |coded| == 3 * |u| && n <= |u|
    ensures Errors(c, puncture, u, coded, n) == 0 <==> forall j: nat :: j < n ==> WrongOutputs(c, puncture, u, coded, j) == 0
  {
    if n > 0 { NoErrors(c, puncture, u, coded, n - 1); }
  }

  lemma ScaledShift(b: int, h: nat, p: nat, low: nat)
    requires b == 0 || b == 1
    ensures ((2 * h) * low) / 2 + b * (h * p) == h * (b * p + low)
  {
    Regroup(2, h, low);
    if b == 1 { assert h * (p + low) == h * p + h * low; }
  }

  // The register before the first step, once i bits of the tail are in.
  lemma TailStep(u: seq<int>, k: nat, i: nat, j: nat, r: nat)
    requires Bits(u) && i + 1 < k && 0 < j < |u| && r == Pow2(k - i) * Reg(u, j - 1, i)
    ensures r / 2 + u[j] * Pow2(k - 1) == Pow2(k - i - 1) * Reg(u, j, i + 1)
  {
    Pow2Add(k - i - 1, i);
    ScaledShift(u[j], Pow2(k - i - 1), Pow2(i), Reg(u, j - 1, i));
  }

  method Tail(decoded: seq<int>, k: nat) returns (r: nat)
    requires Bits(decoded) && 1 < k <= |decoded|
    ensures r == 2 * Reg(decoded, |decoded| - 1, k - 1)
  {
    r := 0;
    var i := 0;
    var first := |decoded| - (k - 1);
    while i < k - 1
      invariant 0 <= i <= k - 1
      invariant i == 0 ==> r == 0
      invariant i > 0 ==> r == Pow2(k - i) * Reg(decoded, first + i - 1, i)
    {
      assert i == 0 ==> Reg(decoded, first - 1, 0) == 0;
      TailStep(decoded, k, i, first + i, r);
      r := r / 2 + decoded[first + i] * Pow2(k - 1);
      i := i + 1;
    }
    assert Pow2(1) == 2;
  }

  // The comparisons of one step, with the re-encoder's register in r.
  method StepErrors(c: Code, puncture: seq<bool>, coded: seq<int>, ghost u: seq<int>, ghost i: nat, j: nat, r: nat)
    returns (errors: nat)
    requires |c.g| == 3 && |puncture| > 0 && Bits(u) && |coded| == 3 * |u| && i < |u| && j == 3 * i && r == Reg(u, i, c.k)
    ensures errors == WrongOutputs(c, puncture, u, coded, i)
  {
    errors := 0;
    if puncture[j % |puncture|] && (coded[j] > 0) != Parity(r, c.g[0]) {
      errors := errors + 1;
    }
    if puncture[(j + 1) % |puncture|] && (coded[j + 1] > 0) != Parity(r, c.g[1]) {
      errors := errors + 1;
    }
    if puncture[(j + 2) % |puncture|] && (coded[j + 2] > 0) != Parity(r, c.g[2]) {
      errors := errors + 1;
    }
  }

  /** bit_errors: the number of transmitted outputs whose sign differs from
      re-encoding the decoded bits around the tail-biting frame. */
  method BitErrors(coded: seq<int>, decoded: seq<int>, c: Code, puncture: seq<bool>) returns (errors: nat)
    requires |c.g| == 3 && |puncture| > 0 && Bits(decoded) && |coded| == 3 * |decoded| && 1 < c.k <= |decoded|
    ensures errors == Errors(c, puncture, decoded, coded, |decoded|)
  {
    var r := Tail(decoded, c.k);
    errors := 0;
    var i, j := 0, 0;
    while i < |decoded|
      invariant 0 <= i <= |decoded| && j == 3 * i
      invariant r / 2 == Reg(decoded, Prev(|decoded|, if i == |decoded| then 0 else i), c.k - 1)
      invariant errors == Errors(c, puncture, decoded, coded, i)
    {
      r := r / 2 + decoded[i] * Pow2(c.k - 1);
      var e := StepErrors(c, puncture, coded, decoded, i, j, r);
      errors := errors + e;
      RegHalf(decoded, i, c.k);
      i, j := i + 1, j + 3;
    }
  }

  // ---------- no errors means no noise ----------

  // A value was received exactly where the puncturing array says so.
  ghost predicate SentExactly(puncture: seq<bool>, coded: seq<int>, len: nat) {
    && |puncture| > 0 && |coded| == 3 * len
    && forall j: nat, m: nat :: j < len && m < 3 ==> (Kept(puncture, j, m) <==> At(coded, j, m) != 0)
  }

  lemma SignedAt(c: Code, puncture: seq<bool>, u: seq<int>, coded: seq<int>, j: nat, m: nat)
    requires |c.g| == 3 && Bits(u) && SentExactly(puncture, coded, |u|) && j < |u| && m < 3
    ensures Wrong(c, puncture, u, coded, j, m) <==> Signed(c, At(coded, j, m), Reg(u, j, c.k), m) < 0
  {
  }

  lemma CleanIffNotWrong(c: Code, puncture: seq<bool>, u: seq<int>, coded: seq<int>, j: nat)
    requires |c.g| == 3 && Bits(u) && SentExactly(puncture, coded, |u|) && j < |u|
    ensures CleanAt(c, u, coded, j) <==> WrongOutputs(c, puncture, u, coded, j) == 0
  {
    SignedAt(c, puncture, u, coded, j, 0);
    SignedAt(c, puncture, u, coded, j, 1);
    SignedAt(c, puncture, u, coded, j, 2);
  }

  // No error is counted exactly when the frame is a noise-free encoding of u.
  lemma NoErrorsIff(c: Code, puncture: seq<bool>, u: seq<int>, coded: seq<int>)
    requires c.Valid() && Bits(u) && SentExactly(puncture, coded, |u|)
    ensures Errors(c, puncture, u, coded, |u|) == 0 <==> NoiseFree(c, u, coded)
  {
    NoErrors(c, puncture, u, coded, |u|);
    forall j: nat | j < |u| ensures CleanAt(c, u, coded, j) <==> WrongOutputs(c, puncture, u, coded, j) == 0 {
      CleanIffNotWrong(c, puncture, u, coded, j);
    }
  }

  // The three arrays bit_errors is called with.
  function Puncture(t: Pattern): (s: seq<bool>)
    ensures |s| > 0
  {
    match t
    case Fm => [true, true, true, true, true, false]
    case P3 => [true, false, true, true, false, true]
    case E1 => [true, false, true, true, false, true, true, false, true, true, true, true, true, true, true]
    case E2 => [true, false, true, true, false, false]
    case AmPids => [true]
  }

  lemma Cycle6(j: nat, m: nat)
    requires m < 3
    ensures (3 * j + m) % 6 == 3 * (j % 2) + m
  {
  }

  lemma Cycle15(j: nat, m: nat)
    requires m < 3
    ensures (3 * j + m) % 15 == 3 * (j % 5) + m
  {
    DivUnique(3 * j + m, 15, j / 5, 3 * (j % 5) + m);
  }

  lemma PunctureIsSent(t: Pattern, j: nat, m: nat)
    requires m < 3
    ensures Kept(Puncture(t), j, m) <==> Sent(t, j, m)
  {
    Cycle6(j, m);
    Cycle15(j, m);
  }

  /** Decoding and re-encoding a noise-free frame counts no errors; a decoded
      frame without counted errors is the one that was sent. */
  lemma NoErrorsIsRoundTrip(t: Pattern, input: seq<int>, u: seq<int>, out: seq<int>)
    requires Depunctured(t, input, |u|) && Heard(t, input, |u|) && Bits(out) && |out| == |u|
    requires NoiseFree(CodeOf(t), u, input)
    requires MaximumLikelihood(CodeOf(t), Wrapped(input, |u|, |u| + 2 * EXTRA), out)
    ensures Errors(CodeOf(t), Puncture(t), out, input, |out|) == 0 && out == u
  {
    NoiseFreeRoundTrip(t, u, input, out);
    forall j: nat, m: nat | j < |u| && m < 3 ensures Kept(Puncture(t), j, m) <==> At(input, j, m) != 0 {
      PunctureIsSent(t, j, m);
    }
    NoErrorsIff(CodeOf(t), Puncture(t), u, input);
  }

  /** A frame that carries the output streams of u counts no error against u. */
  lemma StreamsCountNone(t: Pattern, u: seq<int>, input: seq<int>)
    requires Carries(t, u, input)
    ensures Errors(CodeOf(t), Puncture(t), u, input, |u|) == 0
  {
    CarriesCleanly(t, u, input);
    CodesValid(t);
    forall j: nat, m: nat | j < |u| && m < 3 ensures Kept(Puncture(t), j, m) <==> At(input, j, m) != 0 {
      PunctureIsSent(t, j, m);
      assert CarriesAt(t, u, input, j, m);
    }
    NoErrorsIff(CodeOf(t), Puncture(t), u, input);
  }
}
