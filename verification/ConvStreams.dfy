/** The three output streams of each code, written out as sums of delayed bits
    (src/decode.c:38-60), and frames that carry them. */
module ConvStreams {
  import opened Arith
  import opened Trellis
  import opened ViterbiDecoder
  import opened TailBiting
  import opened RoundTrip

  // The bit d steps before step j of the cyclic frame.
  function Ago(u: seq<int>, j: nat, d: nat): int
    requires j < |u| && d <= |u|
  {
    u[(j + |u| - d) % |u|]
  }

  // Output m at step j, as a sum of the bits that the encoder adds.
  function Stream(t: Pattern, u: seq<int>, j: nat, m: nat): int
    requires j < |u| && 8 <= |u| && m < 3
  {
    var a, b, c, d, e := Ago(u, j, 0), Ago(u, j, 1), Ago(u, j, 2), Ago(u, j, 3), Ago(u, j, 4);
    var f, g, h, i := Ago(u, j, 5), Ago(u, j, 6), Ago(u, j, 7), Ago(u, j, 8);
    match t
    case Fm => (if m == 0 then a + c + d + f + g else if m == 1 then a + b + c + d + g else a + b + c + e + g) % 2
    case P3 => (if m == 0 then a + c + d + f + g else if m == 1 then a + b + c + d + g else a + b + c + e + g) % 2
    case E1 => (if m == 0 then a + c + d + e + i else if m == 1 then a + b + d + f + g + h + i else a + b + c + f + i) % 2
    case E2 => (if m == 0 then a + c + d + e + i else if m == 1 then a + b + c + d + f + h + i else a + b + c + f + i) % 2
    case AmPids =>
      (if m == 0 then a + c + d + e + i else if m == 1 then a + b + c + d + f + h + i else a + b + c + f + i) % 2
  }

  // The bits that generator g taps among the n latest, added up.
  function Tapped(u: seq<int>, j: nat, n: nat, g: nat): int
    requires j < |u| && n <= |u|
    decreases n
  {
    if n == 0 then 0 else (if g % 2 == 1 then Ago(u, j, n - 1) else 0) + Tapped(u, j, n - 1, g / 2)
  }

  lemma {:induction false} OldestBit(u: seq<int>, j: nat, n: nat)
    requires j < |u| && Bits(u) && 0 < n <= |u|
    ensures Reg(u, j, n) % 2 == Ago(u, j, n - 1)
    decreases n
  {
    if n == 1 {
      assert (j + |u|) % |u| == j by { DivUnique(j + |u|, |u|, 1, j); }
    } else {
      var i := Prev(|u|, j);
      OldestBit(u, i, n - 1);
      RegHalf(u, j, n);
      if j > 0 {
        assert i + |u| - (n - 2) == j + |u| - (n - 1);
      } else {
        DivUnique(i + |u| - (n - 2), |u|, 1, |u| - (n - 1));
        DivUnique(j + |u| - (n - 1), |u|, 0, |u| - (n - 1));
      }
    }
  }

  lemma {:induction false} ParityIsTapped(u: seq<int>, j: nat, n: nat, g: nat)
    requires j < |u| && Bits(u) && n <= |u| && g < Pow2(n)
    ensures Parity(Reg(u, j, n), g) <==> Tapped(u, j, n, g) % 2 == 1
    decreases n
  {
    if n > 0 {
      OldestBit(u, j, n);
      RegHalf(u, j, n);
      ParityIsTapped(u, j, n - 1, g / 2);
      OneMore(if g % 2 == 1 then Ago(u, j, n - 1) else 0, Tapped(u, j, n - 1, g / 2));
      if g == 0 { NothingTapped(u, j, n - 1); }
    }
  }

  lemma OneMore(b: int, sum: int)
    requires b == 0 || b == 1
    ensures (b + sum) % 2 == 1 <==> (b == 1) != (sum % 2 == 1)
  {
  }

  lemma {:induction false} NothingTapped(u: seq<int>, j: nat, n: nat)
    requires j < |u| && n <= |u|
    ensures Tapped(u, j, n, 0) == 0
    decreases n
  {
    if n > 0 { NothingTapped(u, j, n - 1); }
  }

  lemma Streams7(u: seq<int>, j: nat, m: nat)
    requires j < |u| && Bits(u) && 9 <= |u| && m < 3
    ensures Tapped(u, j, 7, CodeOf(Fm).g[m]) % 2 == Stream(Fm, u, j, m) == Stream(P3, u, j, m)
  {
  }

  // 0561 and 0711, and the second generators 0657 and 0753.
  lemma Outer9(u: seq<int>, j: nat)
    requires j < |u| && Bits(u) && 9 <= |u|
    ensures Tapped(u, j, 9, 369) == Ago(u, j, 8) + Ago(u, j, 4) + Ago(u, j, 3) + Ago(u, j, 2) + Ago(u, j, 0)
    ensures Tapped(u, j, 9, 457) == Ago(u, j, 8) + Ago(u, j, 5) + Ago(u, j, 2) + Ago(u, j, 1) + Ago(u, j, 0)
  {
  }

  lemma InnerE1(u: seq<int>, j: nat)
    requires j < |u| && Bits(u) && 9 <= |u|
    ensures Tapped(u, j, 9, 431) ==
      Ago(u, j, 8) + Ago(u, j, 7) + Ago(u, j, 6) + Ago(u, j, 5) + Ago(u, j, 3) + Ago(u, j, 1) + Ago(u, j, 0)
  {
  }

  lemma InnerE2(u: seq<int>, j: nat)
    requires j < |u| && Bits(u) && 9 <= |u|
    ensures Tapped(u, j, 9, 491) ==
      Ago(u, j, 8) + Ago(u, j, 7) + Ago(u, j, 5) + Ago(u, j, 3) + Ago(u, j, 2) + Ago(u, j, 1) + Ago(u, j, 0)
  {
  }

  lemma StreamsE1(u: seq<int>, j: nat, m: nat)
    requires j < |u| && Bits(u) && 9 <= |u| && m < 3
    ensures Tapped(u, j, 9, CodeOf(E1).g[m]) % 2 == Stream(E1, u, j, m)
  {
    Outer9(u, j);
    InnerE1(u, j);
    assert CodeOf(E1).g == [369, 431, 457];
  }

  lemma StreamsE2(u: seq<int>, j: nat, m: nat)
    requires j < |u| && Bits(u) && 9 <= |u| && m < 3
    ensures Tapped(u, j, 9, CodeOf(E2).g[m]) % 2 == Stream(E2, u, j, m)
  {
    Outer9(u, j);
    InnerE2(u, j);
    assert CodeOf(E2).g == [369, 491, 457];
  }

  /** Every code is the one whose outputs are these sums. */
  lemma OutputIsStream(t: Pattern, u: seq<int>, j: nat, m: nat)
    requires j < |u| && Bits(u) && 9 <= |u| && m < 3
    ensures Parity(Reg(u, j, CodeOf(t).k), CodeOf(t).g[m]) <==> Stream(t, u, j, m) == 1
  {
    Powers();
    CodesValid(t);
    assert Pow2(7) == 128 && Pow2(9) == 512;
    ParityIsTapped(u, j, CodeOf(t).k, CodeOf(t).g[m]);
    match t
    case Fm => Streams7(u, j, m);
    case P3 => Streams7(u, j, m);
    case E1 => StreamsE1(u, j, m);
    case E2 => StreamsE2(u, j, m);
    case AmPids => StreamsE2(u, j, m);
  }

  // A frame received without noise: plus for a one, minus for a zero, nothing where
  // nothing is sent.
  ghost predicate Carries(t: Pattern, u: seq<int>, input: seq<int>) {
    && Bits(u) && 9 <= |u| && |input| == 3 * |u|
    && forall j: nat, m: nat :: j < |u| && m < 3 ==> CarriesAt(t, u, input, j, m)
  }

  ghost predicate CarriesAt(t: Pattern, u: seq<int>, input: seq<int>, j: nat, m: nat)
    requires 9 <= |u| && |input| == 3 * |u| && j < |u| && m < 3
  {
    var y := At(input, j, m);
    if !Sent(t, j, m) then y == 0 else if Stream(t, u, j, m) == 1 then y > 0 else y < 0
  }

  lemma CarriesCleanly(t: Pattern, u: seq<int>, input: seq<int>)
    requires Carries(t, u, input)
    ensures NoiseFree(CodeOf(t), u, input) && Heard(t, input, |u|)
  {
    CodesValid(t);
    forall j: nat | j < |u| ensures CleanAt(CodeOf(t), u, input, j) {
      OutputIsStream(t, u, j, 0);
      OutputIsStream(t, u, j, 1);
      OutputIsStream(t, u, j, 2);
      assert CarriesAt(t, u, input, j, 0) && CarriesAt(t, u, input, j, 1) && CarriesAt(t, u, input, j, 2);
    }
    forall j: nat, m: nat | j < |u| && m < 3 && Sent(t, j, m) ensures At(input, j, m) != 0 {
      assert CarriesAt(t, u, input, j, m);
    }
  }
}
