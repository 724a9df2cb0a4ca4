/** Encoding a tail-biting frame, and the noise-free round trip: for every code
    and puncturing pattern in use, the maximum likelihood path of a frame that
    was received without noise carries exactly the transmitted bits. */
module TailBiting {
  import opened Arith
  import opened Trellis
  import opened Metrics
  import opened Viterbi
  import opened ViterbiDecoder

  // ---------- the encoder ----------

  ghost predicate Bits(u: seq<int>) { forall i :: 0 <= i < |u| ==> u[i] == 0 || u[i] == 1 }

  function Prev(len: nat, j: nat): (i: nat)
    requires j < len
    ensures i < len
  {
    if j == 0 then len - 1 else j - 1
  }

  // The n most recent bits at time j of the cyclic frame, newest on top.
  function Reg(u: seq<int>, j: nat, n: nat): (r: nat)
    requires j < |u| && Bits(u)
    ensures r < Pow2(n)
    decreases n
  {
    if n == 0 then 0 else u[j] * Pow2(n - 1) + Reg(u, Prev(|u|, j), n - 1)
  }

  lemma {:induction false} RegHalf(u: seq<int>, j: nat, n: nat)
    requires j < |u| && Bits(u) && n > 0
    ensures Reg(u, j, n) / 2 == Reg(u, j, n - 1)
    ensures n > 1 ==> Reg(u, j, n) % 2 == Reg(u, Prev(|u|, j), n - 1) % 2
    decreases n
  {
    if n > 1 {
      RegHalf(u, Prev(|u|, j), n - 1);
      if u[j] == 0 {} else {}
    }
  }

  // The outputs of the frame at time j come from the k most recent bits.
  ghost predicate NoiseFree(c: Code, u: seq<int>, input: seq<int>) {
    && c.Valid() && Bits(u) && |input| == 3 * |u|
    && forall j: nat :: j < |u| ==> CleanAt(c, u, input, j)
  }

  // Whatever is received at time j has the sign of the output there, or is zero.
  ghost predicate CleanAt(c: Code, u: seq<int>, input: seq<int>, j: nat) {
    && |c.g| == 3 && Bits(u) && j < |u| && |input| == 3 * |u|
    && Signed(c, input[3 * j], Reg(u, j, c.k), 0) >= 0
    && Signed(c, input[3 * j + 1], Reg(u, j, c.k), 1) >= 0
    && Signed(c, input[3 * j + 2], Reg(u, j, c.k), 2) >= 0
  }

  // The path the encoder took, in the order of the visits.
  function TruePath(c: Code, u: seq<int>, n: nat): (p: seq<nat>)
    requires c.k >= 1 && Bits(u) && EXTRA <= |u|
    ensures |p| == n + 1
  {
    if n == 0 then [Reg(u, Prev(|u|, Visit(|u|, 0)), c.k - 1)]
    else TruePath(c, u, n - 1) + [Reg(u, Visit(|u|, n - 1), c.k - 1)]
  }

  lemma {:induction false} TruePathAt(c: Code, u: seq<int>, n: nat, i: nat)
    requires c.k >= 1 && Bits(u) && EXTRA <= |u| && i <= n
    ensures TruePath(c, u, n)[i] == Reg(u, Prev(|u|, Visit(|u|, i)), c.k - 1)
    ensures i > 0 ==> TruePath(c, u, n)[i] == Reg(u, Visit(|u|, i - 1), c.k - 1)
  {
    if i < n { TruePathAt(c, u, n - 1, i); }
  }

  lemma RegEdge(u: seq<int>, v: nat, k: nat, h: nat)
    requires v < |u| && Bits(u) && k >= 2 && h == Pow2(k - 2)
    ensures var r, q := Reg(u, v, k - 1), Reg(u, Prev(|u|, v), k - 1);
      r % h == q / 2 && 2 * r + q % 2 == Reg(u, v, k)
  {
    var w := Prev(|u|, v);
    RegHalf(u, v, k);
    RegHalf(u, w, k - 1);
    assert Reg(u, v, k - 1) == u[v] * h + Reg(u, w, k - 2);
    Shifted(Reg(u, v, k - 1), Reg(u, w, k - 1), h, u[v], Reg(u, w, k - 2), Reg(u, v, k));
  }

  // full is r with the lowest bit of q below it; q without that bit is r without
  // its top bit b.
  lemma Shifted(r: nat, q: nat, h: nat, b: int, low: nat, full: nat)
    requires (b == 0 || b == 1) && r == b * h + low && low < h
    requires q / 2 == low && full / 2 == r && full % 2 == q % 2
    ensures r % h == q / 2 && 2 * r + q % 2 == full
  {
    DivUnique(r, h, b, low);
  }

  lemma TrueEdge(c: Code, u: seq<int>, n: nat, i: nat)
    requires c.Valid() && Bits(u) && EXTRA <= |u| && i < n
    ensures var p := TruePath(c, u, n);
      && p[i] < c.NumStates() && p[i + 1] < c.NumStates() && Edge(c, p[i], p[i + 1])
      && 2 * p[i + 1] + p[i] % 2 == Reg(u, Visit(|u|, i), c.k)
  {
    TruePathAt(c, u, n, i);
    TruePathAt(c, u, n, i + 1);
    Powers();
    assert Pow2(c.k - 1) == c.NumStates() && Pow2(c.k - 2) == c.Half();
    RegEdge(u, Visit(|u|, i), c.k, c.Half());
  }

  lemma {:induction false} TruePathIsPath(c: Code, u: seq<int>, n: nat)
    requires c.Valid() && Bits(u) && EXTRA <= |u|
    ensures IsPath(c, TruePath(c, u, n))
  {
    Powers();
    forall t | 0 <= t <= n ensures TruePath(c, u, n)[t] < c.NumStates() { TruePathAt(c, u, n, t); }
    forall t | 0 <= t < n ensures Edge(c, TruePath(c, u, n)[t], TruePath(c, u, n)[t + 1]) { TrueEdge(c, u, n, t); }
  }

  lemma VisitOwn(len: nat, i: nat)
    requires EXTRA <= len && i < len
    ensures Visit(len, i + EXTRA) == i
  {
    VisitIsModular(len, i + EXTRA);
    DivUnique(len + i, len, 1, i);
  }

  // The true path carries the frame's bits, shifted by the 32 extra steps.
  lemma TrueBits(c: Code, u: seq<int>, n: nat, i: nat)
    requires c.Valid() && Bits(u) && EXTRA <= |u| && i < |u| && i + EXTRA < n
    ensures TruePath(c, u, n)[i + EXTRA + 1] / c.Half() == u[i]
  {
    TruePathAt(c, u, n, i + EXTRA + 1);
    VisitOwn(|u|, i);
    Powers();
    assert Pow2(c.k - 2) == c.Half();
    RegTop(u, i, c.k - 1, c.Half());
  }

  lemma RegTop(u: seq<int>, j: nat, n: nat, h: nat)
    requires j < |u| && Bits(u) && n > 0 && h == Pow2(n - 1)
    ensures Reg(u, j, n) / h == u[j]
  {
    var low := Reg(u, Prev(|u|, j), n - 1);
    if u[j] == 0 { DivUnique(low, h, 0, low); } else { DivUnique(h + low, h, 1, low); }
  }

  // ---------- a path that fits a noise-free frame ----------

  function SumOfAmps(ys: seq<Soft>): nat {
    if |ys| == 0 then 0 else SumOfAmps(ys[..|ys| - 1]) + Amp(ys[|ys| - 1])
  }

  // p agrees with the sign of every nonzero received value of step i.
  ghost predicate Fits(c: Code, p: seq<nat>, y: Soft, i: nat)
    requires |c.g| == 3 && i + 1 < |p|
  {
    forall m :: 0 <= m < 3 ==> Signed(c, y[m], 2 * p[i + 1] + p[i] % 2, m) >= 0
  }

  lemma FitsIsMaximal(c: Code, y: Soft, w: nat)
    requires |c.g| == 3
    ensures Corr(c, y, w) <= Amp(y)
    ensures Corr(c, y, w) == Amp(y) <==> forall m :: 0 <= m < 3 ==> Signed(c, y[m], w, m) >= 0
  {
    CorrSum(c, y, w);
    if forall m :: 0 <= m < 3 ==> Signed(c, y[m], w, m) >= 0 {
      assert Signed(c, y[0], w, 0) >= 0 && Signed(c, y[1], w, 1) >= 0 && Signed(c, y[2], w, 2) >= 0;
    }
  }

  // Full correlation is reached exactly by the paths that fit everywhere.
  lemma {:induction false} FullWeight(c: Code, p: seq<nat>, ys: seq<Soft>)
    requires |c.g| == 3 && |p| == |ys| + 1
    ensures Weight(c, p, ys) <= SumOfAmps(ys)
    ensures Weight(c, p, ys) == SumOfAmps(ys) <==> forall i :: 0 <= i < |ys| ==> Fits(c, p, ys[i], i)
    decreases |ys|
  {
    if |ys| > 0 {
      var n := |ys| - 1;
      FullWeight(c, p[..n + 1], ys[..n]);
      FitsIsMaximal(c, ys[n], 2 * p[n + 1] + p[n] % 2);
      assert forall i :: 0 <= i < n ==> (Fits(c, p, ys[i], i) <==> Fits(c, p[..n + 1], ys[..n][i], i));
    }
  }

  lemma CleanFits(c: Code, u: seq<int>, input: seq<int>, j: nat, p: seq<nat>, y: Soft, i: nat)
    requires c.Valid() && CleanAt(c, u, input, j) && i + 1 < |p| && y == input[3 * j..3 * j + 3]
    requires 2 * p[i + 1] + p[i] % 2 == Reg(u, j, c.k)
    ensures Fits(c, p, y, i)
  {
    assert y[0] == input[3 * j] && y[1] == input[3 * j + 1] && y[2] == input[3 * j + 2];
  }

  lemma TruePathFits(c: Code, u: seq<int>, input: seq<int>, n: nat)
    requires NoiseFree(c, u, input) && EXTRA <= |u|
    ensures forall i :: 0 <= i < n ==> Fits(c, TruePath(c, u, n), Wrapped(input, |u|, n)[i], i)
  {
    forall i | 0 <= i < n ensures Fits(c, TruePath(c, u, n), Wrapped(input, |u|, n)[i], i) {
      TrueEdge(c, u, n, i);
      WrappedAt(input, |u|, n, i);
      CleanFits(c, u, input, Visit(|u|, i), TruePath(c, u, n), Wrapped(input, |u|, n)[i], i);
    }
  }

  // A best path over a noise-free frame fits it everywhere.
  lemma BestFits(c: Code, u: seq<int>, input: seq<int>, n: nat, p: seq<nat>)
    requires NoiseFree(c, u, input) && EXTRA <= |u| && IsBest(c, Wrapped(input, |u|, n), p)
    ensures forall i :: 0 <= i < n ==> Fits(c, p, Wrapped(input, |u|, n)[i], i)
  {
    var ys, q := Wrapped(input, |u|, n), TruePath(c, u, n);
    TruePathIsPath(c, u, n);
    TruePathFits(c, u, input, n);
    FullWeight(c, q, ys);
    FullWeight(c, p, ys);
  }

  // ---------- outputs as sums of path bits ----------

  // The oldest bit of every state along p.
  function Lows(p: seq<nat>): (x: seq<nat>)
    ensures |x| == |p| && forall i :: 0 <= i < |p| ==> x[i] == p[i] % 2
  {
    if |p| == 0 then [] else Lows(p[..|p| - 1]) + [p[|p| - 1] % 2]
  }

  // The sum modulo 2 of x[i + b] over the taps b of g.
  function Taps(x: seq<nat>, i: nat, g: nat): bool
    decreases g
  {
    if g == 0 || i >= |x| then false else (x[i] == 1 && g % 2 == 1) != Taps(x, i + 1, g / 2)
  }

  lemma {:induction false} ParityMod(y: nat, g: nat, n: nat)
    requires g < Pow2(n)
    ensures Parity(y % Pow2(n), g) == Parity(y, g)
    decreases n
  {
    if n > 0 {
      HalfMod(y, Pow2(n - 1));
      ParityMod(y / 2, g / 2, n - 1);
    }
  }

  lemma {:induction false} ParityIsTaps(c: Code, p: seq<nat>, i: nat, g: nat, n: nat)
    requires c.Valid() && IsPath(c, p) && n <= c.k - 1 && g < Pow2(n) && i + n <= |p|
    ensures n > 0 ==> Parity(p[i], g) == Taps(Lows(p), i, g)
    decreases n
  {
    if n > 0 {
      if n == 1 {
        assert g / 2 == 0;
      } else {
        ParityIsTaps(c, p, i + 1, g / 2, n - 1);
        assert Edge(c, p[i], p[i + 1]);
        Powers();
        assert c.Half() == Pow2(c.k - 2);
        PowMono(n - 1, c.k - 2);
        ParityMod(p[i + 1], g / 2, c.k - 2);
      }
    }
  }

  // The output bit of step i in terms of the path's bits.
  lemma OutputIsTaps(c: Code, p: seq<nat>, i: nat, m: nat)
    requires c.Valid() && IsPath(c, p) && m < 3 && i + c.k <= |p|
    ensures Parity(2 * p[i + 1] + p[i] % 2, c.g[m]) == Taps(Lows(p), i, c.g[m])
  {
    var w, g := 2 * p[i + 1] + p[i] % 2, c.g[m];
    assert w / 2 == p[i + 1] && w % 2 == p[i] % 2;
    ParityIsTaps(c, p, i + 1, g / 2, c.k - 1);
  }
}
