/** The convolutional code and its trellis (src/conv_dec.c:115-154): shift
    register states, branch outputs, paths and their correlation with the
    received soft bits. */
module Trellis {
  import opened Arith

  // PARITY(x & g)
  function Parity(x: nat, g: nat): bool
    decreases g
  {
    if g == 0 then false else (x % 2 == 1 && g % 2 == 1) != Parity(x / 2, g / 2)
  }

  lemma FlipLow(x: nat, g: nat)
    requires x % 2 == 0 && g % 2 == 1
    ensures Parity(x + 1, g) == !Parity(x, g)
  {
    assert (x + 1) / 2 == x / 2;
  }

  lemma {:induction false} FlipHigh(x: nat, g: nat, n: nat)
    requires x < Pow2(n) <= g < 2 * Pow2(n)
    ensures Parity(x + Pow2(n), g) == !Parity(x, g)
  {
    if n == 0 {
      assert Parity(0, 0) == false;
    } else {
      FlipHigh(x / 2, g / 2, n - 1);
      assert (x + Pow2(n)) / 2 == x / 2 + Pow2(n - 1);
      assert (x + Pow2(n)) % 2 == x % 2;
    }
  }

  // A rate 1/3 code: constraint length and generator polynomials.
  datatype Code = Code(k: nat, g: seq<nat>) {
    // Both ends of every generator are tapped, as for all five codes in use.
    ghost predicate Valid() {
      && (k == 7 || k == 9)
      && |g| == 3
      && forall j :: 0 <= j < 3 ==> g[j] % 2 == 1 && Pow2(k - 1) <= g[j] < 2 * Pow2(k - 1)
    }

    function NumStates(): nat { if k == 9 then 256 else 64 }

    function Half(): nat { NumStates() / 2 }
  }

  // The three soft bits received for one input bit.
  type Soft = y: seq<int> | |y| == 3 witness [0, 0, 0]

  function Abs(x: int): nat { if x < 0 then -x else x }

  function Amp(y: Soft): nat { Abs(y[0]) + Abs(y[1]) + Abs(y[2]) }

  // Generator output for register contents w, as +1 or -1.
  function Out(c: Code, w: nat, j: nat): int
    requires |c.g| == 3 && j < 3
  {
    if Parity(w, c.g[j]) then 1 else -1
  }

  // y times the output, without the product.
  function Signed(c: Code, y: int, w: nat, j: nat): int
    requires |c.g| == 3 && j < 3
  {
    if Parity(w, c.g[j]) then y else -y
  }

  // Correlation of the first n outputs with the received values.
  function CorrUpTo(c: Code, y: Soft, w: nat, n: nat): int
    requires |c.g| == 3 && n <= 3
  {
    if n == 0 then 0 else CorrUpTo(c, y, w, n - 1) + Signed(c, y[n - 1], w, n - 1)
  }

  function Corr(c: Code, y: Soft, w: nat): int
    requires |c.g| == 3
  {
    CorrUpTo(c, y, w, |c.g|)
  }

  lemma CorrSum(c: Code, y: Soft, w: nat)
    requires |c.g| == 3
    ensures Corr(c, y, w) == Signed(c, y[0], w, 0) + Signed(c, y[1], w, 1) + Signed(c, y[2], w, 2)
    ensures Corr(c, y, w) == y[0] * Out(c, w, 0) + y[1] * Out(c, w, 1) + y[2] * Out(c, w, 2)
  {
    assert CorrUpTo(c, y, w, 1) == Signed(c, y[0], w, 0);
    assert CorrUpTo(c, y, w, 2) == CorrUpTo(c, y, w, 1) + Signed(c, y[1], w, 1);
    forall j | 0 <= j < 3 ensures Signed(c, y[j], w, j) == y[j] * Out(c, w, j) {}
  }

  lemma CorrBound(c: Code, y: Soft, w: nat)
    requires |c.g| == 3
    ensures -(Amp(y) as int) <= Corr(c, y, w) <= Amp(y)
  {
    CorrSum(c, y, w);
  }

  lemma Powers()
    ensures Pow2(6) == 64 && Pow2(8) == 256
  {
    assert Pow2(3) == 8;
    assert Pow2(6) == 64;
  }

  // Flipping the oldest or the newest bit of the register flips every output:
  // one metric serves all four branches of a butterfly.
  lemma Antipodal(c: Code, y: Soft, w: nat)
    requires c.Valid() && w % 2 == 0 && w < c.NumStates()
    ensures Corr(c, y, w + 1) == -Corr(c, y, w)
    ensures Corr(c, y, w + c.NumStates()) == -Corr(c, y, w)
    ensures Corr(c, y, w + c.NumStates() + 1) == Corr(c, y, w)
  {
    var ns := c.NumStates();
    Powers();
    forall j | 0 <= j < 3
      ensures Signed(c, y[j], w + 1, j) == -Signed(c, y[j], w, j)
      ensures Signed(c, y[j], w + ns, j) == -Signed(c, y[j], w, j)
      ensures Signed(c, y[j], w + ns + 1, j) == Signed(c, y[j], w, j)
    {
      FlipLow(w, c.g[j]);
      FlipLow(w + ns, c.g[j]);
      FlipHigh(w, c.g[j], c.k - 1);
    }
    CorrSum(c, y, w); CorrSum(c, y, w + 1); CorrSum(c, y, w + ns); CorrSum(c, y, w + ns + 1);
  }

  // ---------- paths ----------

  // The state is the last k-1 input bits, newest on top; a step drops bit 0.
  ghost predicate Edge(c: Code, s: nat, t: nat) {
    t % c.Half() == s / 2
  }

  ghost predicate IsPath(c: Code, p: seq<nat>) {
    && |p| > 0
    && (forall t :: 0 <= t < |p| ==> p[t] < c.NumStates())
    && (forall t :: 0 <= t < |p| - 1 ==> Edge(c, p[t], p[t + 1]))
  }

  // Correlation of the outputs along p with the received values.
  function Weight(c: Code, p: seq<nat>, ys: seq<Soft>): int
    requires |c.g| == 3 && |p| == |ys| + 1
    decreases |ys|
  {
    if |ys| == 0 then 0
    else
      var n := |ys| - 1;
      Weight(c, p[..n + 1], ys[..n]) + Corr(c, ys[n], 2 * p[n + 1] + p[n] % 2)
  }

  // ---------- the recursion on exact integers ----------

  function Max(a: int, b: int): int { if a > b then a else b }

  // The predecessor of t that drops bit p.
  function Pred(c: Code, t: nat, p: nat): nat { 2 * (t % c.Half()) + p }

  ghost predicate Sized(c: Code, sums: seq<int>) { |sums| == c.NumStates() }

  // The two candidates for state t.
  function Candidate(c: Code, sums: seq<int>, y: Soft, t: nat, p: nat): int
    requires |c.g| == 3 && Sized(c, sums) && t < c.NumStates() && p < 2
  {
    sums[Pred(c, t, p)] + Corr(c, y, 2 * t + p)
  }

  function Select(c: Code, sums: seq<int>, y: Soft, t: nat): nat
    requires |c.g| == 3 && Sized(c, sums) && t < c.NumStates()
  {
    if Candidate(c, sums, y, t, 0) > Candidate(c, sums, y, t, 1) then 0 else 1
  }

  // The new metrics of the first n states.
  function AdvanceUpTo(c: Code, sums: seq<int>, y: Soft, n: nat): (r: seq<int>)
    requires |c.g| == 3 && Sized(c, sums) && n <= c.NumStates()
    ensures |r| == n
    decreases n, c, sums, y
  {
    if n == 0 then []
    else AdvanceUpTo(c, sums, y, n - 1) + [Max(Candidate(c, sums, y, n - 1, 0), Candidate(c, sums, y, n - 1, 1))]
  }

  lemma {:induction false} AdvanceAt(c: Code, sums: seq<int>, y: Soft, n: nat, t: nat)
    requires |c.g| == 3 && Sized(c, sums) && t < n <= c.NumStates()
    ensures AdvanceUpTo(c, sums, y, n)[t] == Max(Candidate(c, sums, y, t, 0), Candidate(c, sums, y, t, 1))
  {
    if t < n - 1 { AdvanceAt(c, sums, y, n - 1, t); }
  }

  function Advance(c: Code, sums: seq<int>, y: Soft): (r: seq<int>)
    requires |c.g| == 3 && Sized(c, sums)
    ensures |r| == c.NumStates()
  {
    AdvanceUpTo(c, sums, y, c.NumStates())
  }

  // The metrics after all of ys, from zero.
  function Ideal(c: Code, ys: seq<Soft>): (r: seq<int>)
    requires |c.g| == 3
    ensures |r| == c.NumStates()
    decreases |ys|
  {
    if |ys| == 0 then seq(c.NumStates(), _ => 0)
    else Advance(c, Ideal(c, ys[..|ys| - 1]), ys[|ys| - 1])
  }

  lemma EdgePred(c: Code, s: nat, t: nat)
    requires s < c.NumStates() && t < c.NumStates()
    ensures Edge(c, s, t) <==> s == Pred(c, t, s % 2)
    ensures Pred(c, t, 0) < c.NumStates() && Pred(c, t, 1) < c.NumStates()
    ensures Edge(c, Pred(c, t, 0), t) && Edge(c, Pred(c, t, 1), t)
  {
  }

  lemma AdvanceBeats(c: Code, sums: seq<int>, y: Soft, s: nat, t: nat)
    requires |c.g| == 3 && Sized(c, sums) && s < c.NumStates() && t < c.NumStates() && Edge(c, s, t)
    ensures sums[s] + Corr(c, y, 2 * t + s % 2) <= Advance(c, sums, y)[t]
  {
    EdgePred(c, s, t);
    AdvanceAt(c, sums, y, c.NumStates(), t);
  }

  lemma AdvanceAttains(c: Code, sums: seq<int>, y: Soft, t: nat)
    requires |c.g| == 3 && Sized(c, sums) && t < c.NumStates()
    ensures var p := Select(c, sums, y, t);
      Advance(c, sums, y)[t] == sums[Pred(c, t, p)] + Corr(c, y, 2 * t + p)
  {
    AdvanceAt(c, sums, y, c.NumStates(), t);
  }

  // No path beats the metric of the state it ends in.
  lemma {:induction false} IdealIsUpperBound(c: Code, p: seq<nat>, ys: seq<Soft>)
    requires |c.g| == 3 && |p| == |ys| + 1 && IsPath(c, p)
    ensures Weight(c, p, ys) <= Ideal(c, ys)[p[|ys|]]
    decreases |ys|
  {
    if |ys| > 0 {
      var n := |ys| - 1;
      IdealIsUpperBound(c, p[..n + 1], ys[..n]);
      AdvanceBeats(c, Ideal(c, ys[..n]), ys[n], p[n], p[n + 1]);
    }
  }

  // The survivor of state t, from the stored selections.
  function Survivor(c: Code, sel: seq<seq<nat>>, t: nat): (p: seq<nat>)
    requires t < c.NumStates()
    requires forall i :: 0 <= i < |sel| ==> |sel[i]| == c.NumStates() && forall s :: 0 <= s < |sel[i]| ==> sel[i][s] < 2
    ensures |p| == |sel| + 1 && p[|sel|] == t
    decreases |sel|
  {
    if |sel| == 0 then [t]
    else Survivor(c, sel[..|sel| - 1], Pred(c, t, sel[|sel| - 1][t])) + [t]
  }

  // sel records, for every step, the selection the exact metrics make.
  ghost predicate Selections(c: Code, ys: seq<Soft>, sel: seq<seq<nat>>)
    requires |c.g| == 3
  {
    && |sel| == |ys|
    && forall i :: 0 <= i < |sel| ==>
         && |sel[i]| == c.NumStates()
         && forall s :: 0 <= s < |sel[i]| ==> sel[i][s] == Select(c, Ideal(c, ys[..i]), ys[i], s)
  }

  lemma SelectionsPrefix(c: Code, ys: seq<Soft>, sel: seq<seq<nat>>)
    requires |c.g| == 3 && Selections(c, ys, sel) && |sel| > 0
    ensures Selections(c, ys[..|ys| - 1], sel[..|sel| - 1])
  {
    var n := |sel| - 1;
    forall i | 0 <= i < n ensures ys[..n][..i] == ys[..i] {}
  }

  lemma PathGrows(c: Code, p: seq<nat>, t: nat)
    requires IsPath(c, p) && t < c.NumStates() && Edge(c, p[|p| - 1], t)
    ensures IsPath(c, p + [t])
  {
  }

  lemma WeightGrows(c: Code, p: seq<nat>, t: nat, w: seq<nat>, ys: seq<Soft>, n: nat)
    requires |c.g| == 3 && |p| == |ys| == n + 1 && w == p + [t]
    ensures Weight(c, w, ys) == Weight(c, p, ys[..n]) + Corr(c, ys[n], 2 * t + p[n] % 2)
  {
    assert w[..n + 1] == p;
    assert w[n + 1] == t;
    assert w[n] == p[n];
  }

  // A path led on into state t, dropping bit b.
  lemma LedOn(c: Code, p: seq<nat>, t: nat, ys: seq<Soft>, n: nat, b: nat)
    requires |c.g| == 3 && t < c.NumStates() && |p| == |ys| == n + 1 && IsPath(c, p)
    requires b < 2 && p[n] == Pred(c, t, b)
    ensures IsPath(c, p + [t])
    ensures Weight(c, p + [t], ys) == Weight(c, p, ys[..n]) + Corr(c, ys[n], 2 * t + b)
  {
    EdgePred(c, p[n], t);
    assert p[n] % 2 == b;
    PathGrows(c, p, t);
    WeightGrows(c, p, t, p + [t], ys, n);
  }

  // The survivor is a path that attains the metric.
  lemma {:induction false} SurvivorAttains(c: Code, ys: seq<Soft>, sel: seq<seq<nat>>, t: nat)
    requires |c.g| == 3 && Selections(c, ys, sel) && t < c.NumStates()
    ensures IsPath(c, Survivor(c, sel, t))
    ensures Weight(c, Survivor(c, sel, t), ys) == Ideal(c, ys)[t]
    decreases |sel|
  {
    if |sel| > 0 {
      var n := |sel| - 1;
      SelectionsPrefix(c, ys, sel);
      var q := Pred(c, t, sel[n][t]);
      SurvivorAttains(c, ys[..n], sel[..n], q);
      LedOn(c, Survivor(c, sel[..n], q), t, ys, n, sel[n][t]);
      AdvanceAttains(c, Ideal(c, ys[..n]), ys[n], t);
    }
  }

  // The best end state over all states gives the best path over all paths.
  lemma SurvivorIsBest(c: Code, ys: seq<Soft>, sel: seq<seq<nat>>, t: nat, p: seq<nat>)
    requires |c.g| == 3 && Selections(c, ys, sel) && t < c.NumStates()
    requires forall s :: 0 <= s < c.NumStates() ==> Ideal(c, ys)[s] <= Ideal(c, ys)[t]
    requires IsPath(c, p) && |p| == |ys| + 1
    ensures Weight(c, p, ys) <= Weight(c, Survivor(c, sel, t), ys)
  {
    IdealIsUpperBound(c, p, ys);
    SurvivorAttains(c, ys, sel, t);
  }
}
