/** The 16-bit metric arithmetic of src/conv_gen.h refines the exact recursion:
    for the soft bits the depuncturers produce, no stored metric ever wraps and
    normalisation only subtracts a common offset. */
module Metrics {
  import opened Arith
  import opened Trellis

  // Storing an int in an int16_t.
  function Wrap16(x: int): int {
    if -32768 <= x < 32768 then x else (x + 32768) % 65536 - 32768
  }

  // Steps between normalisations: 32767 / (3 * 127) is 86.
  function Interval(c: Code): (i: nat)
    requires c.k <= 9
    ensures i >= 77
  {
    32767 / (3 * 127) - c.k
  }

  function MinUpTo(s: seq<int>, n: nat): (m: int)
    requires 1 <= n <= |s|
    ensures forall i :: 0 <= i < n ==> m <= s[i]
    ensures exists i :: 0 <= i < n && m == s[i]
  {
    if n == 1 then s[0]
    else
      var m := MinUpTo(s, n - 1);
      if s[n - 1] < m then s[n - 1] else m
  }

  function Min(s: seq<int>): int
    requires |s| > 0
  {
    MinUpTo(s, |s|)
  }

  // ---------- the machine ----------

  // new_sums: the winning candidate of each state, truncated to 16 bits.
  function RawUpTo(c: Code, sums: seq<int>, y: Soft, n: nat): (r: seq<int>)
    requires |c.g| == 3 && Sized(c, sums) && n <= c.NumStates()
    ensures |r| == n
    decreases n, c, sums, y
  {
    if n == 0 then []
    else RawUpTo(c, sums, y, n - 1) + [Wrap16(Max(Candidate(c, sums, y, n - 1, 0), Candidate(c, sums, y, n - 1, 1)))]
  }

  lemma {:induction false} RawAt(c: Code, sums: seq<int>, y: Soft, n: nat, t: nat)
    requires |c.g| == 3 && Sized(c, sums) && t < n <= c.NumStates()
    ensures RawUpTo(c, sums, y, n)[t] == Wrap16(Max(Candidate(c, sums, y, t, 0), Candidate(c, sums, y, t, 1)))
  {
    if t < n - 1 { RawAt(c, sums, y, n - 1, t); }
  }

  function SelectUpTo(c: Code, sums: seq<int>, y: Soft, n: nat): (r: seq<nat>)
    requires |c.g| == 3 && Sized(c, sums) && n <= c.NumStates()
    ensures |r| == n && forall t :: 0 <= t < n ==> r[t] == Select(c, sums, y, t)
    decreases n, c, sums, y
  {
    if n == 0 then [] else SelectUpTo(c, sums, y, n - 1) + [Select(c, sums, y, n - 1)]
  }

  function Lower(s: seq<int>, m: int): (r: seq<int>)
    ensures |r| == |s| && forall i :: 0 <= i < |s| ==> r[i] == Wrap16(s[i] - m)
  {
    if |s| == 0 then [] else Lower(s[..|s| - 1], m) + [Wrap16(s[|s| - 1] - m)]
  }

  function MachineStep(c: Code, sums: seq<int>, y: Soft, norm: bool): (r: seq<int>)
    requires |c.g| == 3 && Sized(c, sums)
    ensures |r| == c.NumStates()
  {
    var raw := RawUpTo(c, sums, y, c.NumStates());
    if norm then Lower(raw, Min(raw)) else raw
  }

  // The stored metrics and selections after all of ys.
  function Run(c: Code, ys: seq<Soft>): (r: seq<int>)
    requires |c.g| == 3 && c.k <= 9
    ensures |r| == c.NumStates()
    decreases |ys|
  {
    if |ys| == 0 then seq(c.NumStates(), _ => 0)
    else MachineStep(c, Run(c, ys[..|ys| - 1]), ys[|ys| - 1], (|ys| - 1) % Interval(c) == 0)
  }

  function RunSelect(c: Code, ys: seq<Soft>): (r: seq<seq<nat>>)
    requires |c.g| == 3 && c.k <= 9
    ensures |r| == |ys|
    ensures forall i :: 0 <= i < |r| ==> |r[i]| == c.NumStates() && forall s :: 0 <= s < |r[i]| ==> r[i][s] < 2
    decreases |ys|
  {
    if |ys| == 0 then []
    else RunSelect(c, ys[..|ys| - 1]) + [SelectUpTo(c, Run(c, ys[..|ys| - 1]), ys[|ys| - 1], c.NumStates())]
  }

  // ---------- growth of the exact metrics ----------

  lemma Opposite(c: Code, y: Soft, t: nat)
    requires c.Valid() && t < c.NumStates()
    ensures Corr(c, y, 2 * t + 1) == -Corr(c, y, 2 * t)
  {
    if 2 * t < c.NumStates() {
      Antipodal(c, y, 2 * t);
    } else {
      Antipodal(c, y, 2 * t - c.NumStates());
    }
  }

  // The smallest metric never decreases.
  lemma FloorHolds(c: Code, sums: seq<int>, y: Soft, t: nat, low: int)
    requires c.Valid() && Sized(c, sums) && t < c.NumStates()
    requires forall s :: 0 <= s < |sums| ==> low <= sums[s]
    ensures low <= Advance(c, sums, y)[t]
  {
    AdvanceAt(c, sums, y, c.NumStates(), t);
    Opposite(c, y, t);
    EdgePred(c, 0, t);
  }

  // No metric grows by more than the amplitude of the step.
  lemma CeilingHolds(c: Code, sums: seq<int>, y: Soft, t: nat, high: int)
    requires c.Valid() && Sized(c, sums) && t < c.NumStates()
    requires forall s :: 0 <= s < |sums| ==> sums[s] <= high
    ensures Advance(c, sums, y)[t] <= high + Amp(y)
  {
    AdvanceAttains(c, sums, y, t);
    EdgePred(c, 0, t);
    CorrBound(c, y, 2 * t + Select(c, sums, y, t));
  }

  function SumAmp(ys: seq<Soft>, a: nat, b: nat): nat
    requires a <= b <= |ys|
  {
    if a == b then 0 else SumAmp(ys, a, b - 1) + Amp(ys[b - 1])
  }

  lemma IdealStep(c: Code, ys: seq<Soft>, n: nat)
    requires |c.g| == 3 && n < |ys|
    ensures Ideal(c, ys[..n + 1]) == Advance(c, Ideal(c, ys[..n]), ys[n])
  {
    assert ys[..n + 1][..n] == ys[..n];
  }

  lemma {:induction false} Ceiling(c: Code, ys: seq<Soft>, a: nat, b: nat, high: int)
    requires c.Valid() && a <= b <= |ys|
    requires forall s :: 0 <= s < c.NumStates() ==> Ideal(c, ys[..a])[s] <= high
    ensures forall s :: 0 <= s < c.NumStates() ==> Ideal(c, ys[..b])[s] <= high + SumAmp(ys, a, b)
    decreases b
  {
    if a < b {
      Ceiling(c, ys, a, b - 1, high);
      IdealStep(c, ys, b - 1);
      forall s | 0 <= s < c.NumStates() ensures Ideal(c, ys[..b])[s] <= high + SumAmp(ys, a, b) {
        CeilingHolds(c, Ideal(c, ys[..b - 1]), ys[b - 1], s, high + SumAmp(ys, a, b - 1));
      }
    }
  }

  lemma {:induction false} Floor(c: Code, ys: seq<Soft>, a: nat, b: nat, low: int)
    requires c.Valid() && a <= b <= |ys|
    requires forall s :: 0 <= s < c.NumStates() ==> low <= Ideal(c, ys[..a])[s]
    ensures forall s :: 0 <= s < c.NumStates() ==> low <= Ideal(c, ys[..b])[s]
    decreases b
  {
    if a < b {
      Floor(c, ys, a, b - 1, low);
      IdealStep(c, ys, b - 1);
      forall s | 0 <= s < c.NumStates() ensures low <= Ideal(c, ys[..b])[s] {
        FloorHolds(c, Ideal(c, ys[..b - 1]), ys[b - 1], s, low);
      }
    }
  }

  // ---------- every state is k-1 steps from every other ----------

  // Walking back from u, restoring the dropped bits of x from the top.
  function Back(c: Code, u: nat, x: nat, d: nat): (r: nat)
    requires d <= c.k - 1
  {
    if d == 0 then u else Pred(c, Back(c, u, x, d - 1), (x / Pow2(c.k - 1 - d)) % 2)
  }

  // One more bit of x arrives at the bottom of the register.
  lemma ShiftIn(r: nat, h: nat, p: nat, e: nat, y: nat)
    requires p > 0 && e > 0 && h == p * e && r % p == y / 2
    ensures h > 0 && (2 * (r % h) + y % 2) % (2 * p) == y
  {
    ModOfMod(r, p, e, h);
    var t := r % h;
    assert t == p * (t / p) + t % p;
    assert 2 * (p * (t / p)) == (2 * p) * (t / p);
    DivUnique(2 * t + y % 2, 2 * p, t / p, y);
  }

  lemma {:induction false} BackBits(c: Code, u: nat, x: nat, d: nat)
    requires c.Valid() && d <= c.k - 1 && x < c.NumStates()
    ensures Back(c, u, x, d) % Pow2(d) == x / Pow2(c.k - 1 - d)
  {
    Powers();
    if d > 0 {
      BackBits(c, u, x, d - 1);
      var e := c.k - 1 - d;
      Pow2Add(d - 1, e);
      DivDiv(x, Pow2(e));
      ShiftIn(Back(c, u, x, d - 1), c.Half(), Pow2(d - 1), Pow2(e), x / Pow2(e));
    }
  }

  // After k-1 steps only the bits of x are left.
  lemma BackArrives(c: Code, u: nat, x: nat)
    requires c.Valid() && x < c.NumStates() && u < c.NumStates()
    ensures Back(c, u, x, c.k - 1) == x
  {
    var r := Back(c, u, x, c.k - 1);
    assert r % Pow2(c.k - 1) == x by {
      BackBits(c, u, x, c.k - 1);
      assert Pow2(0) == 1;
    }
    BackSmall(c, u, x, c.k - 1);
    Powers();
    assert Pow2(c.k - 1) == c.NumStates();
  }

  lemma {:induction false} BackSmall(c: Code, u: nat, x: nat, d: nat)
    requires c.Valid() && d <= c.k - 1 && u < c.NumStates()
    ensures Back(c, u, x, d) < c.NumStates()
  {
    if d > 0 {
      BackSmall(c, u, x, d - 1);
      EdgePred(c, 0, Back(c, u, x, d - 1));
    }
  }

  // d steps can lower a metric by at most their total amplitude.
  lemma {:induction false} BackDrop(c: Code, ys: seq<Soft>, n: nat, u: nat, x: nat, d: nat)
    requires c.Valid() && d <= c.k - 1 && d <= n <= |ys| && u < c.NumStates()
    ensures Back(c, u, x, d) < c.NumStates()
    ensures Ideal(c, ys[..n])[u] >= Ideal(c, ys[..n - d])[Back(c, u, x, d)] - SumAmp(ys, n - d, n)
    decreases d
  {
    if d > 0 {
      var r, m := Back(c, u, x, d - 1), Back(c, u, x, d);
      BackDrop(c, ys, n, u, x, d - 1);
      EdgePred(c, 0, r);
      var k := n - d;
      IdealStep(c, ys, k);
      EdgePred(c, m, r);
      AdvanceBeats(c, Ideal(c, ys[..k]), ys[k], m, r);
      CorrBound(c, ys[k], 2 * r + m % 2);
      SumAmpSplit(ys, k, k + 1, n);
      assert SumAmp(ys, k, k + 1) == Amp(ys[k]);
    }
  }

  lemma {:induction false} SumAmpSplit(ys: seq<Soft>, a: nat, b: nat, e: nat)
    requires a <= b <= e <= |ys|
    ensures SumAmp(ys, a, e) == SumAmp(ys, a, b) + SumAmp(ys, b, e)
  {
    if b < e { SumAmpSplit(ys, a, b, e - 1); }
  }

  // Any two metrics differ by at most twice the amplitude of the last k-1 steps.
  lemma Spread(c: Code, ys: seq<Soft>, n: nat, u: nat, v: nat)
    requires c.Valid() && n <= |ys| && u < c.NumStates() && v < c.NumStates()
    ensures var a := if n < c.k - 1 then 0 else n - (c.k - 1);
      Ideal(c, ys[..n])[v] - Ideal(c, ys[..n])[u] <= 2 * SumAmp(ys, a, n)
  {
    if n < c.k - 1 {
      assert ys[..0] == [];
      Ceiling(c, ys, 0, n, 0);
      Floor(c, ys, 0, n, 0);
    } else {
      var a := n - (c.k - 1);
      var x := Argmax(Ideal(c, ys[..a]));
      BackArrives(c, u, x);
      BackDrop(c, ys, n, u, x, c.k - 1);
      Ceiling(c, ys, a, n, Ideal(c, ys[..a])[x]);
    }
  }

  function Argmax(s: seq<int>): (x: nat)
    requires |s| > 0
    ensures x < |s| && forall i :: 0 <= i < |s| ==> s[i] <= s[x]
  {
    if |s| == 1 then 0
    else
      var m := Argmax(s[..|s| - 1]);
      assert forall i :: 0 <= i < |s| - 1 ==> s[..|s| - 1][i] == s[i];
      if s[|s| - 1] > s[m] then |s| - 1 else m
  }
}
