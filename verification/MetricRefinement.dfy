/** Stored 16-bit metrics equal the exact ones up to the subtracted minimum, so
    the selections are those of the exact recursion. */
module MetricRefinement {
  import opened Arith
  import opened Trellis
  import opened Metrics

  // What demodulation and depuncturing guarantee: soft bits within +-127, and at
  // least one punctured position in any two consecutive steps.
  ghost predicate Bounded(ys: seq<Soft>) {
    && (forall i :: 0 <= i < |ys| ==> Amp(ys[i]) <= 3 * 127)
    && (forall i :: 0 <= i < |ys| - 1 ==> Amp(ys[i]) + Amp(ys[i + 1]) <= 5 * 127)
  }

  lemma {:induction false} SumAmpBound(ys: seq<Soft>, a: nat, b: nat)
    requires Bounded(ys) && a <= b <= |ys|
    ensures SumAmp(ys, a, b) <= ((b - a) / 2) * 635 + ((b - a) % 2) * 381
    decreases b - a
  {
    if b - a >= 2 {
      SumAmpBound(ys, a, b - 2);
      assert SumAmp(ys, a, b) == SumAmp(ys, a, b - 2) + Amp(ys[b - 2]) + Amp(ys[b - 1]);
      assert Amp(ys[b - 2]) + Amp(ys[b - 2 + 1]) <= 635;
    } else if b - a == 1 {
      assert SumAmp(ys, a, b) == SumAmp(ys, a, a) + Amp(ys[a]);
    }
  }

  // Steps completed when the metrics were last normalised, n steps in.
  function Base(c: Code, n: nat): (b: nat)
    requires c.Valid()
    ensures n > 0 ==> 1 <= b <= n < b + Interval(c)
    ensures n == 0 ==> b == 0
  {
    if n == 0 then 0 else n - (n - 1) % Interval(c)
  }

  function Offset(c: Code, ys: seq<Soft>): int
    requires c.Valid()
  {
    if |ys| == 0 then 0 else Min(Ideal(c, ys[..Base(c, |ys|)]))
  }

  // The stored metrics after the first n values.
  ghost predicate Refined(c: Code, ys: seq<Soft>, n: nat)
    requires c.Valid() && n <= |ys|
  {
    forall s :: 0 <= s < c.NumStates() ==> Run(c, ys[..n])[s] == Ideal(c, ys[..n])[s] - Offset(c, ys[..n])
  }

  // The exact metrics stay above the offset and within 16 bits of it, up to and
  // including the step that normalises again.
  lemma Headroom(c: Code, ys: seq<Soft>, n: nat, t: nat)
    requires c.Valid() && Bounded(ys) && n < |ys| && t < c.NumStates()
    ensures 0 <= Ideal(c, ys[..n + 1])[t] - Offset(c, ys[..n]) <= 32767
  {
    var b := Base(c, n);
    var a := if b < c.k - 1 then 0 else b - (c.k - 1);
    var base := Ideal(c, ys[..b]);
    assert ys[..n][..b] == ys[..b];
    assert ys[..0] == [];
    var low := Offset(c, ys[..n]);
    var u :| 0 <= u < |base| && base[u] == low;
    forall s | 0 <= s < c.NumStates() ensures low <= base[s] <= low + 2 * SumAmp(ys, a, b) {
      Spread(c, ys, b, u, s);
    }
    Floor(c, ys, b, n + 1, low);
    Ceiling(c, ys, b, n + 1, low + 2 * SumAmp(ys, a, b));
    SumAmpBound(ys, a, b);
    SumAmpBound(ys, b, n + 1);
    BudgetFits(c, b - a, n + 1 - b);
  }

  lemma BudgetFits(c: Code, d: nat, e: nat)
    requires c.Valid() && d <= c.k - 1 && e <= Interval(c)
    ensures 2 * ((d / 2) * 635 + (d % 2) * 381) + ((e / 2) * 635 + (e % 2) * 381) <= 32767
  {
    assert (d % 2) * 381 <= 381 && (e % 2) * 381 <= 381;
    if c.k == 7 {
      assert d / 2 <= 3 && e / 2 <= 39;
    } else {
      assert d / 2 <= 4 && e / 2 <= 38;
    }
  }

  lemma WrapFits(x: int)
    requires -32768 <= x <= 32767
    ensures Wrap16(x) == x
  {
  }

  lemma CandidateShift(c: Code, sums: seq<int>, exact: seq<int>, off: int, y: Soft, t: nat)
    requires c.Valid() && Sized(c, sums) && Sized(c, exact) && t < c.NumStates()
    requires forall s :: 0 <= s < c.NumStates() ==> sums[s] == exact[s] - off
    ensures forall p: nat :: p < 2 ==> Candidate(c, sums, y, t, p) == Candidate(c, exact, y, t, p) - off
  {
    EdgePred(c, 0, t);
  }

  // One step before normalisation: no new metric wraps.
  lemma RawRefined(c: Code, ys: seq<Soft>, n: nat, t: nat)
    requires c.Valid() && Bounded(ys) && n < |ys| && Refined(c, ys, n) && t < c.NumStates()
    ensures RawUpTo(c, Run(c, ys[..n]), ys[n], c.NumStates())[t] == Ideal(c, ys[..n + 1])[t] - Offset(c, ys[..n])
  {
    var sums, exact, off := Run(c, ys[..n]), Ideal(c, ys[..n]), Offset(c, ys[..n]);
    CandidateShift(c, sums, exact, off, ys[n], t);
    RawAt(c, sums, ys[n], c.NumStates(), t);
    AdvanceAt(c, exact, ys[n], c.NumStates(), t);
    IdealStep(c, ys, n);
    Headroom(c, ys, n, t);
    WrapFits(Ideal(c, ys[..n + 1])[t] - off);
  }

  lemma BaseStep(c: Code, n: nat)
    requires c.Valid()
    ensures n % Interval(c) == 0 ==> Base(c, n + 1) == n + 1
    ensures n % Interval(c) != 0 ==> Base(c, n + 1) == Base(c, n) && n > 0
  {
    var i := Interval(c);
    if n % i != 0 {
      assert n > 0;
      var q := n / i;
      assert n == i * q + n % i;
      DivUnique(n - 1, i, q, n % i - 1);
    }
  }

  lemma MinShift(s: seq<int>, raw: seq<int>, off: int)
    requires |s| == |raw| > 0 && forall t :: 0 <= t < |s| ==> raw[t] == s[t] - off
    ensures Min(raw) == Min(s) - off
  {
  }

  lemma RunStep(c: Code, ys: seq<Soft>, n: nat)
    requires |c.g| == 3 && c.k <= 9 && n < |ys|
    ensures Run(c, ys[..n + 1]) == MachineStep(c, Run(c, ys[..n]), ys[n], n % Interval(c) == 0)
  {
    assert ys[..n + 1][..n] == ys[..n];
  }

  lemma OffsetStep(c: Code, ys: seq<Soft>, n: nat)
    requires c.Valid() && n < |ys|
    ensures Offset(c, ys[..n + 1]) == if n % Interval(c) == 0 then Min(Ideal(c, ys[..n + 1])) else Offset(c, ys[..n])
  {
    BaseStep(c, n);
    if n % Interval(c) == 0 {
      assert ys[..n + 1][..n + 1] == ys[..n + 1];
    } else {
      assert ys[..n + 1][..Base(c, n)] == ys[..n][..Base(c, n)];
    }
  }

  lemma LowerRefined(raw: seq<int>, exact: seq<int>, off: int)
    requires |raw| == |exact| > 0
    requires forall t :: 0 <= t < |raw| ==> raw[t] == exact[t] - off && 0 <= raw[t] <= 32767
    ensures forall t :: 0 <= t < |raw| ==> Lower(raw, Min(raw))[t] == exact[t] - Min(exact)
  {
    MinShift(exact, raw, off);
    forall t | 0 <= t < |raw| ensures Lower(raw, Min(raw))[t] == exact[t] - Min(exact) {
      WrapFits(raw[t] - Min(raw));
    }
  }

  lemma StepRefined(c: Code, ys: seq<Soft>, n: nat)
    requires c.Valid() && Bounded(ys) && n < |ys| && Refined(c, ys, n)
    ensures Refined(c, ys, n + 1)
  {
    var exact, off := Ideal(c, ys[..n + 1]), Offset(c, ys[..n]);
    var raw := RawUpTo(c, Run(c, ys[..n]), ys[n], c.NumStates());
    forall t | 0 <= t < c.NumStates() ensures raw[t] == exact[t] - off && 0 <= raw[t] <= 32767 {
      RawRefined(c, ys, n, t);
      Headroom(c, ys, n, t);
    }
    RunStep(c, ys, n);
    OffsetStep(c, ys, n);
    if n % Interval(c) == 0 { LowerRefined(raw, exact, off); }
  }

  // The 16-bit metrics are the exact ones minus the offset.
  lemma {:induction false} MachineRefinesIdeal(c: Code, ys: seq<Soft>, n: nat)
    requires c.Valid() && Bounded(ys) && n <= |ys|
    ensures Refined(c, ys, n)
  {
    if n == 0 {
      assert ys[..0] == [];
    } else {
      MachineRefinesIdeal(c, ys, n - 1);
      StepRefined(c, ys, n - 1);
    }
  }

  lemma SelectRefined(c: Code, sums: seq<int>, exact: seq<int>, off: int, y: Soft, t: nat)
    requires c.Valid() && Sized(c, sums) && Sized(c, exact) && t < c.NumStates()
    requires forall s :: 0 <= s < c.NumStates() ==> sums[s] == exact[s] - off
    ensures Select(c, sums, y, t) == Select(c, exact, y, t)
  {
    CandidateShift(c, sums, exact, off, y, t);
  }

  lemma {:induction false} RunSelectAt(c: Code, ys: seq<Soft>, i: nat)
    requires |c.g| == 3 && c.k <= 9 && i < |ys|
    ensures RunSelect(c, ys)[i] == SelectUpTo(c, Run(c, ys[..i]), ys[i], c.NumStates())
    decreases |ys|
  {
    var n := |ys| - 1;
    if i < n {
      RunSelectAt(c, ys[..n], i);
      assert ys[..n][..i] == ys[..i];
    }
  }

  // Normalisation and 16-bit storage change no selection.
  lemma SelectionsRefined(c: Code, ys: seq<Soft>)
    requires c.Valid() && Bounded(ys)
    ensures Selections(c, ys, RunSelect(c, ys))
  {
    forall i | 0 <= i < |ys|
      ensures forall s :: 0 <= s < c.NumStates() ==> RunSelect(c, ys)[i][s] == Select(c, Ideal(c, ys[..i]), ys[i], s)
    {
      RunSelectAt(c, ys, i);
      MachineRefinesIdeal(c, ys, i);
      forall s | 0 <= s < c.NumStates()
        ensures RunSelect(c, ys)[i][s] == Select(c, Ideal(c, ys[..i]), ys[i], s)
      {
        SelectRefined(c, Run(c, ys[..i]), Ideal(c, ys[..i]), Offset(c, ys[..i]), ys[i], s);
      }
    }
  }

  // Stored metrics are never negative, so the search for the best end state
  // always finds one.
  lemma StoredNonnegative(c: Code, ys: seq<Soft>, s: nat)
    requires c.Valid() && Bounded(ys) && s < c.NumStates()
    ensures 0 <= Run(c, ys)[s] <= 32767
  {
    var n := |ys|;
    assert ys[..n] == ys;
    MachineRefinesIdeal(c, ys, n);
    if n > 0 {
      Headroom(c, ys, n - 1, s);
      OffsetStep(c, ys, n - 1);
      if (n - 1) % Interval(c) == 0 {
        var m := LeastState(Ideal(c, ys));
        Headroom(c, ys, n - 1, m);
      }
    }
  }

  lemma LeastState(exact: seq<int>) returns (m: nat)
    requires |exact| > 0
    ensures m < |exact| && exact[m] == Min(exact)
  {
    m :| m < |exact| && Min(exact) == exact[m];
  }
}
