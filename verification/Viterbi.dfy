/** The tail-biting Viterbi decoder (src/conv_dec.c, scalar form of
    src/conv_gen.h), proved to compute the machine of module Metrics and to
    deliver the bits of its best path. */
module Viterbi {
  import opened Arith
  import opened Trellis
  import opened Metrics
  import opened MetricRefinement

  const EXTRA := 32      // TAIL_BITING_EXTRA
  const EPROTO := 71

  // vstate_lshift: shift left, mask, insert the old bit.
  function VstateLshift(reg: nat, k: nat, val: nat): nat {
    if k == 5 then (2 * reg) % 16 + val
    else if k == 7 then (2 * reg) % 64 + val
    else if k == 9 then (2 * reg) % 256 + val
    else val
  }

  lemma DoubleMod(reg: nat, h: nat)
    requires h > 0
    ensures (2 * reg) % (2 * h) == 2 * (reg % h)
  {
    var q, r := reg / h, reg % h;
    assert reg == h * q + r;
    assert 2 * (h * q) == (2 * h) * q;
    DivUnique(2 * reg, 2 * h, q, 2 * r);
  }

  lemma LshiftIsPred(c: Code, reg: nat, val: nat)
    requires c.Valid()
    ensures VstateLshift(reg, c.k, val) == Pred(c, reg, val)
  {
    if c.k == 7 { DoubleMod(reg, 32); } else { DoubleMod(reg, 128); }
  }

  // ---------- the trellis tables ----------

  ghost predicate Outputs(c: Code, outputs: seq<int>) {
    && |c.g| == 3 && |outputs| == 4 * c.NumStates()
    && forall i, j :: 0 <= i < c.NumStates() && 0 <= j < 3 ==> outputs[4 * i + j] == Out(c, 2 * i, j)
  }

  ghost predicate Vals(c: Code, vals: seq<int>) {
    |vals| == c.NumStates() && forall i :: 0 <= i < c.NumStates() ==> vals[i] == i / c.Half()
  }

  // gen_state_info: the input bit that leads to reg, and the register before it.
  method GenStateInfo(c: Code, reg: nat) returns (val: nat, prev: nat)
    requires c.Valid() && reg < c.NumStates()
    ensures val == reg / c.Half() && prev == 2 * reg
  {
    prev := VstateLshift(reg, c.k, 0);
    val := (reg / c.Half()) % 2;
    prev := prev + val * c.NumStates();
    if c.k == 7 { RegisterBits(reg, 32); } else { RegisterBits(reg, 128); }
  }

  lemma RegisterBits(reg: nat, h: nat)
    requires h > 0 && reg < 2 * h
    ensures (reg / h) % 2 == reg / h && (2 * reg) % (2 * h) + (reg / h) * (2 * h) == 2 * reg
  {
    DoubleMod(reg, h);
    if reg < h { DivUnique(reg, h, 0, reg); } else { DivUnique(reg, h, 1, reg - h); }
  }

  method GenerateTrellis(c: Code) returns (outputs: array<int>, vals: array<int>)
    requires c.Valid()
    ensures fresh(outputs) && fresh(vals)
    ensures Outputs(c, outputs[..]) && Vals(c, vals[..])
  {
    outputs := new int[4 * c.NumStates()](_ => 0);
    vals := new int[c.NumStates()](_ => 0);
    var i := 0;
    while i < c.NumStates()
      invariant 0 <= i <= c.NumStates()
      invariant forall s, j :: 0 <= s < i && 0 <= j < 3 ==> outputs[4 * s + j] == Out(c, 2 * s, j)
      invariant forall s :: 0 <= s < i ==> vals[s] == s / c.Half()
    {
      var val, prev := GenStateInfo(c, i);
      vals[i] := val;
      outputs[4 * i + 0] := if Parity(prev, c.g[0]) then 1 else -1;
      outputs[4 * i + 1] := if Parity(prev, c.g[1]) then 1 else -1;
      outputs[4 * i + 2] := if Parity(prev, c.g[2]) then 1 else -1;
      i := i + 1;
    }
  }

  // ---------- one trellis step ----------

  ghost predicate Int8(y: Soft) { forall j :: 0 <= j < 3 ==> -128 <= y[j] <= 127 }

  ghost predicate BranchMetrics(c: Code, y: Soft, ms: seq<int>) {
    |c.g| == 3 && |ms| == c.Half() && forall i: nat :: i < |ms| ==> ms[i] == Corr(c, y, 2 * i)
  }

  // _gen_branch_metrics_n3
  method GenBranchMetrics(c: Code, y: Soft, outputs: array<int>) returns (metrics: array<int>)
    requires c.Valid() && Outputs(c, outputs[..]) && Int8(y)
    ensures fresh(metrics) && BranchMetrics(c, y, metrics[..])
  {
    metrics := new int[c.Half()](_ => 0);
    var i := 0;
    while i < c.Half()
      invariant 0 <= i <= c.Half()
      invariant forall s :: 0 <= s < i ==> metrics[s] == Corr(c, y, 2 * s)
    {
      CorrSum(c, y, 2 * i);
      CorrBound(c, y, 2 * i);
      assert outputs[..][4 * i + 0] == Out(c, 2 * i, 0) && outputs[..][4 * i + 1] == Out(c, 2 * i, 1)
          && outputs[..][4 * i + 2] == Out(c, 2 * i, 2);
      metrics[i] := Wrap16(y[0] * outputs[4 * i + 0] + y[1] * outputs[4 * i + 1] + y[2] * outputs[4 * i + 2]);
      i := i + 1;
    }
  }

  lemma ButterflyStates(c: Code, i: nat)
    requires c.Valid() && i < c.Half()
    ensures 2 * c.Half() == c.NumStates()
    ensures Pred(c, i, 0) == 2 * i == Pred(c, i + c.Half(), 0)
    ensures Pred(c, i, 1) == 2 * i + 1 == Pred(c, i + c.Half(), 1)
  {
    if c.k == 7 {} else {}
  }

  // The two sums entering states i and i + Half: one metric serves all four.
  lemma Butterfly(c: Code, sums: seq<int>, y: Soft, i: nat, h: nat)
    requires c.Valid() && Sized(c, sums) && h == c.Half() && i < h
    ensures 2 * h == c.NumStates()
    ensures Candidate(c, sums, y, i, 0) == sums[2 * i] + Corr(c, y, 2 * i)
    ensures Candidate(c, sums, y, i, 1) == sums[2 * i + 1] - Corr(c, y, 2 * i)
    ensures Candidate(c, sums, y, i + h, 0) == sums[2 * i] - Corr(c, y, 2 * i)
    ensures Candidate(c, sums, y, i + h, 1) == sums[2 * i + 1] + Corr(c, y, 2 * i)
  {
    ButterflyStates(c, i);
    Antipodal(c, y, 2 * i);
    assert 2 * (i + h) == 2 * i + c.NumStates();
  }

  // raw and sel are what one step leaves: the winning sums, truncated, and the
  // selections.
  ghost predicate StepOf(c: Code, sums: seq<int>, y: Soft, raw: seq<int>, sel: seq<nat>) {
    && |c.g| == 3 && Sized(c, sums)
    && raw == RawUpTo(c, sums, y, c.NumStates())
    && sel == SelectUpTo(c, sums, y, c.NumStates())
  }

  // The step, read off the two sums that meet in each state of a butterfly.
  lemma ButterflyStep(c: Code, sums: seq<int>, y: Soft, raw: seq<int>, sel: seq<nat>, i: nat, h: nat)
    requires c.Valid() && StepOf(c, sums, y, raw, sel) && h == c.Half() && i < h
    ensures 2 * h == |sums| == |raw| == |sel|
    ensures var m, a, b := Corr(c, y, 2 * i), sums[2 * i], sums[2 * i + 1];
      && raw[i] == Wrap16(Max(a + m, b - m)) && sel[i] == (if a + m > b - m then 0 else 1)
      && raw[i + h] == Wrap16(Max(a - m, b + m)) && sel[i + h] == (if a - m > b + m then 0 else 1)
  {
    Butterfly(c, sums, y, i, h);
    RawAt(c, sums, y, c.NumStates(), i);
    RawAt(c, sums, y, c.NumStates(), i + h);
  }

  /** acs_butterfly: four sums from one metric, two selections stored as -1 or 0. */
  method AcsButterfly(state: nat, h: nat, metric: int, sums: array<int>, newSums: array<int>, path: array<int>)
    requires state < h && sums.Length == newSums.Length == path.Length == 2 * h
    requires newSums != sums && path != sums && newSums != path
    modifies newSums, path
    ensures var a, b := sums[2 * state], sums[2 * state + 1];
      && newSums[..] == old(newSums[..])[state := Wrap16(Max(a + metric, b - metric))]
                                        [state + h := Wrap16(Max(a - metric, b + metric))]
      && path[..] == old(path[..])[state := if a + metric > b - metric then -1 else 0]
                                  [state + h := if a - metric > b + metric then -1 else 0]
  {
    var state0, state1 := sums[2 * state], sums[2 * state + 1];
    var sum0, sum1 := state0 + metric, state1 - metric;
    var sum2, sum3 := state0 - metric, state1 + metric;
    if sum0 > sum1 {
      newSums[state], path[state] := Wrap16(sum0), -1;
    } else {
      newSums[state], path[state] := Wrap16(sum1), 0;
    }
    if sum2 > sum3 {
      newSums[state + h], path[state + h] := Wrap16(sum2), -1;
    } else {
      newSums[state + h], path[state + h] := Wrap16(sum3), 0;
    }
  }

  // The part of a step that i butterflies have produced.
  ghost predicate Partial(news: seq<int>, path: seq<int>, raw: seq<int>, sel: seq<nat>, i: nat, h: nat) {
    && |news| == |path| == |raw| == |sel| == 2 * h && i <= h
    && (forall s :: 0 <= s < i ==> news[s] == raw[s] && path[s] + 1 == sel[s])
    && (forall s :: h <= s < h + i ==> news[s] == raw[s] && path[s] + 1 == sel[s])
  }

  lemma PartialMore(news: seq<int>, path: seq<int>, raw: seq<int>, sel: seq<nat>, i: nat, h: nat)
    requires Partial(news, path, raw, sel, i, h) && i < h
    ensures Partial(news[i := raw[i]][i + h := raw[i + h]], path[i := sel[i] as int - 1][i + h := sel[i + h] as int - 1],
                    raw, sel, i + 1, h)
  {
  }

  // One turn of the loop of butterflies.
  method OneButterfly(c: Code, i: nat, h: nat, metric: int, sums: array<int>, newSums: array<int>, path: array<int>,
                      ghost y: Soft, ghost raw: seq<int>, ghost sel: seq<nat>)
    requires c.Valid() && h == c.Half() && i < h && sums.Length == newSums.Length == path.Length == 2 * h
    requires newSums != sums && path != sums && newSums != path
    requires StepOf(c, sums[..], y, raw, sel) && metric == Corr(c, y, 2 * i)
    requires Partial(newSums[..], path[..], raw, sel, i, h)
    modifies newSums, path
    ensures Partial(newSums[..], path[..], raw, sel, i + 1, h)
  {
    ButterflyStep(c, sums[..], y, raw, sel, i, h);
    PartialMore(newSums[..], path[..], raw, sel, i, h);
    ghost var news, rows := newSums[..], path[..];
    AcsButterfly(i, h, metric, sums, newSums, path);
    assert newSums[..] == news[i := raw[i]][i + h := raw[i + h]];
    assert path[..] == rows[i := sel[i] as int - 1][i + h := sel[i + h] as int - 1];
  }

  // The loop of butterflies in _gen_path_metrics.
  method Butterflies(c: Code, sums: array<int>, metrics: array<int>, path: array<int>,
                     ghost y: Soft, ghost raw: seq<int>, ghost sel: seq<nat>)
    returns (newSums: array<int>)
    requires c.Valid() && path.Length == c.NumStates() == |raw| == |sel|
    requires StepOf(c, sums[..], y, raw, sel) && path != sums && path != metrics
    requires BranchMetrics(c, y, metrics[..])
    modifies path
    ensures fresh(newSums) && newSums[..] == raw
    ensures forall s :: 0 <= s < c.NumStates() ==> path[s] + 1 == sel[s]
  {
    ButterflyStep(c, sums[..], y, raw, sel, 0, c.Half());
    var h := c.Half();
    newSums := new int[2 * h](_ => 0);
    var i := 0;
    while i < h
      invariant 0 <= i <= h
      invariant Partial(newSums[..], path[..], raw, sel, i, h)
    {
      assert metrics[i] == metrics[..][i];
      OneButterfly(c, i, h, metrics[i], sums, newSums, path, y, raw, sel);
      i := i + 1;
    }
  }

  // if (norm): subtract the smallest new sum from all of them.
  method Normalise(newSums: array<int>)
    requires newSums.Length > 0
    modifies newSums
    ensures newSums[..] == Lower(old(newSums[..]), Min(old(newSums[..])))
  {
    ghost var was := newSums[..];
    var min := newSums[0];
    var i := 1;
    while i < newSums.Length
      invariant 1 <= i <= newSums.Length
      invariant newSums[..] == was && min == MinUpTo(was, i)
    {
      if newSums[i] < min {
        min := newSums[i];
      }
      i := i + 1;
    }
    i := 0;
    while i < newSums.Length
      invariant 0 <= i <= newSums.Length
      invariant forall k :: 0 <= k < i ==> newSums[k] == Wrap16(was[k] - min)
      invariant forall k :: i <= k < newSums.Length ==> newSums[k] == was[k]
    {
      newSums[i] := Wrap16(newSums[i] - min);
      i := i + 1;
    }
  }

  /** _gen_path_metrics: the metrics become those of the machine, and the path
      row holds the selections, offset by one. */
  method GenPathMetrics(c: Code, sums: array<int>, metrics: array<int>, path: array<int>, norm: bool,
                        ghost y: Soft, ghost raw: seq<int>, ghost sel: seq<nat>)
    requires c.Valid() && path.Length == c.NumStates() == |raw| == |sel|
    requires StepOf(c, sums[..], y, raw, sel) && path != sums && path != metrics && sums != metrics
    requires BranchMetrics(c, y, metrics[..])
    modifies path, sums
    ensures sums[..] == if norm then Lower(raw, Min(raw)) else raw
    ensures forall s :: 0 <= s < c.NumStates() ==> path[s] + 1 == sel[s]
  {
    var newSums := Butterflies(c, sums, metrics, path, y, raw, sel);
    if norm {
      Normalise(newSums);
    }
    Copy(newSums, sums);
  }

  method Copy(from: array<int>, to: array<int>)
    requires from.Length == to.Length && from != to
    modifies to
    ensures to[..] == from[..]
  {
    var i := 0;
    while i < to.Length
      invariant 0 <= i <= to.Length
      invariant to[..i] == from[..i]
    {
      to[i] := from[i];
      i := i + 1;
    }
  }
}
