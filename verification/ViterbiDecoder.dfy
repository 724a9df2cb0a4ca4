/** Forward recursion, traceback and the decoder as a whole
    (src/conv_dec.c:297-453). */
module ViterbiDecoder {
  import opened Arith
  import opened Trellis
  import opened Metrics
  import opened MetricRefinement
  import opened Viterbi

  // The frame index visited at step i: the last 32 steps of the frame first, and
  // round again after the end.
  function Visit(len: nat, i: nat): (j: nat)
    requires EXTRA <= len
    ensures j < len
  {
    if i == 0 then (if EXTRA == len then 0 else len - EXTRA) else Next(len, Visit(len, i - 1))
  }

  function Next(len: nat, j: nat): nat { if j + 1 == len then 0 else j + 1 }

  lemma {:induction false} VisitIsModular(len: nat, i: nat)
    requires EXTRA <= len
    ensures Visit(len, i) == (len - EXTRA + i) % len
  {
    if i == 0 {
      if len == EXTRA { DivUnique(0, len, 0, 0); } else { DivUnique(len - EXTRA, len, 0, len - EXTRA); }
    } else {
      VisitIsModular(len, i - 1);
      NextIsModular(len, len - EXTRA + i - 1, Visit(len, i - 1));
    }
  }

  lemma NextIsModular(len: nat, n: nat, j: nat)
    requires len > 0 && j < len && j == n % len
    ensures Next(len, j) == (n + 1) % len
  {
    var q := n / len;
    assert n == len * q + j;
    if j + 1 == len {
      assert len * q + len == len * (q + 1);
      DivUnique(n + 1, len, q + 1, 0);
    } else {
      DivUnique(n + 1, len, q, j + 1);
    }
  }

  // The received triples in the order of the visits.
  function Wrapped(input: seq<int>, len: nat, n: nat): (ys: seq<Soft>)
    requires EXTRA <= len && |input| == 3 * len
    ensures |ys| == n
  {
    if n == 0 then []
    else var j := Visit(len, n - 1); Wrapped(input, len, n - 1) + [input[3 * j..3 * j + 3]]
  }

  lemma {:induction false} WrappedAt(input: seq<int>, len: nat, n: nat, i: nat)
    requires EXTRA <= len && |input| == 3 * len && i < n
    ensures var j := Visit(len, i); Wrapped(input, len, n)[i] == input[3 * j..3 * j + 3]
  {
    if i < n - 1 {
      WrappedAt(input, len, n - 1, i);
    }
  }

  // A stored path row: the selections, offset by one.
  ghost predicate RowIs(row: seq<int>, sel: seq<nat>) {
    |row| == |sel| && forall s :: 0 <= s < |row| ==> row[s] + 1 == sel[s]
  }

  ghost predicate Rows(paths: seq<array<int>>, sums: array<int>, ns: nat) {
    && (forall i :: 0 <= i < |paths| ==> paths[i].Length == ns && paths[i] != sums)
    && (forall i, j :: 0 <= i < j < |paths| ==> paths[i] != paths[j])
  }

  method AllocPaths(n: nat, ns: nat, sums: array<int>) returns (paths: seq<array<int>>)
    ensures |paths| == n && Rows(paths, sums, ns)
    ensures forall i :: 0 <= i < n ==> fresh(paths[i])
  {
    paths := [];
    var i := 0;
    while i < n
      invariant 0 <= i <= n == n && |paths| == i
      invariant Rows(paths, sums, ns)
      invariant forall k :: 0 <= k < i ==> fresh(paths[k])
    {
      var row := new int[ns];
      paths := paths + [row];
      i := i + 1;
    }
  }

  // One turn of the forward recursion.
  method Step(c: Code, y: Soft, outputs: array<int>, sums: array<int>, path: array<int>, norm: bool)
    requires c.Valid() && Int8(y) && Outputs(c, outputs[..]) && sums.Length == c.NumStates() == path.Length
    requires sums != path && outputs != path && outputs != sums
    modifies sums, path
    ensures sums[..] == MachineStep(c, old(sums[..]), y, norm)
    ensures RowIs(path[..], SelectUpTo(c, old(sums[..]), y, c.NumStates()))
  {
    ghost var raw := RawUpTo(c, sums[..], y, c.NumStates());
    ghost var sel := SelectUpTo(c, sums[..], y, c.NumStates());
    var metrics := GenBranchMetrics(c, y, outputs);
    GenPathMetrics(c, sums, metrics, path, norm, y, raw, sel);
  }

  // The same at step i of the run over ys.
  method StepAt(c: Code, y: Soft, i: nat, outputs: array<int>, sums: array<int>, path: array<int>,
                ghost ys: seq<Soft>, ghost sel: seq<seq<nat>>)
    requires c.Valid() && Int8(y) && Outputs(c, outputs[..]) && sums.Length == c.NumStates() == path.Length
    requires sums != path && outputs != path && outputs != sums
    requires i < |ys| && y == ys[i] && sel == RunSelect(c, ys) && sums[..] == Run(c, ys[..i])
    modifies sums, path
    ensures sums[..] == Run(c, ys[..i + 1])
    ensures RowIs(path[..], sel[i])
  {
    RunStep(c, ys, i);
    RunSelectAt(c, ys, i);
    Step(c, y, outputs, sums, path, i % Interval(c) == 0);
  }

  /** _conv_decode: the metrics and the path store are those of the machine. */
  method ConvDecode(c: Code, input: seq<int>, len: nat, outputs: array<int>, sums: array<int>, paths: seq<array<int>>, ghost ys: seq<Soft>)
    requires c.Valid() && EXTRA <= len && |input| == 3 * len && forall i :: 0 <= i < |input| ==> -128 <= input[i] <= 127
    requires |paths| == len + 2 * EXTRA && Rows(paths, sums, c.NumStates()) && sums.Length == c.NumStates()
    requires Outputs(c, outputs[..]) && outputs != sums && forall i :: 0 <= i < |paths| ==> paths[i] != outputs
    requires ys == Wrapped(input, len, |paths|)
    requires forall s :: 0 <= s < sums.Length ==> sums[s] == 0
    modifies sums, set i | 0 <= i < |paths| :: paths[i]
    ensures sums[..] == Run(c, ys)
    ensures forall i :: 0 <= i < |paths| ==> RowIs(paths[i][..], RunSelect(c, ys)[i])
  {
    ghost var sel := RunSelect(c, ys);
    var i: nat, j: nat := 0, len - EXTRA;
    assert sums[..] == Run(c, ys[..0]);
    while i < |paths|
      invariant 0 <= i <= |paths|
      invariant (if j == len then 0 else j) == Visit(len, i)
      invariant sums[..] == Run(c, ys[..i])
      invariant outputs[..] == old(outputs[..])
      invariant forall r :: 0 <= r < i ==> RowIs(paths[r][..], sel[r])
    {
      if j == len {
        j := 0;
      }
      var y := Triple(input, len, j, i, |paths|);
      StepAt(c, y, i, outputs, sums, paths[i], ys, sel);
      i, j := i + 1, j + 1;
    }
    assert ys[..|paths|] == ys;
  }

  // &seq[3 * j]
  method Triple(input: seq<int>, len: nat, j: nat, ghost i: nat, ghost n: nat) returns (y: Soft)
    requires EXTRA <= len && |input| == 3 * len && i < n
    requires j == Visit(len, i)
    requires forall k :: 0 <= k < |input| ==> -128 <= input[k] <= 127
    ensures y == Wrapped(input, len, n)[i] && Int8(y)
  {
    WrappedAt(input, len, n, i);
    y := input[3 * j..3 * j + 3];
  }

  // ---------- traceback ----------

  datatype Best = Best(max: int, previous: int, state: nat)

  // The scan for the best end state: the first maximum above -1.
  function Scan(sums: seq<int>, n: nat): (b: Best)
    requires n <= |sums|
    ensures b.state <= n && b.previous <= b.max && -1 <= b.max
    ensures forall s :: 0 <= s < n ==> sums[s] <= b.max
    ensures b.max >= 0 ==> b.state < n && sums[b.state] == b.max && b.previous < b.max
    ensures b.max < 0 <==> forall s :: 0 <= s < n ==> sums[s] < 0
  {
    if n == 0 then Best(-1, -1, 0)
    else
      var b := Scan(sums, n - 1);
      if sums[n - 1] > b.max then Best(sums[n - 1], b.max, n - 1) else b
  }

  method FindBest(sums: array<int>) returns (b: Best)
    ensures b == Scan(sums[..], sums.Length)
  {
    var max, previous, state := -1, -1, 0;
    var i := 0;
    while i < sums.Length
      invariant 0 <= i <= sums.Length
      invariant Scan(sums[..], i) == Best(max, previous, state)
    {
      var sum := sums[i];
      if sum > max {
        previous := max;
        max := sum;
        state := i;
      }
      i := i + 1;
    }
    b := Best(max, previous, state);
  }

  lemma {:induction false} SurvivorBack(c: Code, sel: seq<seq<nat>>, t: nat, i: nat)
    requires t < c.NumStates() && i < |sel|
    requires forall n :: 0 <= n < |sel| ==> |sel[n]| == c.NumStates() && forall s :: 0 <= s < |sel[n]| ==> sel[n][s] < 2
    ensures var p := Survivor(c, sel, t);
      p[i + 1] < c.NumStates() && p[i] == Pred(c, p[i + 1], sel[i][p[i + 1]]) && p[i] < c.NumStates()
    decreases |sel|
  {
    var n := |sel| - 1;
    var q := Pred(c, t, sel[n][t]);
    EdgePred(c, 0, t);
    if i < n {
      SurvivorBack(c, sel[..n], q, i);
      assert Survivor(c, sel, t)[..n + 1] == Survivor(c, sel[..n], q);
    }
  }

  // One step back along the stored selections.
  method StepBack(c: Code, row: array<int>, state: nat, ghost sel: seq<seq<nat>>, ghost t: nat, ghost i: nat) returns (before: nat)
    requires c.Valid() && t < c.NumStates() && i < |sel|
    requires forall n :: 0 <= n < |sel| ==> |sel[n]| == c.NumStates() && forall s :: 0 <= s < |sel[n]| ==> sel[n][s] < 2
    requires RowIs(row[..], sel[i]) && state == Survivor(c, sel, t)[i + 1]
    ensures before == Survivor(c, sel, t)[i] && before < c.NumStates()
  {
    SurvivorBack(c, sel, t, i);
    var path := row[state] + 1;
    assert path == sel[i][state] by { assert row[..][state] == row[state]; }
    LshiftIsPred(c, state, path);
    before := VstateLshift(state, c.k, path);
  }

  /** traceback: unless no metric is usable, the output bits are the bits that
      entered the survivor of the best end state, 32 steps in. */
  method Traceback(c: Code, sums: array<int>, paths: seq<array<int>>, vals: array<int>, len: nat, ghost sel: seq<seq<nat>>)
    returns (rc: int, out: array<int>)
    requires c.Valid() && sums.Length == c.NumStates() && Vals(c, vals[..])
    requires |paths| == |sel| == len + 2 * EXTRA
    requires forall n :: 0 <= n < |sel| ==> |sel[n]| == c.NumStates() && forall s :: 0 <= s < |sel[n]| ==> sel[n][s] < 2
    requires forall n :: 0 <= n < |sel| ==> RowIs(paths[n][..], sel[n])
    ensures fresh(out) && out.Length == len
    ensures var b := Scan(sums[..], sums.Length);
      if b.max < 0 then rc == -EPROTO
      else
        && rc == b.max - b.previous
        && forall i :: 0 <= i < len ==> out[i] == Survivor(c, sel, b.state)[i + EXTRA + 1] / c.Half()
  {
    out := new int[len](_ => 0);
    var b := FindBest(sums);
    if b.max < 0 {
      return -EPROTO, out;
    }
    ghost var p := Survivor(c, sel, b.state);
    var state := b.state;
    var i := |paths| - 1;
    while i >= len + EXTRA
      invariant len + EXTRA - 1 <= i < |paths|
      invariant state == p[i + 1] && state < c.NumStates()
    {
      state := StepBack(c, paths[i], state, sel, b.state, i);
      i := i - 1;
    }
    i := len - 1;
    while i >= 0
      invariant -1 <= i < len
      invariant state == p[i + EXTRA + 1] && state < c.NumStates()
      invariant forall k :: i < k < len ==> out[k] == p[k + EXTRA + 1] / c.Half()
      invariant vals[..] == old(vals[..])
      invariant forall n :: 0 <= n < |sel| ==> RowIs(paths[n][..], sel[n])
    {
      var before := StepBack(c, paths[i + EXTRA], state, sel, b.state, i + EXTRA);
      assert vals[..][state] == vals[state];
      out[i] := vals[state];
      state := before;
      i := i - 1;
    }
    rc := b.max - b.previous;
  }

  // ---------- the decoder ----------

  // p has the largest correlation with the received values of all paths.
  ghost predicate IsBest(c: Code, ys: seq<Soft>, p: seq<nat>) {
    && |c.g| == 3 && |p| == |ys| + 1 && IsPath(c, p)
    && forall q: seq<nat> :: |q| == |ys| + 1 && IsPath(c, q) ==> Weight(c, q, ys) <= Weight(c, p, ys)
  }

  lemma BestEndIsBest(c: Code, ys: seq<Soft>)
    requires c.Valid() && Bounded(ys)
    ensures var b := Scan(Run(c, ys), c.NumStates());
      b.max >= 0 && IsBest(c, ys, Survivor(c, RunSelect(c, ys), b.state))
  {
    var b := Scan(Run(c, ys), c.NumStates());
    StoredNonnegative(c, ys, 0);
    SelectionsRefined(c, ys);
    MachineRefinesIdeal(c, ys, |ys|);
    assert ys[..|ys|] == ys;
    SurvivorAttains(c, ys, RunSelect(c, ys), b.state);
    forall q: seq<nat> | |q| == |ys| + 1 && IsPath(c, q)
      ensures Weight(c, q, ys) <= Weight(c, Survivor(c, RunSelect(c, ys), b.state), ys)
    {
      SurvivorIsBest(c, ys, RunSelect(c, ys), b.state, q);
    }
  }

  // out holds the input bits of some best path, from step 32 on.
  ghost predicate MaximumLikelihood(c: Code, ys: seq<Soft>, out: seq<int>) {
    exists p: seq<nat> :: IsBest(c, ys, p) && BitsOf(c, p, out)
  }

  ghost predicate BitsOf(c: Code, p: seq<nat>, out: seq<int>) {
    && |p| > |out| + EXTRA
    && forall i :: 0 <= i < |out| ==> out[i] == p[i + EXTRA + 1] / c.Half()
  }

  /** nrsc5_conv_decode: for the soft bits the callers produce, the decoder never
      reports a protocol error, and its output is the middle of a maximum
      likelihood path over the wrapped frame. */
  method Decode(input: seq<int>, k: nat, len: nat, g: seq<nat>) returns (rc: int, out: array<int>)
    requires Code(k, g).Valid() && EXTRA <= len && |input| == 3 * len
    requires forall i :: 0 <= i < |input| ==> -128 <= input[i] <= 127
    ensures fresh(out) && out.Length == len
    ensures Bounded(Wrapped(input, len, len + 2 * EXTRA)) ==>
      rc > 0 && MaximumLikelihood(Code(k, g), Wrapped(input, len, len + 2 * EXTRA), out[..])
  {
    var c := Code(k, g);
    var outputs, vals := GenerateTrellis(c);
    var sums := new int[c.NumStates()](_ => 0);
    var paths := AllocPaths(len + 2 * EXTRA, c.NumStates(), sums);
    ghost var ys := Wrapped(input, len, len + 2 * EXTRA);
    ConvDecode(c, input, len, outputs, sums, paths, ys);
    rc, out := Traceback(c, sums, paths, vals, len, RunSelect(c, ys));
    if Bounded(ys) {
      BestEndIsBest(c, ys);
      ghost var p := Survivor(c, RunSelect(c, ys), Scan(Run(c, ys), c.NumStates()).state);
      assert IsBest(c, ys, p) && BitsOf(c, p, out[..]);
    }
  }
}
