/** Interleaver IV (src/decode.c:344-437, 556-562): one buffer that is read in
    permuted order while it is being refilled in sequential order. */
module InterleaverIv {
  import opened Basics
  import opened Arith
  import RoundTrip
  import ConvFrames

  // ---------- geometry ----------

  // Frames of 4608 bits use four partitions, frames of 2304 bits two.
  const WIDE_LEN := 4608
  const ROW_BITS := 1152        // 32 rows of 36 columns

  function J(wide: bool): nat { if wide then 4 else 2 }

  function M(wide: bool): nat { if wide then 2 else 4 }

  function N(wide: bool): (n: nat)
    ensures n == 32 * ROW_BITS * J(wide)
  {
    if wide then 147456 else 73728
  }

  // The partition of step t, as src/decode.c:364 computes it.
  function PartitionFormula(wide: bool, t: nat): nat { ((t + 2 * (M(wide) / 4)) / M(wide)) % J(wide) }

  // How many of the first t steps went to partition p.
  function CountFormula(wide: bool, p: nat, t: nat): nat {
    var v := t % 8;
    if wide then 2 * (t / 8) + (if v < 2 * p then 0 else if v < 2 * p + 2 then v - 2 * p else 2)
    else if p == 0 then 4 * (t / 8) + (if v < 2 then v else if v < 6 then 2 else v - 4)
    else 4 * (t / 8) + (if v < 2 then 0 else if v < 6 then v - 2 else 4)
  }

  function Count(wide: bool, p: nat, t: nat): nat
  {
    SealedCount(SEALS, wide, p, t)
  }

  function SealedCount(seals: seq<bool>, wide: bool, p: nat, t: nat): nat
  {
    if |seals| > 0 then SealedCount(seals[1..], wide, p, t) else CountFormula(wide, p, t)
  }

  lemma {:induction false} OpenCount(seals: seq<bool>, wide: bool, p: nat, t: nat)
    ensures SealedCount(seals, wide, p, t) == CountFormula(wide, p, t)
  {
    if |seals| > 0 { OpenCount(seals[1..], wide, p, t); }
  }

  function Partition(wide: bool, t: nat): nat
  {
    SealedPartition(SEALS, wide, t)
  }

  function SealedPartition(seals: seq<bool>, wide: bool, t: nat): nat
  {
    if |seals| > 0 then SealedPartition(seals[1..], wide, t) else PartitionFormula(wide, t)
  }

  lemma {:induction false} OpenPartition(seals: seq<bool>, wide: bool, t: nat)
    ensures SealedPartition(seals, wide, t) == PartitionFormula(wide, t)
  {
    if |seals| > 0 { OpenPartition(seals[1..], wide, t); }
  }

  lemma CountStep(wide: bool, p: nat, t: nat)
    requires p < J(wide)
    ensures Count(wide, p, t + 1) == Count(wide, p, t) + if p == Partition(wide, t) then 1 else 0
    ensures Count(wide, p, 0) == 0
  {
    OpenCount(SEALS, wide, p, t);
    OpenCount(SEALS, wide, p, t + 1);
    OpenCount(SEALS, wide, p, 0);
    var u, v := t / 8, t % 8;
    assert t == 8 * u + v;
    if v == 7 { assert (t + 1) / 8 == u + 1 && (t + 1) % 8 == 0; } else { assert (t + 1) / 8 == u && (t + 1) % 8 == v + 1; }
    PartitionIs(wide, t);
  }

  // The partition depends on the position in a cycle of eight steps.
  lemma PartitionIs(wide: bool, t: nat)
    ensures Partition(wide, t) == if wide then (t % 8) / 2 else if t % 8 < 2 || t % 8 >= 6 then 0 else 1
  {
    OpenPartition(SEALS, wide, t);
    var u, v := t / 8, t % 8;
    if wide {
      DivUnique(t, 2, 4 * u + v / 2, v % 2);
      DivUnique(t / 2, 4, u, v / 2);
    } else {
      DivUnique(t + 2, 4, 2 * u + (v + 2) / 4, (v + 2) % 4);
      if v < 6 {
        DivUnique((t + 2) / 4, 2, u, (v + 2) / 4);
      } else {
        DivUnique((t + 2) / 4, 2, u + 1, 0);
      }
    }
  }

  // The cell read for number n of partition p, as src/decode.c:366-369 computes it.
  function Cell(wide: bool, p: nat, n: nat): nat {
    var block := (n + p * 7 - (ROW_BITS - 1) * (n / ROW_BITS)) % 32;
    var row := ((11 * n) % ROW_BITS) / 36;
    var column := (n * 11) % 36;
    (block * 32 + row) * (J(wide) * 36) + p * 36 + column
  }

  function AddressFormula(wide: bool, t: nat): nat { Cell(wide, Partition(wide, t), Count(wide, Partition(wide, t), t)) }

  // ---------- the permutation ----------

  // The cells that the first steps read, by partition and number.
  lemma FirstCellsWide()
    ensures Cell(true, 0, 0) == 0 && Cell(true, 0, 1) == 4619 && Cell(true, 0, 2) == 9238
    ensures Cell(true, 1, 0) == 32292 && Cell(true, 1, 1) == 36911
    ensures Cell(true, 2, 0) == 64584 && Cell(true, 3, 0) == 96876 && Cell(true, 3, 1) == 101495
  {
  }

  lemma FirstCellsNarrow()
    ensures Cell(false, 0, 0) == 0 && Cell(false, 0, 1) == 2315 && Cell(false, 0, 4) == 9296
    ensures Cell(false, 1, 0) == 16164 && Cell(false, 1, 1) == 18479 && Cell(false, 1, 3) == 23109
  {
  }

  // The number within its partition of the read of a cell.
  function NumberOf(block: nat, p: nat, y: nat): nat {
    var x := (419 * y) % ROW_BITS;
    ROW_BITS * ((block - x - 7 * p) % 32) + x
  }

  function Address(wide: bool, t: nat): nat
  {
    SealedAddress(SEALS, wide, t)
  }

  function SealedAddress(seals: seq<bool>, wide: bool, t: nat): nat
  {
    if |seals| > 0 then SealedAddress(seals[1..], wide, t) else AddressFormula(wide, t)
  }

  lemma {:induction false} OpenAddress(seals: seq<bool>, wide: bool, t: nat)
    ensures SealedAddress(seals, wide, t) == AddressFormula(wide, t)
  {
    if |seals| > 0 { OpenAddress(seals[1..], wide, t); }
  }

  // The step that reads number n of partition p.
  function StepOf(wide: bool, p: nat, n: nat): nat {
    if wide then 8 * (n / 2) + 2 * p + n % 2
    else if p == 1 then 8 * (n / 4) + 2 + n % 4
    else if n % 4 < 2 then 8 * (n / 4) + n % 4
    else 8 * (n / 4) + n % 4 + 4
  }

  function Time(wide: bool, c: nat): nat {
    var g, rest := c / (J(wide) * 36), c % (J(wide) * 36);
    StepOf(wide, rest / 36, NumberOf(g / 32, rest / 36, 36 * (g % 32) + rest % 36))
  }

  // 11 and 419 are inverse to each other modulo 1152.
  lemma Inverse(x: nat)
    requires x < ROW_BITS
    ensures (419 * ((11 * x) % ROW_BITS)) % ROW_BITS == x
    ensures (11 * ((419 * x) % ROW_BITS)) % ROW_BITS == x
  {
    var a, b := (11 * x) / ROW_BITS, (419 * x) / ROW_BITS;
    assert (11 * x) % ROW_BITS == 11 * x - 1152 * a && (419 * x) % ROW_BITS == 419 * x - 1152 * b;
    DivUnique(419 * (11 * x - 1152 * a), ROW_BITS, 4 * x - 419 * a, x);
    DivUnique(11 * (419 * x - 1152 * b), ROW_BITS, 4 * x - 11 * b, x);
  }

  // Row and column of number n depend on n modulo 1152 only.
  lemma RowColumn(n: nat, q: nat, x: nat)
    requires n == ROW_BITS * q + x && x < ROW_BITS
    ensures (11 * n) % ROW_BITS == (11 * x) % ROW_BITS
    ensures (n * 11) % 36 == ((11 * x) % ROW_BITS) % 36
    ensures n / ROW_BITS == q
  {
    var a, y := (11 * x) / ROW_BITS, (11 * x) % ROW_BITS;
    DivUnique(n, ROW_BITS, q, x);
    DivUnique(11 * n, ROW_BITS, 11 * q + a, y);
    DivUnique(n * 11, 36, 32 * (11 * q + a) + y / 36, y % 36);
  }

  lemma CellParts(wide: bool, p: nat, n: nat)
    requires p < J(wide) && n < 32 * ROW_BITS
    ensures var q, x := n / ROW_BITS, n % ROW_BITS;
      var y := (11 * x) % ROW_BITS;
      Cell(wide, p, n) == (((q + x + 7 * p) % 32) * 32 + y / 36) * (J(wide) * 36) + p * 36 + y % 36
  {
    RowColumn(n, n / ROW_BITS, n % ROW_BITS);
  }

  lemma CellFits(wide: bool, block: nat, row: nat, p: nat, column: nat)
    requires block < 32 && row < 32 && p < J(wide) && column < 36
    ensures var c := (block * 32 + row) * (J(wide) * 36) + p * 36 + column;
      && c < N(wide) && c / (J(wide) * 36) == block * 32 + row
      && c % (J(wide) * 36) == p * 36 + column && (p * 36 + column) / 36 == p && (p * 36 + column) % 36 == column
  {
    if wide {} else {}
  }

  lemma NumberOfCell(wide: bool, p: nat, n: nat)
    requires p < J(wide) && n < 32 * ROW_BITS
    ensures var q, x := n / ROW_BITS, n % ROW_BITS;
      NumberOf((q + x + 7 * p) % 32, p, (11 * x) % ROW_BITS) == n
  {
    var q, x := n / ROW_BITS, n % ROW_BITS;
    Inverse(x);
    var s := q + x + 7 * p;
    assert s % 32 - x - 7 * p == q - 32 * (s / 32);
    assert q < 32;
  }

  // Number and step determine each other.
  lemma StepAndNumber(wide: bool, t: nat)
    requires t < N(wide)
    ensures var p := Partition(wide, t); p < J(wide) && Count(wide, p, t) < 32 * ROW_BITS && StepOf(wide, p, Count(wide, p, t)) == t
  {
    PartitionIs(wide, t);
    OpenCount(SEALS, wide, Partition(wide, t), t);
    var u, v := t / 8, t % 8;
    assert t == 8 * u + v;
    if wide {
      DivUnique(2 * u + v % 2, 2, u, v % 2);
    } else {
      var w := if v < 2 then v else if v < 6 then v - 2 else v - 4;
      DivUnique(4 * u + w, 4, u, w);
    }
  }

  lemma NumberAndStep(wide: bool, p: nat, n: nat)
    requires p < J(wide) && n < 32 * ROW_BITS
    ensures var t := StepOf(wide, p, n); t < N(wide) && Partition(wide, t) == p && Count(wide, p, t) == n
  {
    var t := StepOf(wide, p, n);
    PartitionIs(wide, t);
    OpenCount(SEALS, wide, p, t);
    if wide {
      DivUnique(t, 8, n / 2, 2 * p + n % 2);
      DivUnique(2 * p + n % 2, 2, p, n % 2);
    } else {
      var w := n % 4;
      DivUnique(t, 8, n / 4, if p == 1 then 2 + w else if w < 2 then w else w + 4);
    }
  }

  /** Within one lap of the buffer, every cell is read at exactly one step. */
  lemma AddressTime(wide: bool, t: nat)
    requires t < N(wide)
    ensures Address(wide, t) < N(wide) && Time(wide, Address(wide, t)) == t
  {
    OpenAddress(SEALS, wide, t);
    var p := Partition(wide, t);
    var n := Count(wide, p, t);
    StepAndNumber(wide, t);
    CellParts(wide, p, n);
    NumberOfCell(wide, p, n);
    var q, x := n / ROW_BITS, n % ROW_BITS;
    TimeOfCell(wide, (q + x + 7 * p) % 32, p, (11 * x) % ROW_BITS);
  }

  // Time takes a cell address apart again.
  lemma TimeOfCell(wide: bool, block: nat, p: nat, y: nat)
    requires block < 32 && p < J(wide) && y < ROW_BITS
    ensures var c := (block * 32 + y / 36) * (J(wide) * 36) + p * 36 + y % 36;
      c < N(wide) && Time(wide, c) == StepOf(wide, p, NumberOf(block, p, y))
  {
    CellFits(wide, block, y / 36, p, y % 36);
    DivUnique(block * 32 + y / 36, 32, block, y / 36);
    assert 36 * (y / 36) + y % 36 == y;
  }

  lemma TimeAddress(wide: bool, c: nat)
    requires c < N(wide)
    ensures Time(wide, c) < N(wide) && Address(wide, Time(wide, c)) == c
  {
    var g, rest := c / (J(wide) * 36), c % (J(wide) * 36);
    var p, y := rest / 36, 36 * (g % 32) + rest % 36;
    CellSplits(wide, c);
    var n := NumberOf(g / 32, p, y);
    NumberFits(g / 32, p, y);
    NumberAndStep(wide, p, n);
    OpenAddress(SEALS, wide, StepOf(wide, p, n));
    CellParts(wide, p, n);
  }

  lemma CellSplits(wide: bool, c: nat)
    requires c < N(wide)
    ensures var g, rest := c / (J(wide) * 36), c % (J(wide) * 36);
      && g < 1024 && rest / 36 < J(wide)
      && c == ((g / 32) * 32 + g % 32) * (J(wide) * 36) + (rest / 36) * 36 + rest % 36
      && (36 * (g % 32) + rest % 36) / 36 == g % 32 && (36 * (g % 32) + rest % 36) % 36 == rest % 36
  {
    if wide {} else {}
  }

  lemma NumberFits(block: nat, p: nat, y: nat)
    requires block < 32 && y < ROW_BITS
    ensures var n := NumberOf(block, p, y);
      var q, x := n / ROW_BITS, n % ROW_BITS;
      n < 32 * ROW_BITS && (11 * x) % ROW_BITS == y && (q + x + 7 * p) % 32 == block
  {
    Inverse(y);
    var x := (419 * y) % ROW_BITS;
    var d := block - x - 7 * p;
    DivUnique(ROW_BITS * (d % 32) + x, ROW_BITS, d % 32, x);
    DivUnique(d % 32 + x + 7 * p, 32, -(d / 32), block);
  }

  // ---------- which bit is read when ----------

  // Counting steps from the reset: does step g read something written since?
  predicate Written(wide: bool, g: nat) { g >= N(wide) || Address(wide, g) < g }

  // Step g reads the soft bit that was written at step Source(g): in this lap if
  // its cell was already passed, in the lap before otherwise.
  function Source(wide: bool, g: nat): nat
    requires Written(wide, g)
  {
    var lap, i := g / N(wide), g % N(wide);
    var a := Address(wide, i);
    LapSplits(wide, g);
    if a < i then lap * N(wide) + a else (lap - 1) * N(wide) + a
  }

  // The step that reads what step w wrote.
  function ReadAt(wide: bool, w: nat): nat {
    var lap, c := w / N(wide), w % N(wide);
    var i := Time(wide, c);
    if c < i then lap * N(wide) + i else (lap + 1) * N(wide) + i
  }

  lemma LapSplits(wide: bool, g: nat)
    ensures g >= N(wide) ==> g / N(wide) >= 1
    ensures g < N(wide) ==> g / N(wide) == 0 && g % N(wide) == g
    ensures g % N(wide) < N(wide) && g == (g / N(wide)) * N(wide) + g % N(wide)
  {
    if wide {} else {}
  }

  lemma LapJoins(wide: bool, lap: int, i: nat)
    requires i < N(wide)
    ensures (lap * N(wide) + i) / N(wide) == lap && (lap * N(wide) + i) % N(wide) == i
  {
    assert lap * N(wide) == N(wide) * lap;
    DivUnique(lap * N(wide) + i, N(wide), lap, i);
  }

  lemma NextLap(wide: bool, lap: int)
    ensures (lap + 1) * N(wide) == lap * N(wide) + N(wide)
  {
  }

  /** Exactly once: what step w writes is read at step ReadAt(w) and at no other
      step; it is read after step w and no later than step w + N, which is the
      step that overwrites its cell after reading. */
  lemma ReadExactlyOnce(wide: bool, w: nat)
    ensures var g := ReadAt(wide, w); w < g <= w + N(wide) && Written(wide, g) && Source(wide, g) == w
    ensures forall g: nat :: Written(wide, g) && Source(wide, g) == w ==> g == ReadAt(wide, w)
  {
    ReadAtReads(wide, w);
    forall g: nat | Written(wide, g) && Source(wide, g) == w ensures g == ReadAt(wide, w) { SourceDetermines(wide, g, w); }
  }

  lemma ReadAtReads(wide: bool, w: nat)
    ensures var g := ReadAt(wide, w); w < g <= w + N(wide) && Written(wide, g) && Source(wide, g) == w
  {
    var lap, c := w / N(wide), w % N(wide);
    LapSplits(wide, w);
    TimeAddress(wide, c);
    var g := ReadAt(wide, w);
    assert g / N(wide) == (if c < Time(wide, c) then lap else lap + 1) && g % N(wide) == Time(wide, c) by {
      LapJoins(wide, lap, Time(wide, c));
      LapJoins(wide, lap + 1, Time(wide, c));
    }
    NextLap(wide, lap);
  }

  lemma SourceDetermines(wide: bool, g: nat, w: nat)
    requires Written(wide, g) && Source(wide, g) == w
    ensures g == ReadAt(wide, w)
  {
    var lap, i := g / N(wide), g % N(wide);
    LapSplits(wide, g);
    AddressTime(wide, i);
    var a := Address(wide, i);
    LapJoins(wide, lap, a);
    LapJoins(wide, lap - 1, a);
    NextLap(wide, lap - 1);
  }

  // ---------- depuncturing ----------

  // Where soft bit k of a frame goes: zeros fill positions 1 and 4 of every six.
  function OutAt(k: nat): nat { k + (k + 1) / 2 }

  // The first n positions of the Viterbi input for soft bits xs.
  ghost predicate Spread(out: seq<int>, xs: seq<int>, n: nat) {
    && n <= |out| && n <= OutAt(|xs|)
    && (forall k: nat :: k < |xs| && OutAt(k) < n ==> out[OutAt(k)] == xs[k])
    && (forall j: nat :: j < n && (j % 6 == 1 || j % 6 == 4) ==> out[j] == 0)
  }

  lemma OutStep(k: nat)
    ensures OutAt(k + 1) == OutAt(k) + 1 + if (OutAt(k) + 1) % 6 == 1 || (OutAt(k) + 1) % 6 == 4 then 1 else 0
    ensures OutAt(k) % 6 != 1 && OutAt(k) % 6 != 4
  {
    var u, v := k / 4, k % 4;
    assert k == 4 * u + v && OutAt(k) == 6 * u + OutAt(v);
    assert OutAt(0) == 0 && OutAt(1) == 2 && OutAt(2) == 3 && OutAt(3) == 5 && OutAt(4) == 6;
    assert OutAt(k + 1) == 6 * u + OutAt(v + 1);
  }

  lemma OutMonotone(a: nat, b: nat)
    requires a < b
    ensures OutAt(a) < OutAt(b)
  {
  }

  lemma SpreadMore(out: seq<int>, xs: seq<int>, x: int, after: seq<int>)
    requires Spread(out, xs, OutAt(|xs|)) && OutAt(|xs| + 1) <= |out| == |after|
    requires after[OutAt(|xs|)] == x && forall j: nat :: j < OutAt(|xs|) ==> after[j] == out[j]
    requires OutAt(|xs| + 1) == OutAt(|xs|) + 2 ==> after[OutAt(|xs|) + 1] == 0
    ensures Spread(after, xs + [x], OutAt(|xs| + 1))
  {
    OutStep(|xs|);
    forall k: nat | k < |xs| + 1 && OutAt(k) < OutAt(|xs| + 1) ensures after[OutAt(k)] == (xs + [x])[k] {
      if k < |xs| { OutMonotone(k, |xs|); }
    }
  }

  // ---------- the interleaver ----------

  function FrameLen(wide: bool): nat { if wide then WIDE_LEN else 2304 }

  // Soft bits per frame, before depuncturing.
  function Symbols(wide: bool): nat { FrameLen(wide) * 2 }

  lemma Laps(wide: bool, laps: nat, i: nat)
    requires i <= N(wide)
    ensures i == N(wide) ==> laps * N(wide) + i == (laps + 1) * N(wide)
    ensures laps > 0 ==> laps * N(wide) + i >= N(wide)
    ensures laps == 0 ==> laps * N(wide) + i == i
  {
    if laps > 0 { MulMono(N(wide), 1, laps); }
  }

  lemma FrameFits(wide: bool, i: nat)
    requires i <= N(wide) && i % Symbols(wide) == 0
    ensures i < N(wide) ==> i + Symbols(wide) <= N(wide)
    ensures (i + Symbols(wide)) % Symbols(wide) == 0
  {
    if wide {} else {}
  }

  lemma OutFits(wide: bool, k: nat)
    requires k < Symbols(wide)
    ensures OutAt(k) < OutAt(k + 1) <= 3 * FrameLen(wide)
  {
  }

  lemma OutEnds(wide: bool)
    ensures OutAt(Symbols(wide)) == 3 * FrameLen(wide)
  {
  }

  ghost predicate CountsAre(pt: seq<nat>, wide: bool, i: nat) {
    |pt| == 4 && forall p: nat :: p < J(wide) ==> pt[p] == Count(wide, p, i)
  }

  lemma CountsAtZero(pt: seq<nat>, wide: bool)
    requires |pt| == 4 && forall p: nat :: p < 4 ==> pt[p] == 0
    ensures CountsAre(pt, wide, 0)
  {
    forall p: nat | p < J(wide) ensures Count(wide, p, 0) == 0 { CountStep(wide, p, 0); }
  }

  ghost predicate CellsHold(cells: seq<int>, fed: seq<int>, wide: bool, laps: nat, i: nat) {
    SealedCells(SEALS, cells, fed, wide, laps, i)
  }

  ghost predicate SealedCells(seals: seq<bool>, cells: seq<int>, fed: seq<int>, wide: bool, laps: nat, i: nat) {
    if |seals| > 0 then SealedCells(seals[1..], cells, fed, wide, laps, i) else CellContents(cells, fed, wide, laps, i)
  }

  lemma {:induction false} OpenCells(seals: seq<bool>, cells: seq<int>, fed: seq<int>, wide: bool, laps: nat, i: nat)
    ensures SealedCells(seals, cells, fed, wide, laps, i) == CellContents(cells, fed, wide, laps, i)
  {
    if |seals| > 0 { OpenCells(seals[1..], cells, fed, wide, laps, i); }
  }

  ghost predicate CellContents(cells: seq<int>, fed: seq<int>, wide: bool, laps: nat, i: nat) {
    && |cells| >= N(wide) >= i && |fed| == laps * N(wide) + i
    && (forall c: nat :: c < i ==> cells[c] == fed[laps * N(wide) + c])
    && (laps > 0 ==> forall c: nat :: i <= c < N(wide) ==> cells[c] == Fed(fed, (laps - 1) * N(wide) + c))
  }

  // fed[w], for indices the caller knows to be in range.
  function Fed(fed: seq<int>, w: int): int { if 0 <= w < |fed| then fed[w] else 0 }

  // The soft bits that n steps from step start on read.
  ghost function Reads(wide: bool, fed: seq<int>, start: nat, n: nat): seq<int>
    requires start >= N(wide)
  {
    if n == 0 then [] else Reads(wide, fed, start, n - 1) + [Fed(fed, Source(wide, start + n - 1))]
  }

  lemma SourceIsWritten(wide: bool, g: nat)
    requires Written(wide, g)
    ensures Source(wide, g) < g
  {
    LapSplits(wide, g);
    AddressTime(wide, g % N(wide));
    NextLap(wide, g / N(wide) - 1);
  }

  lemma CountsMore(pt: seq<nat>, wide: bool, i: nat)
    requires CountsAre(pt, wide, i)
    ensures var p := Partition(wide, i); p < J(wide) && pt[p] == Count(wide, p, i) && CountsAre(pt[p := pt[p] + 1], wide, i + 1)
  {
    PartitionIs(wide, i);
    forall p: nat | p < J(wide) ensures Count(wide, p, i + 1) == Count(wide, p, i) + if p == Partition(wide, i) then 1 else 0 {
      CountStep(wide, p, i);
    }
  }

  // The cell read at step g holds what its source wrote.
  lemma ReadCell(cells: seq<int>, fed: seq<int>, wide: bool, laps: nat, i: nat)
    requires CellsHold(cells, fed, wide, laps, i) && i < N(wide)
    ensures Address(wide, i) < |cells|
    ensures Written(wide, |fed|) ==> cells[Address(wide, i)] == Fed(fed, Source(wide, |fed|))
  {
    OpenCells(SEALS, cells, fed, wide, laps, i);
    AddressTime(wide, i);
    LapJoins(wide, laps, i);
    Laps(wide, laps, i);
    if laps > 0 { NextLap(wide, laps - 1); }
  }

  lemma CellsMore(cells: seq<int>, fed: seq<int>, wide: bool, laps: nat, i: nat, x: int)
    requires CellsHold(cells, fed, wide, laps, i) && i < N(wide)
    ensures i < |cells| && CellsHold(cells[i := x], fed + [x], wide, laps, i + 1)
  {
    OpenCells(SEALS, cells, fed, wide, laps, i);
    OpenCells(SEALS, cells[i := x], fed + [x], wide, laps, i + 1);
    if laps > 0 {
      NextLap(wide, laps - 1);
      forall c: nat | i + 1 <= c < N(wide) ensures cells[c] == Fed(fed + [x], (laps - 1) * N(wide) + c) {
        assert Fed(fed, (laps - 1) * N(wide) + c) == cells[c];
      }
    }
  }

  lemma CellsEmpty(cells: seq<int>, wide: bool)
    requires |cells| >= N(wide)
    ensures CellsHold(cells, [], wide, 0, 0)
  {
    OpenCells(SEALS, cells, [], wide, 0, 0);
  }

  // A new lap begins with the cells of the one before.
  lemma CellsWrap(cells: seq<int>, fed: seq<int>, wide: bool, laps: nat)
    requires CellsHold(cells, fed, wide, laps, N(wide))
    ensures CellsHold(cells, fed, wide, laps + 1, 0)
  {
    OpenCells(SEALS, cells, fed, wide, laps, N(wide));
    OpenCells(SEALS, cells, fed, wide, laps + 1, 0);
    NextLap(wide, laps);
    forall c: nat | c < N(wide) ensures cells[c] == Fed(fed, laps * N(wide) + c) {
      assert cells[c] == fed[laps * N(wide) + c];
    }
    assert laps + 1 - 1 == laps;
  }

  // The output of k steps: got at its places, and got is what the steps read.
  ghost predicate Delivered(out: seq<int>, got: seq<int>, wide: bool, all: seq<int>, start: nat, k: nat) {
    && |got| == k && Spread(out, got, OutAt(k))
    && (start >= N(wide) ==> got == Reads(wide, all, start, k))
  }

  class Interleaver {
    const wide: bool
    const buffer: array<int>
    const internal: array<int>
    const pt: array<nat>
    var i: nat
    var ready: bool
    var started: bool
    // Every soft bit written since the reset, and the completed laps.
    ghost var fed: seq<int>
    ghost var laps: nat

    ghost predicate Shape()
      reads this
    {
      && internal.Length == WIDE_LEN * 32 && pt.Length == 4 && buffer.Length == 144 * 32 * 2
      && buffer != internal
    }

    constructor (wide: bool)
      ensures Valid() && this.wide == wide && fed == [] && !ready && !started
      ensures fresh(buffer) && fresh(internal) && fresh(pt)
    {
      this.wide := wide;
      buffer, internal, pt := new int[144 * 32 * 2], new int[WIDE_LEN * 32], new nat[4](_ => 0);
      i, ready, started, fed, laps := 0, false, false, [], 0;
      new;
      CountsAtZero(pt[..], wide);
      CellsEmpty(internal[..], wide);
    }

    ghost predicate Counters()
      reads this, pt
      requires pt.Length == 4
    {
      CountsAre(pt[..], wide, i)
    }

    // What the buffer holds: this lap below i, the lap before from i on.
    ghost predicate Cells()
      reads this, internal
      requires internal.Length == WIDE_LEN * 32
    {
      && i <= N(wide) && |fed| == laps * N(wide) + i
      && CellsHold(internal[..], fed, wide, laps, i)
    }

    ghost predicate Valid()
      reads this, internal, pt
    {
      && Shape() && Counters() && Cells()
      && ready == (laps > 0) && i % Symbols(wide) == 0
    }

    // interleaver_iv_reset
    method Reset()
      requires Shape()
      modifies this, pt
      ensures Valid() && fed == [] && !ready && !started
    {
      i := 0;
      ClearCounters();
      started := false;
      ready := false;
      fed, laps := [], 0;
      CellsEmpty(internal[..], wide);
    }

    // At the end of a lap: start over, and report that a full lap has passed.
    method Wrap()
      requires Valid()
      modifies this`i, this`ready, this`laps, pt
      ensures Valid() && fed == old(fed) && i + Symbols(wide) <= N(wide)
      ensures ready <==> |fed| >= N(wide)
    {
      Laps(wide, laps, i);
      FrameFits(wide, i);
      if i == N(wide) {
        CellsWrap(internal[..], fed, wide, laps);
        i := 0;
        ClearCounters();
        ready := true;
        laps := laps + 1;
      }
    }

    // One step of the loop: read a permuted cell, then overwrite the next one.
    method Step(x: int) returns (v: int)
      requires Shape() && Counters() && Cells() && i < N(wide)
      modifies this`i, this`fed, pt, internal
      ensures Counters() && Cells() && i == old(i) + 1 && fed == old(fed) + [x]
      ensures Written(wide, |old(fed)|) ==> v == Fed(old(fed), Source(wide, |old(fed)|))
    {
      var partition := Partition(wide, i);
      CountsMore(pt[..], wide, i);
      AddressTime(wide, i);
      OpenAddress(SEALS, wide, i);
      var pti := pt[partition];
      v := internal[Cell(wide, partition, pti)];
      ReadCell(internal[..], fed, wide, laps, i);
      CellsMore(internal[..], fed, wide, laps, i, x);
      ghost var counts, cells := pt[..], internal[..];
      pt[partition] := pti + 1;
      internal[i] := x;
      assert pt[..] == counts[partition := pti + 1] && internal[..] == cells[i := x];
      i := i + 1;
      fed := fed + [x];
    }

    /** interleaver_iv: the frame is taken up whole, and once a lap has passed the
        Viterbi input holds, at its unpunctured positions, the soft bits that the
        permutation assigns to these steps. */
    method Process(viterbi: array<int>)
      requires Valid() && viterbi.Length >= 3 * FrameLen(wide)
      requires viterbi != internal && viterbi != buffer
      modifies this`i, this`ready, this`laps, this`fed, pt, internal, viterbi
      ensures Valid() && fed == old(fed) + old(buffer[..Symbols(wide)])
      ensures ready <==> |old(fed)| >= N(wide)
      ensures ready ==> Spread(viterbi[..], Reads(wide, fed, |old(fed)|, Symbols(wide)), 3 * FrameLen(wide))
    {
      Wrap();
      ghost var at := i;
      TakeFrame(viterbi, |fed|, fed + buffer[..Symbols(wide)]);
      FrameFits(wide, at);
    }

    // The loop over the soft bits of a frame.
    method TakeFrame(viterbi: array<int>, ghost start: nat, ghost all: seq<int>)
      requires Shape() && Counters() && Cells() && i + Symbols(wide) <= N(wide) && viterbi.Length >= 3 * FrameLen(wide)
      requires start == |fed| && all == fed + buffer[..Symbols(wide)] && viterbi != internal && viterbi != buffer
      modifies this`i, this`fed, pt, internal, viterbi
      ensures Counters() && Cells() && i == old(i) + Symbols(wide) && fed == all
      ensures start >= N(wide) ==> Spread(viterbi[..], Reads(wide, all, start, Symbols(wide)), 3 * FrameLen(wide))
    {
      ghost var got: seq<int> := [];
      var out, k := 0, 0;
      while k < Symbols(wide)
        invariant 0 <= k <= Symbols(wide) && out == OutAt(k) && i == old(i) + k
        invariant Counters() && Cells() && fed == all[..start + k]
        invariant buffer[..] == old(buffer[..])
        invariant Delivered(viterbi[..], got, wide, all, start, k)
      {
        OutFits(wide, k);
        var x := buffer[k];
        assert all[start + k] == x;
        out, got := Turn(x, viterbi, out, k, all, start, got);
        assert all[..start + k] + [x] == all[..start + k + 1];
        k := k + 1;
      }
      OutEnds(wide);
      assert all[..|all|] == all;
    }

    // memcpy of one block into a half of the frame buffer
    method FillHalf(sbit: seq<int>, half: nat)
      requires Shape() && half < 2 && |sbit| == FrameLen(wide)
      modifies buffer
      ensures buffer[half * FrameLen(wide)..(half + 1) * FrameLen(wide)] == sbit
      ensures forall j :: 0 <= j < buffer.Length && !(half * FrameLen(wide) <= j < (half + 1) * FrameLen(wide)) ==> buffer[j] == old(buffer[j])
    {
      var at, j := half * FrameLen(wide), 0;
      while j < |sbit|
        invariant 0 <= j <= |sbit| && buffer[at..at + j] == sbit[..j]
        invariant forall m :: 0 <= m < buffer.Length && !(at <= m < at + j) ==> buffer[m] == old(buffer[m])
      {
        buffer[at + j] := sbit[j];
        j := j + 1;
      }
    }

    /** decode_push_px1, decode_push_px2: blocks count from the first even one; each
        odd one completes a frame, which is decoded once a lap has passed. */
    method Push(sbit: seq<int>, bc: nat, viterbi: array<int>) returns (decode: bool)
      requires Valid() && |sbit| == FrameLen(wide) && viterbi.Length >= 3 * FrameLen(wide)
      requires viterbi != internal && viterbi != buffer
      modifies this, pt, internal, buffer, viterbi
      ensures Valid() && started == (old(started) || bc % 2 == 0)
      ensures started && bc % 2 == 0 ==> buffer[..FrameLen(wide)] == sbit && fed == old(fed) && !decode
      ensures started && bc % 2 == 1 ==> fed == old(fed) + old(buffer[..FrameLen(wide)]) + sbit && decode == (|old(fed)| >= N(wide))
      ensures !started ==> fed == old(fed) && !decode
      ensures decode ==> Spread(viterbi[..], Reads(wide, fed, |old(fed)|, Symbols(wide)), 3 * FrameLen(wide))
    {
      decode := false;
      if bc % 2 == 0 {
        started := true;
      }
      if started {
        FillHalf(sbit, bc % 2);
        if bc % 2 == 1 {
          assert buffer[..Symbols(wide)] == old(buffer[..FrameLen(wide)]) + sbit;
          Process(viterbi);
          decode := ready;
        }
      }
    }

    // One step, and one or two positions of the output.
    method Turn(x: int, viterbi: array<int>, out: nat, k: nat, ghost all: seq<int>, ghost start: nat, ghost got: seq<int>)
      returns (next: nat, ghost more: seq<int>)
      requires Shape() && Counters() && Cells() && i < N(wide) && viterbi != internal
      requires out == OutAt(k) && OutAt(k + 1) <= viterbi.Length && start + k <= |all| && fed == all[..start + k]
      requires Delivered(viterbi[..], got, wide, all, start, k)
      modifies this`i, this`fed, pt, internal, viterbi
      ensures Counters() && Cells() && i == old(i) + 1 && fed == old(fed) + [x]
      ensures next == OutAt(k + 1) && Delivered(viterbi[..], more, wide, all, start, k + 1)
    {
      OutStep(k);
      ghost var was := viterbi[..];
      var v := Step(x);
      viterbi[out] := v;
      next := out + 1;
      if next % 6 == 1 || next % 6 == 4 {
        viterbi[next] := 0;
        next := next + 1;
      }
      SpreadMore(was, got, v, viterbi[..]);
      more := got + [v];
      if start >= N(wide) { SourceIsWritten(wide, start + k); }
    }

    // memset of the partition counters
    method ClearCounters()
      requires pt.Length == 4
      modifies pt
      ensures CountsAre(pt[..], wide, 0)
    {
      pt[0], pt[1], pt[2], pt[3] := 0, 0, 0, 0;
      CountsAtZero(pt[..], wide);
    }
  }

  /** The frame handed to the decoder is a depunctured one of the third pattern, so
      the decoder's guarantees apply to it. */
  lemma SpreadIsDepunctured(out: seq<int>, xs: seq<int>, wide: bool)
    requires Spread(out, xs, 3 * FrameLen(wide)) && |xs| == Symbols(wide) && |out| >= 3 * FrameLen(wide)
    requires forall k: nat :: k < |xs| ==> -127 <= xs[k] <= 127
    ensures ConvFrames.Depunctured(RoundTrip.P3, out[..3 * FrameLen(wide)], FrameLen(wide))
  {
    var f, len := out[..3 * FrameLen(wide)], FrameLen(wide);
    forall j: nat | j < |f| ensures -127 <= f[j] <= 127 {
      var k := (j / 3) * 2 + if j % 3 == 2 then 1 else 0;
      SpreadCovers(j);
      if j % 6 != 1 && j % 6 != 4 { assert out[OutAt(k)] == xs[k]; }
    }
    forall j: nat, m: nat | j < len && m < 3 && !RoundTrip.Sent(RoundTrip.P3, j, m) ensures RoundTrip.At(f, j, m) == 0 {
      assert (3 * j + 1) % 6 == 1 || (3 * j + 1) % 6 == 4;
    }
  }

  // Every position is a zero or the place of a soft bit.
  lemma SpreadCovers(j: nat)
    ensures j % 6 == 1 || j % 6 == 4 || OutAt((j / 3) * 2 + if j % 3 == 2 then 1 else 0) == j
  {
    var u, v := j / 3, j % 3;
    assert j == 3 * u + v;
    if v == 1 { assert j % 6 == 1 || j % 6 == 4; }
  }
}
