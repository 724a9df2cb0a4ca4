/** The AM deinterleavers with diversity delay (src/decode.c:74-231, 507-554): four
    groups of soft bits per output, two of them delayed by three frames. */
module AmDecoder {
  import opened Basics
  import opened Arith
  import opened AmInterleaver
  import RoundTrip
  import ConvFrames

  const BLOCK_CELLS := 6400      // 25 columns, 32 rows, 8 blocks
  const GROUP := 18000
  const DELAY := 54000           // DIVERSITY_DELAY_AM: three frames
  const OUTPUT := 72000

  // ---------- reading the matrices ----------

  // bit_map
  function BitMapFormula(cells: seq<nat>, p: Spot, low: nat): nat
    requires |cells| == BLOCK_CELLS && p.block < 8 && p.cell < PER_BLOCK
  {
    CellInRange(p.block, p.cell);
    (cells[25 * (p.block * 32 + Row(p.cell)) + Column(p.cell)] / Pow2(p.bit + low)) % 2
  }

  function BitMap(cells: seq<nat>, p: Spot, low: nat): nat
    requires |cells| == BLOCK_CELLS && p.block < 8 && p.cell < PER_BLOCK
  {
    SealedBitMap(SEALS, cells, p, low)
  }

  function SealedBitMap(seals: seq<bool>, cells: seq<nat>, p: Spot, low: nat): nat
    requires |cells| == BLOCK_CELLS && p.block < 8 && p.cell < PER_BLOCK
  {
    if |seals| > 0 then SealedBitMap(seals[1..], cells, p, low) else BitMapFormula(cells, p, low)
  }

  lemma {:induction false} OpenBitMap(seals: seq<bool>, cells: seq<nat>, p: Spot, low: nat)
    requires |cells| == BLOCK_CELLS && p.block < 8 && p.cell < PER_BLOCK
    ensures SealedBitMap(seals, cells, p, low) == BitMapFormula(cells, p, low)
  {
    if |seals| > 0 { OpenBitMap(seals[1..], cells, p, low); }
  }

  lemma CellInRange(b: nat, k: nat)
    requires b < 8
    ensures 25 * (b * 32 + Row(k)) + Column(k) < BLOCK_CELLS
  {
  }

  // The four groups of an output; ma3 selects those of service mode MA3.
  function GroupSpot(ma3: bool, g: nat, n: nat): Spot {
    if g == 0 then (if ma3 then Spread(n, 3, 3) else Main(n, 1))
    else if g == 1 then Spread(n, 3, 3)
    else if g == 2 then (if ma3 then Spread(n, 0, 2) else Main(n, 0))
    else Spread(n, 0, 2)
  }

  function GroupBack(ma3: bool, g: nat, p: Spot): int {
    if g == 0 then (if ma3 then SpreadBack(p, 3, 3) else MainBack(p, 1))
    else if g == 1 then SpreadBack(p, 3, 3)
    else if g == 2 then (if ma3 then SpreadBack(p, 0, 2) else MainBack(p, 0))
    else SpreadBack(p, 0, 2)
  }

  lemma GroupPlaces(ma3: bool, g: nat, n: nat)
    requires n < GROUP
    ensures GroupSpot(ma3, g, n).Within(3) && GroupBack(ma3, g, GroupSpot(ma3, g, n)) == n
  {
    MainPlaces(n, 1); MainPlaces(n, 0); SpreadPlaces(n, 3, 3); SpreadPlaces(n, 0, 2);
  }

  lemma GroupCovers(ma3: bool, g: nat, p: Spot)
    requires p.Within(3)
    ensures 0 <= GroupBack(ma3, g, p) < GROUP && GroupSpot(ma3, g, GroupBack(ma3, g, p)) == p
  {
    MainCovers(p, 1); MainCovers(p, 0); SpreadCovers(p, 3, 3); SpreadCovers(p, 0, 2);
  }

  // The two delayed groups hold the upper three bits of the cells.
  function Low(g: nat): nat { if g % 2 == 1 then 3 else 0 }

  function GroupBit(ma3: bool, g: nat, cells: seq<nat>, n: nat): nat
    requires |cells| == BLOCK_CELLS && n < GROUP
  {
    GroupPlaces(ma3, g, n);
    BitMap(cells, GroupSpot(ma3, g, n), Low(g))
  }

  // The soft bits of a group in order.
  function GroupBits(ma3: bool, g: nat, cells: seq<nat>, n: nat): (xs: seq<nat>)
    requires |cells| == BLOCK_CELLS && n <= GROUP
    ensures |xs| == n
    decreases n, ma3, g, cells
  {
    if n == 0 then [] else GroupBits(ma3, g, cells, n - 1) + [GroupBit(ma3, g, cells, n - 1)]
  }

  // The group that holds bit of a cell of the lower (pl, t) or upper (pu, s) matrix.
  function GroupOf(upper: bool, bit: nat): nat { (if upper then 2 else 0) + if bit < 3 then 0 else 1 }

  /** Each pair of groups takes every bit of every data cell of its matrix exactly
      once: bit of cell k of block b is soft bit n of its group, for one n only. */
  lemma GroupsCover(ma3: bool, upper: bool, b: nat, k: nat, bit: nat)
    requires b < 8 && k < PER_BLOCK && bit < 6
    ensures var g, p := GroupOf(upper, bit), Spot(b, k, bit % 3);
      && Low(g) + bit % 3 == bit
      && 0 <= GroupBack(ma3, g, p) < GROUP && GroupSpot(ma3, g, GroupBack(ma3, g, p)) == p
      && forall n: nat :: n < GROUP && GroupSpot(ma3, g, n) == p ==> n == GroupBack(ma3, g, p)
  {
    var g, p := GroupOf(upper, bit), Spot(b, k, bit % 3);
    GroupCovers(ma3, g, p);
    forall n: nat | n < GROUP && GroupSpot(ma3, g, n) == p ensures n == GroupBack(ma3, g, p) { GroupPlaces(ma3, g, n); }
  }

  method ReadBit(cells: array<nat>, p: Spot, low: nat) returns (x: nat)
    requires cells.Length == BLOCK_CELLS && p.block < 8 && p.cell < PER_BLOCK
    ensures x == BitMap(cells[..], p, low)
  {
    CellInRange(p.block, p.cell);
    OpenBitMap(SEALS, cells[..], p, low);
    var column := (9 * p.cell) % 25;
    var row := (11 * column + 16 * (p.cell / 25) + 11 * (p.cell / 50)) % 32;
    x := (cells[25 * (p.block * 32 + row) + column] / Pow2(p.bit + low)) % 2;
  }

  // One of the loops over n: a group is read into its array at offset base.
  method FillGroup(ma3: bool, g: nat, cells: array<nat>, dst: array<nat>, base: nat)
    requires cells.Length == BLOCK_CELLS && base + GROUP <= dst.Length && cells != dst
    modifies dst
    ensures dst[base..base + GROUP] == GroupBits(ma3, g, cells[..], GROUP)
    ensures dst[..base] == old(dst[..base])
  {
    ghost var all := cells[..];
    var n := 0;
    while n < GROUP
      invariant 0 <= n <= GROUP && cells[..] == all && dst[base..base + n] == GroupBits(ma3, g, all, n)
      invariant dst[..base] == old(dst[..base])
    {
      GroupPlaces(ma3, g, n);
      var x := ReadBit(cells, GroupSpot(ma3, g, n), Low(g));
      GroupBitsMore(ma3, g, all, n, x);
      dst[base + n] := x;
      assert dst[base..base + (n + 1)] == dst[base..base + n] + [x];
      n := n + 1;
    }
  }

  lemma GroupBitsMore(ma3: bool, g: nat, cells: seq<nat>, n: nat, x: nat)
    requires |cells| == BLOCK_CELLS && n < GROUP && GroupSpot(ma3, g, n).Within(3)
    requires x == BitMap(cells, GroupSpot(ma3, g, n), Low(g))
    ensures GroupBits(ma3, g, cells, n + 1) == GroupBits(ma3, g, cells, n) + [x]
  {
  }

  // ---------- depuncturing ----------

  // Positions 1, 4 and 7 of every fifteen are punctured (first convolutional code).
  predicate Kept(i: nat) { i % 15 != 1 && i % 15 != 4 && i % 15 != 7 }

  // Kept positions below i.
  function Offset(i: nat): nat {
    var v := i % 15;
    12 * (i / 15) + v - (if v > 1 then 1 else 0) - (if v > 4 then 1 else 0) - (if v > 7 then 1 else 0)
  }

  lemma OffsetStep(i: nat)
    ensures Offset(i + 1) == Offset(i) + if Kept(i) then 1 else 0
  {
    var u, v := i / 15, i % 15;
    if v == 14 { DivUnique(i + 1, 15, u + 1, 0); } else { DivUnique(i + 1, 15, u, v + 1); }
  }

  // The Viterbi input for hard bits xs: +1 and -1, and zeros where punctured.
  ghost predicate Depunct(out: seq<int>, xs: seq<nat>, n: nat) {
    && n <= |out| && Offset(n) <= |xs|
    && forall i: nat :: i < n ==> Offset(i) <= |xs| && out[i] == Soft(xs, i)
  }

  function Soft(xs: seq<nat>, i: nat): int {
    if !Kept(i) then 0 else if Offset(i) < |xs| && xs[Offset(i)] != 0 then 1 else -1
  }

  method Depuncture(xs: array<nat>, out: array<int>)
    requires xs.Length == OUTPUT && out.Length == 90000
    modifies out
    ensures Depunct(out[..], xs[..], 90000) && Offset(90000) == OUTPUT
  {
    var offset, i := 0, 0;
    while i < 90000
      invariant 0 <= i <= 90000 && offset == Offset(i) <= OUTPUT
      invariant Depunct(out[..], xs[..], i)
    {
      OffsetStep(i);
      assert Offset(i + 1) <= OUTPUT;
      if i % 15 == 1 || i % 15 == 4 || i % 15 == 7 {
        out[i] := 0;
      } else {
        out[i] := if xs[offset] != 0 then 1 else -1;
        offset := offset + 1;
      }
      i := i + 1;
    }
  }

  /** Each of the eight frames is a depunctured one of the first AM pattern. */
  lemma FrameIsDepunctured(out: seq<int>, xs: seq<nat>, bc: nat)
    requires Depunct(out, xs, 90000) && bc < 8
    ensures ConvFrames.Depunctured(RoundTrip.E1, out[11250 * bc..11250 * bc + 11250], 3750)
  {
    var f := out[11250 * bc..11250 * bc + 11250];
    forall j: nat | j < |f| ensures -1 <= f[j] <= 1 {
      assert f[j] == out[11250 * bc + j] == Soft(xs, 11250 * bc + j);
    }
    forall j: nat, m: nat | j < 3750 && m < 3 && !RoundTrip.Sent(RoundTrip.E1, j, m) ensures RoundTrip.At(f, j, m) == 0 {
      var i := 11250 * bc + 3 * j + 1;
      DivUnique(i, 15, 750 * bc + j / 5, 3 * (j % 5) + 1);
      assert out[i] == Soft(xs, i);
    }
  }

  // ---------- the delay lines ----------

  // A line of four slots of which the lower three hold the last three frames.
  ghost predicate Line(line: seq<nat>, frames: seq<seq<nat>>) {
    && |line| == GROUP + DELAY && (forall f :: 0 <= f < |frames| ==> |frames[f]| == GROUP)
    && (|frames| >= 3 ==> line[..GROUP] == frames[|frames| - 3])
    && (|frames| >= 2 ==> line[GROUP..2 * GROUP] == frames[|frames| - 2])
    && (|frames| >= 1 ==> line[2 * GROUP..DELAY] == frames[|frames| - 1])
  }

  // memmove(line, line + 18000, DIVERSITY_DELAY_AM)
  method Shift(line: array<nat>)
    requires line.Length == GROUP + DELAY
    modifies line
    ensures line[..DELAY] == old(line[GROUP..])
  {
    var j := 0;
    while j < DELAY
      invariant 0 <= j <= DELAY && line[..j] == old(line[GROUP..GROUP + j])
      invariant line[GROUP + j..] == old(line[GROUP + j..])
    {
      assert line[GROUP + j] == line[GROUP + j..][0];
      line[j] := line[GROUP + j];
      assert line[GROUP + j + 1..] == old(line[GROUP + j..])[1..];
      j := j + 1;
    }
  }

  // After a frame is put in the top slot and the line shifted, it is the newest.
  lemma LineShifts(was: seq<nat>, filled: seq<nat>, line: seq<nat>, frames: seq<seq<nat>>, frame: seq<nat>)
    requires Line(was, frames) && |filled| == |line| == GROUP + DELAY && |frame| == GROUP
    requires filled[..DELAY] == was[..DELAY] && filled[DELAY..] == frame && line[..DELAY] == filled[GROUP..]
    ensures Line(line, frames + [frame])
  {
    assert line[..GROUP] == filled[GROUP..2 * GROUP] == was[GROUP..2 * GROUP];
    assert line[GROUP..2 * GROUP] == filled[2 * GROUP..DELAY] == was[2 * GROUP..DELAY];
    assert line[2 * GROUP..DELAY] == filled[DELAY..];
  }

  // ---------- one output ----------

  // The rows of the output are filled from the four groups.
  ghost predicate Assembled(out: seq<nat>, groups: seq<seq<nat>>, i: nat) {
    && |out| == OUTPUT && |groups| == 4 && (forall g :: 0 <= g < 4 ==> |groups[g]| == GROUP) && 3 * i <= GROUP
    && forall g: nat, n: nat :: g < 4 && n < 3 * i ==> out[GroupPlace(g, n)] == groups[g][n]
  }

  function GroupPlace(g: nat, n: nat): (x: nat)
    requires g < 4
    ensures n < GROUP ==> x < OUTPUT
  {
    PlaceOf(MAIN_TABLES[g], 12, n)
  }

  // Rows of place numbers: entry t of table g within a row of twelve.
  function RowPlace(g: nat, t: nat): (r: nat)
    requires g < 4 && t < 3
    ensures r < 12
  {
    MAIN_TABLES[g][t]
  }

  lemma RowPlacesDiffer(g: nat, t: nat, g': nat, t': nat)
    requires g < 4 && t < 3 && g' < 4 && t' < 3 && RowPlace(g, t) == RowPlace(g', t')
    ensures g == g' && t == t'
  {
    MainTile();
    assert MAIN_OWNERS[MAIN_TABLES[g][t]] == (g, t);
    assert MAIN_OWNERS[MAIN_TABLES[g'][t']] == (g', t');
  }

  // j of the three turns of row i are done: the places of those soft bits hold
  // them, and other rows are as before.
  ghost predicate RowTo(out: seq<nat>, was: seq<nat>, groups: seq<seq<nat>>, i: nat, j: nat) {
    && |out| == |was| == OUTPUT && j <= 3 && 3 * i + 3 <= GROUP
    && |groups| == 4 && (forall g :: 0 <= g < 4 ==> |groups[g]| == GROUP)
    && (forall x: nat :: x < OUTPUT && (x < 12 * i || x >= 12 * i + 12) ==> out[x] == was[x])
    && (forall g: nat, t: nat :: g < 4 && t < j ==> out[12 * i + RowPlace(g, t)] == groups[g][3 * i + t])
  }

  // The four assignments of one turn.
  lemma RowStep(out: seq<nat>, was: seq<nat>, groups: seq<seq<nat>>, i: nat, j: nat, next: seq<nat>)
    requires RowTo(out, was, groups, i, j) && j < 3
    requires next == out[12 * i + RowPlace(0, j) := groups[0][3 * i + j]][12 * i + RowPlace(1, j) := groups[1][3 * i + j]]
                        [12 * i + RowPlace(2, j) := groups[2][3 * i + j]][12 * i + RowPlace(3, j) := groups[3][3 * i + j]]
    ensures RowTo(next, was, groups, i, j + 1)
  {
    forall g: nat, t: nat | g < 4 && t < j + 1 ensures next[12 * i + RowPlace(g, t)] == groups[g][3 * i + t] {
      forall g': nat | g' < 4 && RowPlace(g, t) == RowPlace(g', j) ensures g == g' && t == j { RowPlacesDiffer(g, t, g', j); }
    }
  }

  lemma RowDone(out: seq<nat>, was: seq<nat>, groups: seq<seq<nat>>, i: nat)
    requires Assembled(was, groups, i) && RowTo(out, was, groups, i, 3)
    ensures Assembled(out, groups, i + 1)
  {
    forall g: nat, n: nat | g < 4 && n < 3 * (i + 1) ensures out[GroupPlace(g, n)] == groups[g][n] {
      PlaceInRow(g, n);
      if n >= 3 * i {
        DivUnique(n, 3, i, n - 3 * i);
        assert out[12 * i + RowPlace(g, n - 3 * i)] == groups[g][3 * i + (n - 3 * i)];
      }
    }
  }

  lemma PlaceInRow(g: nat, n: nat)
    requires g < 4
    ensures GroupPlace(g, n) == 12 * (n / 3) + RowPlace(g, n % 3)
  {
  }

  // The assignments for one i.
  method FillRow(out: array<nat>, groups: seq<seq<nat>>, i: nat)
    requires Assembled(out[..], groups, i) && 3 * (i + 1) <= GROUP
    modifies out
    ensures Assembled(out[..], groups, i + 1)
  {
    ghost var was := out[..];
    var j := 0;
    while j < 3
      invariant 0 <= j <= 3 && RowTo(out[..], was, groups, i, j)
    {
      FillTurn(out, groups, i, j, was);
      j := j + 1;
    }
    RowDone(out[..], was, groups, i);
  }

  method FillTurn(out: array<nat>, groups: seq<seq<nat>>, i: nat, j: nat, ghost was: seq<nat>)
    requires RowTo(out[..], was, groups, i, j) && j < 3
    modifies out
    ensures RowTo(out[..], was, groups, i, j + 1)
  {
    ghost var before := out[..];
    out[i * 12 + BL_DELAY[j]] := groups[0][i * 3 + j];
    out[i * 12 + ML_DELAY[j]] := groups[1][i * 3 + j];
    out[i * 12 + BU_DELAY[j]] := groups[2][i * 3 + j];
    out[i * 12 + MU_DELAY[j]] := groups[3][i * 3 + j];
    RowStep(before, was, groups, i, j, out[..]);
  }

  // The loop over i.
  method Assemble(out: array<nat>, groups: seq<seq<nat>>)
    requires out.Length == OUTPUT && |groups| == 4 && forall g :: 0 <= g < 4 ==> |groups[g]| == GROUP
    modifies out
    ensures Assembled(out[..], groups, 6000)
  {
    var i := 0;
    while i < 6000
      invariant 0 <= i <= 6000 && Assembled(out[..], groups, i)
    {
      FillRow(out, groups, i);
      i := i + 1;
    }
  }

  // ---------- the deinterleaver ----------

  // Delayed group g of every frame.
  ghost predicate DelayedOf(ma3: bool, g: nat, matrices: seq<seq<nat>>, groups: seq<seq<nat>>) {
    |matrices| == |groups| && forall f :: 0 <= f < |matrices| ==>
      |matrices[f]| == BLOCK_CELLS && groups[f] == GroupBits(ma3, g, matrices[f], GROUP)
  }

  /** State of one output: P1, or P3 in service mode MA3. */
  class Deinterleaver {
    const ma3: bool
    const lower: array<nat>      // buffer_pl, buffer_t
    const upper: array<nat>      // buffer_pu, buffer_s
    const bl: array<nat>
    const ml: array<nat>
    const bu: array<nat>
    const mu: array<nat>
    const out: array<nat>
    const viterbi: array<int>
    var wait: nat
    // The matrices of every frame since the reset, and their delayed groups.
    ghost var lowers: seq<seq<nat>>
    ghost var uppers: seq<seq<nat>>
    ghost var mls: seq<seq<nat>>
    ghost var mus: seq<seq<nat>>

    ghost predicate Shape() {
      && lower.Length == upper.Length == BLOCK_CELLS
      && bl.Length == bu.Length == GROUP && ml.Length == mu.Length == GROUP + DELAY
      && out.Length == OUTPUT && viterbi.Length == 90000
      && bl != ml && bl != bu && bl != mu && bl != out && ml != bu && ml != mu && ml != out && bu != mu && bu != out && mu != out
      && {lower, upper} !! {bl, ml, bu, mu, out}
    }

    ghost predicate Lines()
      reads this, ml, mu
    {
      && Shape() && |mls| == |mus| && Line(ml[..], mls) && Line(mu[..], mus)
      && wait == if |mls| >= 4 then 0 else 4 - |mls|
    }

    ghost predicate Valid()
      reads this, ml, mu
    {
      && Lines() && DelayedOf(ma3, 1, lowers, mls) && DelayedOf(ma3, 3, uppers, mus)
    }

    // When the wait is over, the output combines the undelayed groups of the latest
    // frame with the delayed groups of three frames before, and is depunctured.
    ghost predicate Ready()
      reads this, out, viterbi
    {
      wait == 0 ==>
        && |lowers| == |uppers| == |mls| == |mus| && |mls| >= 4 && |lowers[|lowers| - 1]| == |uppers[|uppers| - 1]| == BLOCK_CELLS
        && Assembled(out[..], Groups(lowers[|lowers| - 1], mls[|mls| - 4], uppers[|uppers| - 1], mus[|mus| - 4]), 6000)
        && Depunct(viterbi[..], out[..], 90000)
    }

    ghost function Groups(lower: seq<nat>, ml: seq<nat>, upper: seq<nat>, mu: seq<nat>): seq<seq<nat>>
      requires |lower| == |upper| == BLOCK_CELLS
    {
      [GroupBits(ma3, 0, lower, GROUP), ml, GroupBits(ma3, 2, upper, GROUP), mu]
    }

    constructor (ma3: bool)
      ensures Valid() && Ready() && this.ma3 == ma3 && lowers == uppers == mls == [] && wait == 4
    {
      this.ma3 := ma3;
      lower, upper := new nat[BLOCK_CELLS], new nat[BLOCK_CELLS];
      bl, bu := new nat[GROUP], new nat[GROUP];
      ml, mu := new nat[GROUP + DELAY], new nat[GROUP + DELAY];
      out, viterbi := new nat[OUTPUT], new int[90000];
      wait, mls, mus, lowers, uppers := 4, [], [], [], [];
    }

    // decode_reset: the lines keep what they hold, but it no longer counts.
    method Reset()
      requires Shape()
      modifies this`wait, this`mls, this`mus, this`lowers, this`uppers
      ensures Valid() && Ready() && lowers == uppers == mls == [] && wait == 4
    {
      wait, mls, mus, lowers, uppers := 4, [], [], [], [];
    }

    // A group that is not delayed fills its array, one that is the top slot of its
    // delay line.
    method FillWhole(g: nat, cells: array<nat>, dst: array<nat>)
      requires cells.Length == BLOCK_CELLS && dst.Length == GROUP && cells != dst
      modifies dst
      ensures dst[..] == GroupBits(ma3, g, cells[..], GROUP)
    {
      FillGroup(ma3, g, cells, dst, 0);
      assert dst[..] == dst[0..GROUP];
    }

    method FillTop(g: nat, cells: array<nat>, line: array<nat>)
      requires cells.Length == BLOCK_CELLS && line.Length == GROUP + DELAY && cells != line
      modifies line
      ensures line[DELAY..] == GroupBits(ma3, g, cells[..], GROUP) && line[..DELAY] == old(line[..DELAY])
    {
      FillGroup(ma3, g, cells, line, DELAY);
      assert line[DELAY..] == line[DELAY..DELAY + GROUP];
    }

    // The loop that reads the four groups.
    method FillGroups()
      requires Shape()
      modifies bl, ml, bu, mu
      ensures bl[..] == GroupBits(ma3, 0, lower[..], GROUP) && bu[..] == GroupBits(ma3, 2, upper[..], GROUP)
      ensures ml[DELAY..] == GroupBits(ma3, 1, lower[..], GROUP) && ml[..DELAY] == old(ml[..DELAY])
      ensures mu[DELAY..] == GroupBits(ma3, 3, upper[..], GROUP) && mu[..DELAY] == old(mu[..DELAY])
    {
      FillWhole(0, lower, bl);
      FillTop(1, lower, ml);
      FillWhole(2, upper, bu);
      FillTop(3, upper, mu);
    }

    // One delay line moves on by a frame.
    method Advance(line: array<nat>, ghost was: seq<nat>, ghost frames: seq<seq<nat>>)
      requires line.Length == GROUP + DELAY && Line(was, frames) && line[..DELAY] == was[..DELAY]
      modifies line
      ensures Line(line[..], frames + [old(line[DELAY..])])
    {
      ghost var full := line[..];
      Shift(line);
      assert full[DELAY..] == old(line[DELAY..]) && full[..DELAY] == was[..DELAY];
      LineShifts(was, full, line[..], frames, old(line[DELAY..]));
    }

    // Reading the groups and filling the output from them.
    method FillOutput()
      requires Shape()
      modifies bl, ml, bu, mu, out
      ensures ml[DELAY..] == GroupBits(ma3, 1, lower[..], GROUP) && ml[..DELAY] == old(ml[..DELAY])
      ensures mu[DELAY..] == GroupBits(ma3, 3, upper[..], GROUP) && mu[..DELAY] == old(mu[..DELAY])
      ensures Assembled(out[..], [GroupBits(ma3, 0, lower[..], GROUP), old(ml[..GROUP]), GroupBits(ma3, 2, upper[..], GROUP), old(mu[..GROUP])], 6000)
    {
      ghost var wasMl, wasMu := ml[..], mu[..];
      FillGroups();
      assert ml[..GROUP] == ml[..DELAY][..GROUP] == wasMl[..GROUP];
      assert mu[..GROUP] == mu[..DELAY][..GROUP] == wasMu[..GROUP];
      Assemble(out, [bl[..], ml[..GROUP], bu[..], mu[..GROUP]]);
    }

    // Both delay lines move on.
    method AdvanceLines(ghost wasMl: seq<nat>, ghost wasMu: seq<nat>)
      requires Shape() && |mls| == |mus| && Line(wasMl, mls) && Line(wasMu, mus)
      requires ml[..DELAY] == wasMl[..DELAY] && mu[..DELAY] == wasMu[..DELAY]
      modifies this`mls, this`mus, ml, mu
      ensures Line(ml[..], mls) && Line(mu[..], mus)
      ensures mls == old(mls) + [old(ml[DELAY..])] && mus == old(mus) + [old(mu[DELAY..])]
    {
      ghost var newMl, newMu := ml[DELAY..], mu[DELAY..];
      Advance(ml, wasMl, mls);
      Advance(mu, wasMu, mus);
      mls, mus := mls + [newMl], mus + [newMu];
    }

    /** interleaver_ma1 at the end of a frame, and the countdown of
        decode_process_p1_p3_am: the output combines the undelayed groups of this
        frame with the delayed groups of three frames ago, and is depunctured. */
    method EndOfFrame()
      requires Valid()
      modifies this`wait, this`mls, this`mus, this`lowers, this`uppers, bl, ml, bu, mu, out, viterbi
      ensures Valid() && Ready() && Depunct(viterbi[..], out[..], 90000)
      ensures wait == if old(wait) > 0 then old(wait) - 1 else 0
      ensures lowers == old(lowers) + [old(lower[..])] && uppers == old(uppers) + [old(upper[..])]
    {
      NextOutput();
      lowers, uppers := lowers + [lower[..]], uppers + [upper[..]];
    }

    method NextOutput()
      requires Lines()
      modifies this`wait, this`mls, this`mus, bl, ml, bu, mu, out, viterbi
      ensures Lines() && wait == if old(wait) > 0 then old(wait) - 1 else 0
      ensures mls == old(mls) + [GroupBits(ma3, 1, old(lower[..]), GROUP)]
      ensures mus == old(mus) + [GroupBits(ma3, 3, old(upper[..]), GROUP)]
      ensures wait == 0 ==> |mls| >= 4 && Assembled(out[..],
        [GroupBits(ma3, 0, old(lower[..]), GROUP), mls[|mls| - 4], GroupBits(ma3, 2, old(upper[..]), GROUP), mus[|mus| - 4]], 6000)
      ensures Depunct(viterbi[..], out[..], 90000)
    {
      ghost var wasMl, wasMu := ml[..], mu[..];
      FillOutput();
      AdvanceLines(wasMl, wasMu);
      Depuncture(out, viterbi);
      if wait > 0 {
        wait := wait - 1;
      }
    }
  }
}
