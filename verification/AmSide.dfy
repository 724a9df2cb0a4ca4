/** The AM deinterleavers without diversity delay: P3 in service mode MA1
    (src/decode.c:100-116, 152-162, 198-213) and PIDS (src/decode.c:474-505). */
module AmSide {
  import opened Basics
  import opened Arith
  import opened AmInterleaver
  import opened AmDecoder
  import RoundTrip
  import ConvFrames

  // ---------- filling an output from its groups ----------

  // The soft bit that owns place x.
  function WantFormula(groups: seq<seq<int>>, tables: seq<seq<nat>>, owners: seq<(nat, nat)>, x: nat): int
    requires |owners| > 0
  {
    var o := owners[x % |owners|];
    if o.0 < |tables| && o.0 < |groups| && x / |owners| * |tables[o.0]| + o.1 < |groups[o.0]|
    then groups[o.0][x / |owners| * |tables[o.0]| + o.1] else 0
  }

  function Want(groups: seq<seq<int>>, tables: seq<seq<nat>>, owners: seq<(nat, nat)>, x: nat): int
    requires |owners| > 0
  {
    SealedWant(SEALS, groups, tables, owners, x)
  }

  function SealedWant(seals: seq<bool>, groups: seq<seq<int>>, tables: seq<seq<nat>>, owners: seq<(nat, nat)>, x: nat): int
    requires |owners| > 0
    decreases |seals|
  {
    if |seals| > 0 then SealedWant(seals[1..], groups, tables, owners, x) else WantFormula(groups, tables, owners, x)
  }

  lemma {:induction false} OpenWant(seals: seq<bool>, groups: seq<seq<int>>, tables: seq<seq<nat>>, owners: seq<(nat, nat)>, x: nat)
    requires |owners| > 0
    ensures SealedWant(seals, groups, tables, owners, x) == WantFormula(groups, tables, owners, x)
    decreases |seals|
  {
    if |seals| > 0 { OpenWant(seals[1..], groups, tables, owners, x); }
  }

  // In row i, entry j of table g belongs to soft bit i * count + j of group g.
  lemma WantAt(groups: seq<seq<int>>, tables: seq<seq<nat>>, owners: seq<(nat, nat)>, i: nat, g: nat, j: nat)
    requires |owners| > 0 && Tile(tables, owners) && g < |tables| == |groups| && j < |tables[g]|
    requires i * |tables[g]| + j < |groups[g]|
    ensures tables[g][j] < |owners|
    ensures Want(groups, tables, owners, i * |owners| + tables[g][j]) == groups[g][i * |tables[g]| + j]
  {
    var x, w, r := i * |owners| + tables[g][j], |owners|, tables[g][j];
    OpenWant(SEALS, groups, tables, owners, x);
    assert owners[r] == (g, j);
    assert w * i == i * w;
    DivUnique(x, w, i, r);
  }

  /** In terms of the delay tables: soft bit n of a group is at its place. */
  lemma PlacedBits(out: seq<int>, groups: seq<seq<int>>, tables: seq<seq<nat>>, owners: seq<(nat, nat)>, rows: nat,
                   g: nat, n: nat)
    requires |owners| > 0 && Tile(tables, owners) && Supplied(groups, tables, rows) && g < |tables| && n < |groups[g]|
    requires |out| == rows * |owners| && forall x: nat :: x < |out| ==> PlacedAt(out, groups, tables, owners, x)
    ensures var x := PlaceOf(tables[g], |owners|, n); x < |out| && out[x] == groups[g][n]
  {
    var t := |tables[g]|;
    var i: nat, j: nat := n / t, n % t;
    assert n == i * t + j;
    if i >= rows { MulMono(rows, i, t); }
    WantAt(groups, tables, owners, i, g, j);
    InRow(rows, i, |owners|, tables[g][j]);
    assert PlacedAt(out, groups, tables, owners, i * |owners| + tables[g][j]);
  }

  // Place x holds the soft bit that owns it.
  ghost predicate PlacedAt(out: seq<int>, groups: seq<seq<int>>, tables: seq<seq<nat>>, owners: seq<(nat, nat)>, x: nat)
    requires |owners| > 0
  {
    x < |out| && out[x] == Want(groups, tables, owners, x)
  }

  // All groups have their soft bits for this many rows.
  ghost predicate Supplied(groups: seq<seq<int>>, tables: seq<seq<nat>>, rows: nat) {
    |groups| == |tables| && forall g :: 0 <= g < |tables| ==> |groups[g]| == rows * |tables[g]|
  }

  lemma InRow(rows: nat, i: nat, width: nat, r: nat)
    requires i < rows && r < width
    ensures i * width + r < rows * width
  {
    assert (i + 1) * width <= rows * width;
    assert (i + 1) * width == i * width + width;
  }

  // In the row that starts at b the places of the first g tables, and of the first
  // j entries of the next, are filled.
  ghost predicate RowFilled(out: seq<int>, groups: seq<seq<int>>, tables: seq<seq<nat>>, owners: seq<(nat, nat)>,
                            b: nat, g: nat, j: nat)
    requires |owners| > 0
  {
    forall r: nat :: r < |owners| && (owners[r].0 < g || (owners[r].0 == g && owners[r].1 < j)) ==>
      PlacedAt(out, groups, tables, owners, b + r)
  }

  // out[i * width + table[j]] = group[i * count + j], for one table.
  method FillTable(out: array<int>, groups: seq<seq<int>>, tables: seq<seq<nat>>, ghost owners: seq<(nat, nat)>,
                   width: nat, rows: nat, i: nat, g: nat)
    requires width == |owners| > 0 && Tile(tables, owners) && Supplied(groups, tables, rows)
    requires i < rows && g < |tables| && out.Length == rows * width
    requires RowFilled(out[..], groups, tables, owners, i * width, g, 0)
    modifies out
    ensures RowFilled(out[..], groups, tables, owners, i * width, g + 1, 0)
    ensures forall x :: 0 <= x < i * width && x < out.Length ==> out[x] == old(out[x])
  {
    var j := 0;
    while j < |tables[g]|
      invariant 0 <= j <= |tables[g]| && RowFilled(out[..], groups, tables, owners, i * width, g, j)
      invariant forall x :: 0 <= x < i * width && x < out.Length ==> out[x] == old(out[x])
    {
      InRow(rows, i, width, tables[g][j]);
      InRow(rows, i, |tables[g]|, j);
      WantAt(groups, tables, owners, i, g, j);
      ghost var before := out[..];
      out[i * width + tables[g][j]] := groups[g][i * |tables[g]| + j];
      OneMore(before, out[..], groups, tables, owners, i * width, g, j);
      j := j + 1;
    }
    NextTable(out[..], groups, tables, owners, i * width, g);
  }

  lemma NextTable(out: seq<int>, groups: seq<seq<int>>, tables: seq<seq<nat>>, owners: seq<(nat, nat)>, b: nat, g: nat)
    requires |owners| > 0 && Tile(tables, owners) && g < |tables|
    requires RowFilled(out, groups, tables, owners, b, g, |tables[g]|)
    ensures RowFilled(out, groups, tables, owners, b, g + 1, 0)
  {
    forall r: nat | r < |owners| && owners[r].0 < g + 1 ensures PlacedAt(out, groups, tables, owners, b + r) {
      assert owners[r].1 < |tables[owners[r].0]|;
    }
  }

  lemma OneMore(before: seq<int>, after: seq<int>, groups: seq<seq<int>>, tables: seq<seq<nat>>, owners: seq<(nat, nat)>,
                b: nat, g: nat, j: nat)
    requires |owners| > 0 && Tile(tables, owners) && RowFilled(before, groups, tables, owners, b, g, j)
    requires g < |tables| && j < |tables[g]| && b + tables[g][j] < |before|
    requires after == before[b + tables[g][j] := Want(groups, tables, owners, b + tables[g][j])]
    ensures RowFilled(after, groups, tables, owners, b, g, j + 1)
  {
    forall r: nat | r < |owners| && (owners[r].0 < g || (owners[r].0 == g && owners[r].1 < j + 1))
      ensures PlacedAt(after, groups, tables, owners, b + r)
    {
      if r != tables[g][j] {
        assert owners[r] != (g, j);
        assert PlacedAt(before, groups, tables, owners, b + r);
      }
    }
  }

  /** The loops over rows and delay tables: every place of the output gets the soft
      bit that owns it. */
  method FillRows(out: array<int>, groups: seq<seq<int>>, tables: seq<seq<nat>>, ghost owners: seq<(nat, nat)>,
                  width: nat, rows: nat)
    requires width == |owners| > 0 && Tile(tables, owners) && Supplied(groups, tables, rows)
    requires out.Length == rows * width
    modifies out
    ensures forall x: nat :: x < out.Length ==> PlacedAt(out[..], groups, tables, owners, x)
  {
    var i := 0;
    while i < rows
      invariant 0 <= i <= rows
      invariant forall x: nat :: x < i * width ==> PlacedAt(out[..], groups, tables, owners, x)
    {
      ghost var before := out[..];
      InRow(rows, i, width, 0);
      var g := 0;
      while g < |tables|
        invariant 0 <= g <= |tables| && RowFilled(out[..], groups, tables, owners, i * width, g, 0)
        invariant forall x :: 0 <= x < i * width ==> out[x] == before[x]
      {
        FillTable(out, groups, tables, owners, width, rows, i, g);
        g := g + 1;
      }
      RowsGrow(before, out[..], groups, tables, owners, i * width);
      assert (i + 1) * width == i * width + width;
      i := i + 1;
    }
  }

  lemma RowsGrow(before: seq<int>, after: seq<int>, groups: seq<seq<int>>, tables: seq<seq<nat>>, owners: seq<(nat, nat)>,
                 b: nat)
    requires |owners| > 0 && Tile(tables, owners)
    requires forall x: nat :: x < b ==> PlacedAt(before, groups, tables, owners, x)
    requires b <= |before| == |after| && forall x :: 0 <= x < b ==> after[x] == before[x]
    requires RowFilled(after, groups, tables, owners, b, |tables|, 0)
    ensures forall x: nat :: x < b + |owners| ==> PlacedAt(after, groups, tables, owners, x)
  {
    forall x: nat | x < b + |owners| ensures PlacedAt(after, groups, tables, owners, x) {
      if x < b {
        assert PlacedAt(before, groups, tables, owners, x);
      } else {
        assert owners[x - b].0 < |tables|;
        assert PlacedAt(after, groups, tables, owners, b + (x - b));
      }
    }
  }

  // ---------- P3 in service mode MA1 ----------

  const SIDE_BITS := 36000
  const SIDE_LEN := 24000

  // The place of soft bit n of el, in the left matrix, or of eu, in the upper one.
  function SideSpot(upper: bool, n: nat): Spot { if upper then Upper(n) else Left(n) }

  function SideCount(upper: bool): nat { if upper then 24000 else 12000 }

  ghost predicate SideRead(xs: seq<int>, upper: bool, cells: seq<nat>, n: nat)
    requires |cells| == BLOCK_CELLS && n <= SideCount(upper)
  {
    n <= |xs| && forall m: nat :: m < n ==>
      SideSpot(upper, m).block < 8 && SideSpot(upper, m).cell < PER_BLOCK && xs[m] == BitMap(cells, SideSpot(upper, m), 0)
  }

  /** The loop that reads el or eu. */
  method ReadSide(upper: bool, cells: array<nat>) returns (xs: array<int>)
    requires cells.Length == BLOCK_CELLS
    ensures fresh(xs) && xs.Length == SideCount(upper) && SideRead(xs[..], upper, cells[..], SideCount(upper))
  {
    xs := new int[SideCount(upper)](_ => 0);
    var n := 0;
    while n < SideCount(upper)
      invariant 0 <= n <= SideCount(upper) && SideRead(xs[..], upper, cells[..], n)
    {
      if upper { UpperPlaces(n); } else { LeftPlaces(n); }
      var x := ReadBit(cells, SideSpot(upper, n), 0);
      xs[n] := x;
      n := n + 1;
    }
  }

  // Positions 1, 4 and 5 of every six are punctured (second convolutional code).
  predicate SideKept(i: nat) { i % 6 != 1 && i % 6 != 4 && i % 6 != 5 }

  // Kept positions below i.
  function SideOffset(i: nat): nat {
    var v := i % 6;
    3 * (i / 6) + (if v > 0 then 1 else 0) + (if v > 2 then 1 else 0) + (if v > 3 then 1 else 0)
  }

  lemma SideOffsetStep(i: nat)
    ensures SideOffset(i + 1) == SideOffset(i) + if SideKept(i) then 1 else 0
  {
    var u, v := i / 6, i % 6;
    if v == 5 { DivUnique(i + 1, 6, u + 1, 0); } else { DivUnique(i + 1, 6, u, v + 1); }
  }

  function Sign(x: int): int { if x != 0 then 1 else -1 }

  // The Viterbi input: signs of the bits in order, zeros where punctured.
  ghost predicate SideDepunct(out: seq<int>, xs: seq<int>, n: nat) {
    && n <= |out|
    && forall i: nat :: i < n ==> if SideKept(i) then SideOffset(i) < |xs| && out[i] == Sign(xs[SideOffset(i)]) else out[i] == 0
  }

  method SideDepuncture(xs: array<int>, out: array<int>)
    requires xs.Length == SIDE_BITS && out.Length == 3 * SIDE_LEN && xs != out
    modifies out
    ensures SideDepunct(out[..], xs[..], 3 * SIDE_LEN) && SideOffset(3 * SIDE_LEN) == SIDE_BITS
  {
    var offset, i := 0, 0;
    while i < 3 * SIDE_LEN
      invariant 0 <= i <= 3 * SIDE_LEN && offset == SideOffset(i) <= SIDE_BITS
      invariant SideDepunct(out[..], xs[..], i)
    {
      SideOffsetStep(i);
      assert SideOffset(i + 1) <= SIDE_BITS;
      if i % 6 == 1 || i % 6 == 4 || i % 6 == 5 {
        out[i] := 0;
      } else {
        out[i] := if xs[offset] != 0 then 1 else -1;
        offset := offset + 1;
      }
      i := i + 1;
    }
  }

  /** interleaver_ma1 for P3 in service mode MA1: every soft bit of el and eu is at its
      place, and the decoder's input is their signs in order, depunctured. */
  method SideFrame(left: array<nat>, upper: array<nat>, viterbi: array<int>) returns (p3: array<int>)
    requires left.Length == upper.Length == BLOCK_CELLS && viterbi.Length == 3 * SIDE_LEN
    modifies viterbi
    ensures fresh(p3) && p3.Length == SIDE_BITS && SideDepunct(viterbi[..], p3[..], 3 * SIDE_LEN)
    ensures SidePlaced(p3[..], false, left[..]) && SidePlaced(p3[..], true, upper[..])
  {
    var el := ReadSide(false, left);
    var eu := ReadSide(true, upper);
    p3 := new int[SIDE_BITS](_ => 0);
    SideTile();
    FillRows(p3, [el[..], eu[..]], SIDE_TABLES, SIDE_OWNERS, 6, 6000);
    SidesPlaced(p3[..], [el[..], eu[..]], false, left[..]);
    SidesPlaced(p3[..], [el[..], eu[..]], true, upper[..]);
    SideDepuncture(p3, viterbi);
  }

  // Soft bit n of the group is at its place, and is the bit of its cell.
  ghost predicate SidePlaced(p3: seq<int>, upper: bool, cells: seq<nat>)
    requires |cells| == BLOCK_CELLS
  {
    forall n: nat :: n < SideCount(upper) ==>
      && SideSpot(upper, n).Within(if upper then 4 else 2)
      && SidePlace(upper, n) < |p3|
      && p3[SidePlace(upper, n)] == BitMap(cells, SideSpot(upper, n), 0)
  }

  function SidePlace(upper: bool, n: nat): nat { PlaceOf(SIDE_TABLES[if upper then 1 else 0], 6, n) }

  lemma SidesPlaced(p3: seq<int>, groups: seq<seq<int>>, upper: bool, cells: seq<nat>)
    requires Tile(SIDE_TABLES, SIDE_OWNERS) && Supplied(groups, SIDE_TABLES, 6000) && |p3| == SIDE_BITS
    requires forall x: nat :: x < |p3| ==> PlacedAt(p3, groups, SIDE_TABLES, SIDE_OWNERS, x)
    requires |cells| == BLOCK_CELLS && SideRead(groups[if upper then 1 else 0], upper, cells, SideCount(upper))
    ensures SidePlaced(p3, upper, cells)
  {
    var g := if upper then 1 else 0;
    forall n: nat | n < SideCount(upper)
      ensures SideSpot(upper, n).Within(if upper then 4 else 2) && SidePlace(upper, n) < |p3|
      ensures p3[SidePlace(upper, n)] == BitMap(cells, SideSpot(upper, n), 0)
    {
      if upper { UpperPlaces(n); } else { LeftPlaces(n); }
      PlacedBits(p3, groups, SIDE_TABLES, SIDE_OWNERS, 6000, g, n);
    }
  }

  /** What the decoder gets is a depunctured frame of the second AM pattern. */
  lemma SideIsDepunctured(out: seq<int>, xs: seq<int>)
    requires |out| == 3 * SIDE_LEN && SideDepunct(out, xs, 3 * SIDE_LEN)
    ensures ConvFrames.Depunctured(RoundTrip.E2, out, SIDE_LEN)
  {
    forall j: nat, m: nat | j < SIDE_LEN && m < 3 && !RoundTrip.Sent(RoundTrip.E2, j, m) ensures RoundTrip.At(out, j, m) == 0 {
      var i := 3 * j + m;
      DivUnique(i, 6, j / 2, 3 * (j % 2) + m);
      assert !SideKept(i);
    }
  }

  // ---------- PIDS ----------

  const PIDS_LEN := 80

  // Bit of a cell of the PIDS block: cells of two columns alternate.
  function PidsBit(sbit: seq<nat>, n: nat, shift: nat, side: nat): nat
    requires |sbit| == 64 && side < 2
  {
    var (k, p) := PidsSpot(n, shift);
    (sbit[2 * PidsRow(k) + side] / Pow2(p)) % 2
  }

  // The soft bits of a column; a disabled one counts as not received.
  ghost predicate PidsRead(xs: seq<int>, sbit: seq<nat>, shift: nat, side: nat, disabled: bool, n: nat)
    requires |sbit| == 64 && side < 2
  {
    n <= |xs| && forall m: nat :: m < n ==> xs[m] == if disabled then 0 else Sign(PidsBit(sbit, m, shift, side))
  }

  // The loop that reads a column.
  method ReadPids(sbit: seq<nat>, shift: nat, side: nat, disabled: bool) returns (xs: array<int>)
    requires |sbit| == 64 && side < 2
    ensures fresh(xs) && xs.Length == 120 && PidsRead(xs[..], sbit, shift, side, disabled, 120)
  {
    xs := new int[120](_ => 0);
    var n := 0;
    while n < 120
      invariant 0 <= n <= 120 && PidsRead(xs[..], sbit, shift, side, disabled, n)
    {
      var k := (n + n / 60 + shift) % 30;
      var row := (11 * (k + k / 15) + 3) % 32;
      var bit := (sbit[2 * row + side] / Pow2(n % 4)) % 2;
      xs[n] := if disabled then 0 else if bit != 0 then 1 else -1;
      n := n + 1;
    }
  }

  /** decode_process_pids_am up to the decoder: every soft bit of both columns is at its
      place. */
  method PidsFrame(sbit: seq<nat>, disabled: bool) returns (viterbi: array<int>)
    requires |sbit| == 64
    ensures fresh(viterbi) && viterbi.Length == 3 * PIDS_LEN
    ensures PidsPlaced(viterbi[..], sbit, disabled)
    ensures ConvFrames.Depunctured(RoundTrip.AmPids, viterbi[..], PIDS_LEN)
  {
    var il := ReadPids(sbit, 11, 0, disabled);
    var iu := ReadPids(sbit, 0, 1, false);
    viterbi := new int[3 * PIDS_LEN](_ => 0);
    PidsTile();
    FillRows(viterbi, [il[..], iu[..]], PIDS_TABLES, PIDS_OWNERS, 24, 10);
    BothPlaced(viterbi[..], [il[..], iu[..]], sbit, disabled);
  }

  ghost predicate PidsPlaced(out: seq<int>, sbit: seq<nat>, disabled: bool)
    requires |sbit| == 64
  {
    forall n: nat :: n < 120 ==>
      && PidsPlace(0, n) < |out| && out[PidsPlace(0, n)] == (if disabled then 0 else Sign(PidsBit(sbit, n, 11, 0)))
      && PidsPlace(1, n) < |out| && out[PidsPlace(1, n)] == Sign(PidsBit(sbit, n, 0, 1))
  }

  function PidsPlace(g: nat, n: nat): nat
    requires g < 2
  {
    PlaceOf(PIDS_TABLES[g], 24, n)
  }

  lemma BothPlaced(out: seq<int>, groups: seq<seq<int>>, sbit: seq<nat>, disabled: bool)
    requires Tile(PIDS_TABLES, PIDS_OWNERS) && Supplied(groups, PIDS_TABLES, 10) && |out| == 240 && |sbit| == 64
    requires forall x: nat :: x < |out| ==> PlacedAt(out, groups, PIDS_TABLES, PIDS_OWNERS, x)
    requires PidsRead(groups[0], sbit, 11, 0, disabled, 120) && PidsRead(groups[1], sbit, 0, 1, false, 120)
    ensures PidsPlaced(out, sbit, disabled) && ConvFrames.Depunctured(RoundTrip.AmPids, out, PIDS_LEN)
  {
    forall n: nat | n < 120
      ensures PidsPlace(0, n) < |out| && out[PidsPlace(0, n)] == (if disabled then 0 else Sign(PidsBit(sbit, n, 11, 0)))
      ensures PidsPlace(1, n) < |out| && out[PidsPlace(1, n)] == Sign(PidsBit(sbit, n, 0, 1))
    {
      PlacedBits(out, groups, PIDS_TABLES, PIDS_OWNERS, 10, 0, n);
      PlacedBits(out, groups, PIDS_TABLES, PIDS_OWNERS, 10, 1, n);
    }
    forall x: nat | x < 240 ensures -1 <= out[x] <= 1 {
      var o := OwnerOf(PIDS_TABLES, PIDS_OWNERS, x);
      PlacesOwned(PIDS_TABLES, PIDS_OWNERS, x);
      OwnerBounded(x, o.0, o.1);
      assert out[PidsPlace(o.0, o.1)] == out[x];
    }
  }

  lemma OwnerBounded(x: nat, g: nat, n: nat)
    requires x < 240 && g < 2 && PidsPlace(g, n) == x
    ensures n < 120
  {
  }
}
