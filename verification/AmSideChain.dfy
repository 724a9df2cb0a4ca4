/** The sender of P3 in service mode MA1 and of PIDS (src/decode.c:100-116, 152-162,
    198-213, 474-505), cell by cell, and what is received of it. */
module AmSideChain {
  import opened Basics
  import opened Arith
  import opened AmInterleaver
  import opened AmDecoder
  import opened AmSide
  import opened AmChain
  import opened RoundTrip
  import opened TailBiting
  import opened ConvStreams
  import ConvFrames

  // ---------- P3 in service mode MA1 ----------

  // The three outputs of six that are sent.
  const SIDE_SENT: seq<nat> := [0, 2, 3]

  function SidePosition(x: nat): nat { 6 * (x / 3) + SIDE_SENT[x % 3] }

  lemma SidePositionKept(i: nat)
    requires SideKept(i)
    ensures SidePosition(SideOffset(i)) == i
  {
    var v := i % 6;
    DivUnique(SideOffset(i), 3, i / 6, (if v > 0 then 1 else 0) + (if v > 2 then 1 else 0) + (if v > 3 then 1 else 0));
  }

  lemma SidePositionBelow(x: nat)
    requires x < SIDE_BITS
    ensures SidePosition(x) < 3 * SIDE_LEN
  {
  }

  // Output x of those that are sent.
  ghost function SideCoded(u: seq<int>, x: nat): int
    requires |u| == SIDE_LEN && x < SIDE_BITS
  {
    SidePositionBelow(x);
    Stream(E2, u, SidePosition(x) / 3, SidePosition(x) % 3)
  }

  function SideGroup(upper: bool): nat { if upper then 1 else 0 }

  function SideRow(upper: bool): nat { if upper then 4 else 2 }

  // Bit of a cell of the left or upper matrix that carries data.
  predicate IsSideData(upper: bool, b: nat, row: nat, column: nat, bit: nat) {
    IsData(b, row, column, bit) && bit < SideRow(upper)
  }

  ghost function NumberOfSide(upper: bool, b: nat, row: nat, column: nat, bit: nat): (n: nat)
    requires IsSideData(upper, b, row, column, bit)
    ensures n < SideCount(upper)
  {
    DataCell(row, column);
    var p := Spot(b, NumberOf(SEALS, row, column), bit);
    if upper then (UpperCovers(p); UpperBack(p)) else (LeftCovers(p); LeftBack(p))
  }

  // SIDE_OWNERS is the row of six in the order of sending.
  ghost predicate SideSent(u: seq<int>, upper: bool, cells: seq<nat>, b: nat, row: nat, column: nat, bit: nat)
    requires |u| == SIDE_LEN && |cells| == BLOCK_CELLS && IsSideData(upper, b, row, column, bit)
  {
    var n := NumberOfSide(upper, b, row, column, bit);
    forall r: nat :: r < 6 && SIDE_OWNERS[r] == (SideGroup(upper), n % SideRow(upper)) ==>
      CellBit(cells, b, row, column, bit) == SideCoded(u, 6 * (n / SideRow(upper)) + r)
  }

  ghost predicate SideMatrixSent(u: seq<int>, upper: bool, cells: seq<nat>) {
    && |u| == SIDE_LEN && |cells| == BLOCK_CELLS
    && forall b: nat, row: nat, column: nat, bit: nat ::
         IsSideData(upper, b, row, column, bit) ==> SideSent(u, upper, cells, b, row, column, bit)
  }

  lemma NumberOfSideSpot(upper: bool, n: nat)
    requires n < SideCount(upper)
    ensures var p := SideSpot(upper, n);
      && p.block < 8 && p.cell < PER_BLOCK
      && IsSideData(upper, p.block, RowOf(SEALS, p.cell), ColumnOf(SEALS, p.cell), p.bit)
      && NumberOfSide(upper, p.block, RowOf(SEALS, p.cell), ColumnOf(SEALS, p.cell), p.bit) == n
  {
    if upper { UpperPlaces(n); } else { LeftPlaces(n); }
    CellOf(SideSpot(upper, n).cell);
  }

  lemma SidePlaceIs(upper: bool, n: nat)
    requires n < SideCount(upper)
    ensures var r := SIDE_TABLES[SideGroup(upper)][n % SideRow(upper)];
      && r < 6 && SIDE_OWNERS[r] == (SideGroup(upper), n % SideRow(upper))
      && SidePlace(upper, n) == 6 * (n / SideRow(upper)) + r < SIDE_BITS
  {
    SideTile();
  }

  lemma SideBitReceived(u: seq<int>, upper: bool, cells: seq<nat>, p3: seq<int>, n: nat)
    requires SideMatrixSent(u, upper, cells) && SidePlaced(p3, upper, cells) && n < SideCount(upper)
    ensures SidePlace(upper, n) < SIDE_BITS && SidePlace(upper, n) < |p3|
    ensures p3[SidePlace(upper, n)] == SideCoded(u, SidePlace(upper, n))
  {
    NumberOfSideSpot(upper, n);
    SidePlaceIs(upper, n);
    var p := SideSpot(upper, n);
    BitOf(cells, p, 0);
    assert SideSent(u, upper, cells, p.block, RowOf(SEALS, p.cell), ColumnOf(SEALS, p.cell), p.bit);
  }

  lemma SideOutput(u: seq<int>, left: seq<nat>, upper: seq<nat>, p3: seq<int>, x: nat)
    requires SideMatrixSent(u, false, left) && SideMatrixSent(u, true, upper)
    requires SidePlaced(p3, false, left) && SidePlaced(p3, true, upper) && x < SIDE_BITS == |p3|
    ensures p3[x] == SideCoded(u, x)
  {
    SideTile();
    PlacesOwned(SIDE_TABLES, SIDE_OWNERS, x);
    var o := OwnerOf(SIDE_TABLES, SIDE_OWNERS, x);
    if o.0 == 0 {
      assert SidePlace(false, o.1) == x;
      SideBitReceived(u, false, left, p3, o.1);
    } else {
      assert SidePlace(true, o.1) == x;
      SideBitReceived(u, true, upper, p3, o.1);
    }
  }

  /** What was sent for P3 comes out. */
  lemma SideCarried(u: seq<int>, left: seq<nat>, upper: seq<nat>, p3: seq<int>, viterbi: seq<int>)
    requires Bits(u) && SideMatrixSent(u, false, left) && SideMatrixSent(u, true, upper)
    requires SidePlaced(p3, false, left) && SidePlaced(p3, true, upper) && |p3| == SIDE_BITS
    requires |viterbi| == 3 * SIDE_LEN && SideDepunct(viterbi, p3, 3 * SIDE_LEN)
    ensures Carries(E2, u, viterbi)
  {
    forall j: nat, m: nat | j < SIDE_LEN && m < 3 ensures CarriesAt(E2, u, viterbi, j, m) {
      var i := 3 * j + m;
      DivUnique(i, 6, j / 2, 3 * (j % 2) + m);
      DivUnique(i, 3, j, m);
      if Sent(E2, j, m) {
        SidePositionKept(i);
        SideOutput(u, left, upper, p3, SideOffset(i));
        StreamBit(E2, u, j, m);
      }
    }
  }

  lemma StreamBit(t: Pattern, u: seq<int>, j: nat, m: nat)
    requires j < |u| && 8 <= |u| && m < 3
    ensures Stream(t, u, j, m) == 0 || Stream(t, u, j, m) == 1
  {
  }

  method DecodeSide(left: array<nat>, upper: array<nat>, viterbi: array<int>) returns (out: array<int>)
    requires left.Length == upper.Length == BLOCK_CELLS && viterbi.Length == 3 * SIDE_LEN
    modifies viterbi
    ensures fresh(out) && out.Length == SIDE_LEN
    ensures forall u: seq<int> :: Bits(u) && SideMatrixSent(u, false, old(left[..])) && SideMatrixSent(u, true, old(upper[..])) ==>
      out[..] == u
  {
    ghost var l, h := left[..], upper[..];
    var p3 := SideFrame(left, upper, viterbi);
    ghost var frame, input := p3[..], viterbi[..];
    SideIsDepunctured(input, frame);
    out := ConvFrames.DecodeInput(E2, viterbi[..], SIDE_LEN);
    forall u: seq<int> | Bits(u) && SideMatrixSent(u, false, l) && SideMatrixSent(u, true, h) ensures out[..] == u {
      SideCarried(u, l, h, frame, input);
    }
  }

  // ---------- PIDS ----------

  // Column 0 of the block is the lower sideband (il), column 1 the upper (iu).
  ghost function NumberOfPids(side: nat, k: nat, bit: nat): (n: nat)
    requires side < 2 && k < 30 && bit < 4
    ensures n < 120
  {
    var shift := if side == 0 then 11 else 0;
    PidsCovers(k, bit, shift);
    PidsBack(k, bit, shift)
  }

  // PIDS_OWNERS is the row of twenty-four in the order of sending (figure 10-5).
  ghost predicate PidsCellSent(u: seq<int>, sbit: seq<nat>, side: nat, k: nat, bit: nat)
    requires |u| == PIDS_LEN && |sbit| == 64 && side < 2 && k < 30 && bit < 4
  {
    PidsNumberSent(u, PidsCell(sbit, side, k, bit), side, NumberOfPids(side, k, bit))
  }

  ghost predicate PidsNumberSent(u: seq<int>, value: nat, side: nat, n: nat)
    requires |u| == PIDS_LEN && n < 120
  {
    forall r: nat :: r < 24 && PIDS_OWNERS[r] == (side, n % 12) ==> value == PidsCoded(u, 24 * (n / 12) + r)
  }

  function PidsCell(sbit: seq<nat>, side: nat, k: nat, bit: nat): nat
    requires |sbit| == 64 && side < 2
  {
    sbit[2 * PidsRow(k) + side] / Pow2(bit) % 2
  }

  ghost function PidsCoded(u: seq<int>, x: nat): int
    requires |u| == PIDS_LEN && x < 240
  {
    Stream(AmPids, u, x / 3, x % 3)
  }

  ghost predicate PidsSent(u: seq<int>, sbit: seq<nat>) {
    && |u| == PIDS_LEN && |sbit| == 64
    && forall side: nat, k: nat, bit: nat :: side < 2 && k < 30 && bit < 4 ==> PidsCellSent(u, sbit, side, k, bit)
  }

  lemma PidsPlaceIs(side: nat, n: nat)
    requires side < 2 && n < 120
    ensures var r := PIDS_TABLES[side][n % 12];
      r < 24 && PIDS_OWNERS[r] == (side, n % 12) && PidsPlace(side, n) == 24 * (n / 12) + r < 240
  {
    PidsTile();
  }

  lemma PidsBitReceived(u: seq<int>, sbit: seq<nat>, side: nat, n: nat)
    requires PidsSent(u, sbit) && side < 2 && n < 120
    ensures PidsPlace(side, n) < 240
    ensures PidsBit(sbit, n, if side == 0 then 11 else 0, side) == PidsCoded(u, PidsPlace(side, n))
  {
    var shift := if side == 0 then 11 else 0;
    PidsPlaceIs(side, n);
    var k, bit := PidsCellOf(sbit, side, n, shift);
    assert PidsCellSent(u, sbit, side, k, bit);
    assert PidsNumberSent(u, PidsCell(sbit, side, k, bit), side, n);
  }

  // Soft bit n is read from this cell.
  lemma PidsCellOf(sbit: seq<nat>, side: nat, n: nat, shift: nat) returns (k: nat, bit: nat)
    requires |sbit| == 64 && side < 2 && n < 120 && shift == if side == 0 then 11 else 0
    ensures k < 30 && bit < 4 && NumberOfPids(side, k, bit) == n
    ensures PidsBit(sbit, n, shift, side) == PidsCell(sbit, side, k, bit)
  {
    PidsPlaces(n, shift);
    k, bit := PidsSpot(n, shift).0, PidsSpot(n, shift).1;
  }

  lemma PidsOutput(u: seq<int>, sbit: seq<nat>, viterbi: seq<int>, x: nat)
    requires PidsSent(u, sbit) && |viterbi| == 240 && AmSide.PidsPlaced(viterbi, sbit, false) && x < 240
    ensures viterbi[x] == Sign(PidsCoded(u, x))
  {
    PidsTile();
    PlacesOwned(PIDS_TABLES, PIDS_OWNERS, x);
    var o := OwnerOf(PIDS_TABLES, PIDS_OWNERS, x);
    assert PidsPlace(o.0, o.1) == x;
    OwnerBounded(x, o.0, o.1);
    PidsBitReceived(u, sbit, o.0, o.1);
  }

  lemma PidsCarried(u: seq<int>, sbit: seq<nat>, viterbi: seq<int>)
    requires Bits(u) && PidsSent(u, sbit) && |viterbi| == 240 && AmSide.PidsPlaced(viterbi, sbit, false)
    ensures Carries(AmPids, u, viterbi)
  {
    forall j: nat, m: nat | j < PIDS_LEN && m < 3 ensures CarriesAt(AmPids, u, viterbi, j, m) {
      PidsOutput(u, sbit, viterbi, 3 * j + m);
      DivUnique(3 * j + m, 3, j, m);
      StreamBit(AmPids, u, j, m);
    }
  }

  /** decode_process_pids_am: what was sent comes out, when both columns are used. */
  method DecodePids(sbit: seq<nat>, disabled: bool) returns (out: array<int>)
    requires |sbit| == 64
    ensures fresh(out) && out.Length == PIDS_LEN
    ensures forall u: seq<int> :: Bits(u) && PidsSent(u, sbit) && !disabled ==> out[..] == u
  {
    var viterbi := PidsFrame(sbit, disabled);
    ghost var input := viterbi[..];
    out := ConvFrames.DecodeInput(AmPids, viterbi[..], PIDS_LEN);
    forall u: seq<int> | Bits(u) && PidsSent(u, sbit) && !disabled ensures out[..] == u { PidsCarried(u, sbit, input); }
  }
}
