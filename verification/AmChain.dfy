/** From the AM encoder to the decoded bits (src/decode.c:74-231, 474-554). The sender
    is described cell by cell, with the inverses of the receiver's formulas; what it
    sends is returned. */
module AmChain {
  import opened Basics
  import opened Arith
  import opened AmInterleaver
  import opened AmDecoder
  import opened AmSide
  import opened RoundTrip
  import opened TailBiting
  import opened ConvStreams
  import ConvFrames

  const BITS := 30000            // of one output, in frames of 3750, or in one of 30000 for P3 in MA3

  // ---------- what the encoder sends ----------

  ghost predicate IsFrames(us: seq<seq<int>>, len: nat) {
    (len == 3750 || len == BITS) && |us| * len == BITS && forall b :: 0 <= b < |us| ==> |us[b]| == len && Bits(us[b])
  }

  // Output i of the encoder, three for each bit, whether sent or not.
  ghost function Coded(us: seq<seq<int>>, len: nat, i: nat): int
    requires IsFrames(us, len) && i < 3 * BITS
  {
    FrameOf(us, len, i);
    Stream(E1, us[i / (3 * len)], i % (3 * len) / 3, i % 3)
  }

  lemma FrameOf(us: seq<seq<int>>, len: nat, i: nat)
    requires IsFrames(us, len) && i < 3 * BITS
    ensures i / (3 * len) < |us| && i % (3 * len) / 3 < len
  {
    if len == 3750 { assert |us| == 8; } else { assert |us| == 1; }
  }

  // The twelve outputs of fifteen that are sent.
  const SENT: seq<nat> := [0, 2, 3, 5, 6, 8, 9, 10, 11, 12, 13, 14]

  function Position(x: nat): nat { 15 * (x / 12) + SENT[x % 12] }

  lemma PositionKept(i: nat)
    requires AmDecoder.Kept(i)
    ensures Position(Offset(i)) == i
  {
    var v := i % 15;
    var t := v - (if v > 1 then 1 else 0) - (if v > 4 then 1 else 0) - (if v > 7 then 1 else 0);
    DivUnique(Offset(i), 12, i / 15, t);
  }

  function CellBit(cells: seq<nat>, b: nat, row: nat, column: nat, bit: nat): nat
    requires |cells| == BLOCK_CELLS && b < 8 && row < 32 && column < 25
  {
    cells[25 * (32 * b + row) + column] / Pow2(bit) % 2
  }

  // Row, column and number of a cell; proofs do not look inside (SEALS).
  function RowOf(seals: seq<bool>, k: nat): nat { if |seals| > 0 then RowOf(seals[1..], k) else Row(k) }

  function ColumnOf(seals: seq<bool>, k: nat): nat { if |seals| > 0 then ColumnOf(seals[1..], k) else Column(k) }

  function NumberOf(seals: seq<bool>, row: nat, column: nat): nat {
    if |seals| > 0 then NumberOf(seals[1..], row, column) else CellNumber(row, column)
  }

  predicate Trains(seals: seq<bool>, row: nat, column: nat) {
    if |seals| > 0 then Trains(seals[1..], row, column) else Training(row, column)
  }

  lemma {:induction false} OpenCells(seals: seq<bool>, k: nat, row: nat, column: nat)
    ensures RowOf(seals, k) == Row(k) && ColumnOf(seals, k) == Column(k)
    ensures NumberOf(seals, row, column) == CellNumber(row, column) && Trains(seals, row, column) == Training(row, column)
  {
    if |seals| > 0 { OpenCells(seals[1..], k, row, column); }
  }

  // A bit of a cell that carries data.
  predicate IsData(b: nat, row: nat, column: nat, bit: nat) {
    b < 8 && row < 32 && column < 25 && !Trains(SEALS, row, column) && bit < 6
  }

  lemma DataCell(row: nat, column: nat)
    requires row < 32 && column < 25 && !Trains(SEALS, row, column)
    ensures NumberOf(SEALS, row, column) < PER_BLOCK
  {
    OpenCells(SEALS, 0, row, column);
    BitMapCovers(row, column);
  }

  lemma CellOf(k: nat)
    requires k < PER_BLOCK
    ensures var row, column := RowOf(SEALS, k), ColumnOf(SEALS, k);
      row < 32 && column < 25 && !Trains(SEALS, row, column) && NumberOf(SEALS, row, column) == k
  {
    OpenCells(SEALS, k, Row(k), Column(k));
    BitMapPlaces(k);
  }

  lemma BitOf(cells: seq<nat>, p: Spot, low: nat)
    requires |cells| == BLOCK_CELLS && p.block < 8 && p.cell < PER_BLOCK
    ensures RowOf(SEALS, p.cell) < 32 && ColumnOf(SEALS, p.cell) < 25
    ensures BitMap(cells, p, low) == CellBit(cells, p.block, RowOf(SEALS, p.cell), ColumnOf(SEALS, p.cell), p.bit + low)
  {
    OpenCells(SEALS, p.cell, 0, 0);
    OpenBitMap(SEALS, cells, p, low);
  }

  // The number, in its group, of the soft bit that a bit of a cell carries.
  ghost function NumberOfCell(ma3: bool, upper: bool, b: nat, row: nat, column: nat, bit: nat): (n: nat)
    requires IsData(b, row, column, bit)
    ensures n < GROUP
  {
    DataCell(row, column);
    var p := Spot(b, NumberOf(SEALS, row, column), bit % 3);
    GroupCovers(ma3, GroupOf(upper, bit), p);
    GroupBack(ma3, GroupOf(upper, bit), p)
  }

  // Entry r of row i of twelve, in the order of sending.
  ghost function InRow(us: seq<seq<int>>, len: nat, i: nat, r: nat): int
    requires IsFrames(us, len) && i < 6000 && r < 12
  {
    PositionBelow(12 * i + r);
    Coded(us, len, Position(12 * i + r))
  }

  // Group and number say which of the outputs that are sent the bit of a cell is:
  // MAIN_OWNERS is the row of twelve in the order of sending (figure 10-4 of
  // NRSC-5 document SY_IDD_1012s). The lower three bits of the cells belong to this
  // frame, the upper three to the one that is decoded three frames later.
  ghost predicate CellSent(ma3: bool, now: seq<seq<int>>, later: seq<seq<int>>, len: nat, upper: bool, cells: seq<nat>,
                           b: nat, row: nat, column: nat, bit: nat)
    requires IsFrames(now, len) && IsFrames(later, len) && |cells| == BLOCK_CELLS
    requires IsData(b, row, column, bit)
  {
    var n := NumberOfCell(ma3, upper, b, row, column, bit);
    forall r: nat :: r < 12 && MAIN_OWNERS[r] == (GroupOf(upper, bit), n % 3) ==>
      CellBit(cells, b, row, column, bit) == InRow(if bit < 3 then now else later, len, n / 3, r)
  }

  ghost predicate MatrixSent(ma3: bool, now: seq<seq<int>>, later: seq<seq<int>>, len: nat, upper: bool, cells: seq<nat>)
  {
    && IsFrames(now, len) && IsFrames(later, len) && |cells| == BLOCK_CELLS
    && forall b: nat, row: nat, column: nat, bit: nat ::
         IsData(b, row, column, bit) ==> CellSent(ma3, now, later, len, upper, cells, b, row, column, bit)
  }

  // ---------- what the receiver reads ----------

  // The cell that soft bit n of group g is read from was sent for it.
  lemma NumberOfSpot(ma3: bool, upper: bool, g: nat, n: nat)
    requires g < 4 && n < GROUP && upper == (g >= 2)
    ensures var p := GroupSpot(ma3, g, n);
      && p.Within(3) && GroupOf(upper, p.bit + Low(g)) == g
      && IsData(p.block, RowOf(SEALS, p.cell), ColumnOf(SEALS, p.cell), p.bit + Low(g))
      && NumberOfCell(ma3, upper, p.block, RowOf(SEALS, p.cell), ColumnOf(SEALS, p.cell), p.bit + Low(g)) == n
  {
    GroupPlaces(ma3, g, n);
    CellOf(GroupSpot(ma3, g, n).cell);
  }

  lemma BitReceived(ma3: bool, now: seq<seq<int>>, later: seq<seq<int>>, len: nat, upper: bool, cells: seq<nat>, g: nat, n: nat)
    requires MatrixSent(ma3, now, later, len, upper, cells) && g < 4 && n < GROUP && upper == (g >= 2)
    ensures GroupBit(ma3, g, cells, n) == InRow(if g % 2 == 0 then now else later, len, n / 3, RowPlace(g, n % 3))
  {
    NumberOfSpot(ma3, upper, g, n);
    var p := GroupSpot(ma3, g, n);
    BitOf(cells, p, Low(g));
    assert CellSent(ma3, now, later, len, upper, cells, p.block, RowOf(SEALS, p.cell), ColumnOf(SEALS, p.cell), p.bit + Low(g));
    RowOwner(g, n % 3);
  }

  lemma RowOwner(g: nat, t: nat)
    requires g < 4 && t < 3
    ensures MAIN_OWNERS[RowPlace(g, t)] == (g, t)
  {
    MainTile();
  }

  lemma {:induction false} GroupBitsAt(ma3: bool, g: nat, cells: seq<nat>, n: nat, m: nat)
    requires |cells| == BLOCK_CELLS && m < n <= GROUP
    ensures GroupBits(ma3, g, cells, n)[m] == GroupBit(ma3, g, cells, m)
    decreases n
  {
    if m < n - 1 { GroupBitsAt(ma3, g, cells, n - 1, m); }
  }

  // Both matrices of this frame and of three frames ago were sent so.
  ghost predicate OutputSent(ma3: bool, us: seq<seq<int>>, len: nat, groups: seq<seq<nat>>) {
    && IsFrames(us, len) && |groups| == 4 && (forall g :: 0 <= g < 4 ==> |groups[g]| == GROUP)
    && forall g: nat, n: nat :: g < 4 && n < GROUP ==> SoftSent(us, len, groups, g, n)
  }

  ghost predicate SoftSent(us: seq<seq<int>>, len: nat, groups: seq<seq<nat>>, g: nat, n: nat)
    requires IsFrames(us, len) && |groups| == 4 && g < 4 && n < |groups[g]| == GROUP
  {
    groups[g][n] == InRow(us, len, n / 3, RowPlace(g, n % 3))
  }

  lemma PositionBelow(x: nat)
    requires x < OUTPUT
    ensures Position(x) < 3 * BITS
  {
  }

  lemma GroupSent(ma3: bool, now: seq<seq<int>>, later: seq<seq<int>>, len: nat, upper: bool, cells: seq<nat>, g: nat,
                  groups: seq<seq<nat>>, us: seq<seq<int>>)
    requires MatrixSent(ma3, now, later, len, upper, cells) && g < 4 && upper == (g >= 2)
    requires |groups| == 4 && groups[g] == GroupBits(ma3, g, cells, GROUP) && us == if g % 2 == 0 then now else later
    ensures forall n: nat :: n < GROUP ==> SoftSent(us, len, groups, g, n)
  {
    forall n: nat | n < GROUP ensures SoftSent(us, len, groups, g, n) {
      BitReceived(ma3, now, later, len, upper, cells, g, n);
      GroupBitsAt(ma3, g, cells, GROUP, n);
    }
  }

  lemma OutputIsSent(us: seq<seq<int>>, len: nat, groups: seq<seq<nat>>, ma3: bool, out: seq<nat>, x: nat)
    requires OutputSent(ma3, us, len, groups) && Assembled(out, groups, 6000) && x < OUTPUT
    ensures Position(x) < 3 * BITS && out[x] == Coded(us, len, Position(x))
  {
    MainTile();
    PlacesOwned(MAIN_TABLES, MAIN_OWNERS, x);
    var o := OwnerOf(MAIN_TABLES, MAIN_OWNERS, x);
    assert o.1 < GROUP;
    assert GroupPlace(o.0, o.1) == x;
    PlaceInRow(o.0, o.1);
    PositionBelow(x);
    assert SoftSent(us, len, groups, o.0, o.1);
  }

  /** What the decoder gets for frame c carries the outputs of its bits. */
  lemma FrameCarried(ma3: bool, us: seq<seq<int>>, len: nat, groups: seq<seq<nat>>, out: seq<nat>, viterbi: seq<int>, c: nat)
    requires OutputSent(ma3, us, len, groups) && Assembled(out, groups, 6000) && c < |us|
    requires |viterbi| == 3 * BITS && Depunct(viterbi, out, 3 * BITS)
    ensures 3 * len * (c + 1) <= |viterbi| && Carries(E1, us[c], viterbi[3 * len * c..3 * len * (c + 1)])
  {
    var w := 3 * len;
    FrameRange(us, len, c);
    var f := viterbi[w * c..w * (c + 1)];
    forall j: nat, m: nat | j < len && m < 3 ensures CarriesAt(E1, us[c], f, j, m) {
      OutputCarried(ma3, us, len, groups, out, viterbi, c, j, m);
      assert At(f, j, m) == viterbi[w * c + 3 * j + m];
    }
  }

  lemma FrameRange(us: seq<seq<int>>, len: nat, c: nat)
    requires IsFrames(us, len) && c < |us|
    ensures 3 * len * (c + 1) == 3 * len * c + 3 * len <= 3 * BITS
  {
    if len == 3750 { assert |us| == 8; } else { assert |us| == 1; }
  }

  lemma OutputCarried(ma3: bool, us: seq<seq<int>>, len: nat, groups: seq<seq<nat>>, out: seq<nat>, viterbi: seq<int>,
                      c: nat, j: nat, m: nat)
    requires OutputSent(ma3, us, len, groups) && Assembled(out, groups, 6000) && c < |us| && j < len && m < 3
    requires |viterbi| == 3 * BITS && Depunct(viterbi, out, 3 * BITS)
    ensures 3 * len * c + 3 * j + m < |viterbi|
    ensures var y := viterbi[3 * len * c + 3 * j + m];
      if !Sent(E1, j, m) then y == 0 else if Stream(E1, us[c], j, m) == 1 then y > 0 else y < 0
  {
    var w := 3 * len;
    var i := w * c + 3 * j + m;
    FrameRange(us, len, c);
    assert viterbi[i] == Soft(out, i);
    Within15(len, c, j, m);
    if Sent(E1, j, m) {
      PositionKept(i);
      OffsetBelow(i);
      OutputIsSent(us, len, groups, ma3, out, Offset(i));
      FrameOf(us, len, i);
      DivUnique(i, w, c, 3 * j + m);
      DivUnique(i, 3, len * c + j, m);
      assert out[Offset(i)] == Stream(E1, us[c], j, m);
      StreamIsBit(us[c], j, m);
    }
  }

  lemma StreamIsBit(u: seq<int>, j: nat, m: nat)
    requires j < |u| && 8 <= |u| && m < 3
    ensures Stream(E1, u, j, m) == 0 || Stream(E1, u, j, m) == 1
  {
  }

  lemma OffsetBelow(i: nat)
    requires i < 3 * BITS && AmDecoder.Kept(i)
    ensures Offset(i) < OUTPUT
  {
  }

  lemma Within15(len: nat, c: nat, j: nat, m: nat)
    requires (len == 3750 || len == BITS) && m < 3
    ensures var i := 3 * len * c + 3 * j + m; i % 15 == 3 * (j % 5) + m && (AmDecoder.Kept(i) <==> Sent(E1, j, m))
  {
    var i, q := 3 * len * c + 3 * j + m, len / 5 * c + j / 5;
    assert len == 5 * (len / 5);
    assert 3 * len * c == 15 * (len / 5 * c);
    DivUnique(i, 15, q, 3 * (j % 5) + m);
  }

  // ---------- over a run ----------

  // The matrices since the reset were sent for the outputs in run.
  ghost predicate Broadcast(ma3: bool, len: nat, run: seq<seq<seq<int>>>, lowers: seq<seq<nat>>, uppers: seq<seq<nat>>) {
    |lowers| == |uppers| && |run| == |lowers| + 3 && forall f: nat :: f < |lowers| ==>
      MatrixSent(ma3, run[f], run[f + 3], len, false, lowers[f]) && MatrixSent(ma3, run[f], run[f + 3], len, true, uppers[f])
  }

  // The groups of output f: two from the matrices of frame f, two of three frames before.
  lemma RunSent(ma3: bool, len: nat, run: seq<seq<seq<int>>>, lowers: seq<seq<nat>>, uppers: seq<seq<nat>>, f: nat,
                groups: seq<seq<nat>>)
    requires Broadcast(ma3, len, run, lowers, uppers) && 3 <= f < |lowers|
    requires |lowers[f]| == |uppers[f]| == |lowers[f - 3]| == |uppers[f - 3]| == BLOCK_CELLS
    requires groups == [GroupBits(ma3, 0, lowers[f], GROUP), GroupBits(ma3, 1, lowers[f - 3], GROUP),
                        GroupBits(ma3, 2, uppers[f], GROUP), GroupBits(ma3, 3, uppers[f - 3], GROUP)]
    ensures OutputSent(ma3, run[f], len, groups)
  {
    var us, e := run[f], f - 3;
    assert MatrixSent(ma3, us, run[f + 3], len, false, lowers[f]) && MatrixSent(ma3, us, run[f + 3], len, true, uppers[f]);
    assert MatrixSent(ma3, run[e], run[e + 3], len, false, lowers[e]) && MatrixSent(ma3, run[e], run[e + 3], len, true, uppers[e]);
    GroupSent(ma3, us, run[f + 3], len, false, lowers[f], 0, groups, us);
    GroupSent(ma3, run[e], us, len, false, lowers[e], 1, groups, us);
    GroupSent(ma3, us, run[f + 3], len, true, uppers[f], 2, groups, us);
    GroupSent(ma3, run[e], us, len, true, uppers[e], 3, groups, us);
  }

  lemma RunReceived(d: Deinterleaver, len: nat, run: seq<seq<seq<int>>>, c: nat)
    requires d.Valid() && d.Ready() && d.wait == 0 && Broadcast(d.ma3, len, run, d.lowers, d.uppers)
    requires c < |run[|d.lowers| - 1]|
    ensures var us := run[|d.lowers| - 1];
      && 3 * len * (c + 1) <= d.viterbi.Length && |us[c]| == len
      && Carries(E1, us[c], d.viterbi[3 * len * c..3 * len * (c + 1)])
  {
    var f := |d.lowers| - 1;
    var groups := d.Groups(d.lowers[f], d.mls[f - 3], d.uppers[f], d.mus[f - 3]);
    RunSent(d.ma3, len, run, d.lowers, d.uppers, f, groups);
    FrameCarried(d.ma3, run[f], len, groups, d.out[..], d.viterbi[..], c);
    assert d.viterbi[..][3 * len * c..3 * len * (c + 1)] == d.viterbi[3 * len * c..3 * len * (c + 1)];
  }

  /** The decoding of frame c in decode_process_p1_p3_am: once the wait is over, what
      was sent for that frame comes out, whatever else was sent. */
  method DecodeFrame(d: Deinterleaver, len: nat, c: nat) returns (out: array<int>)
    requires d.Valid() && d.Ready() && d.wait == 0 && (len == 3750 || len == BITS) && (c + 1) * len <= BITS
    ensures fresh(out) && out.Length == len
    ensures forall run: seq<seq<seq<int>>> :: Broadcast(d.ma3, len, run, d.lowers, d.uppers) ==>
      c < |run[|d.lowers| - 1]| && out[..] == run[|d.lowers| - 1][c]
  {
    Slice(len, c);
    var input := d.viterbi[3 * len * c..3 * len * (c + 1)];
    InputOf(d, len, c, input);
    out := ConvFrames.DecodeInput(E1, input, len);
    FramesReceived(d, len, c, input, out[..]);
  }

  lemma FramesReceived(d: Deinterleaver, len: nat, c: nat, input: seq<int>, out: seq<int>)
    requires d.Valid() && d.Ready() && d.wait == 0
    requires (c + 1) * len <= BITS && 3 * len * c <= 3 * len * (c + 1) <= d.viterbi.Length
    requires input == d.viterbi[3 * len * c..3 * len * (c + 1)]
    requires forall u: seq<int> :: |u| == len && Carries(E1, u, input) ==> out == u
    ensures forall run: seq<seq<seq<int>>> :: Broadcast(d.ma3, len, run, d.lowers, d.uppers) ==>
      c < |run[|d.lowers| - 1]| && out == run[|d.lowers| - 1][c]
  {
    forall run: seq<seq<seq<int>>> | Broadcast(d.ma3, len, run, d.lowers, d.uppers)
      ensures c < |run[|d.lowers| - 1]| && out == run[|d.lowers| - 1][c]
    {
      FrameReceived(d, len, run, c, input);
    }
  }

  lemma InputOf(d: Deinterleaver, len: nat, c: nat, input: seq<int>)
    requires d.Valid() && d.Ready() && d.wait == 0 && (len == 3750 || len == BITS)
    requires 3 * len * (c + 1) == 3 * len * c + 3 * len <= 3 * BITS
    requires input == d.viterbi[3 * len * c..3 * len * (c + 1)]
    ensures ConvFrames.Depunctured(E1, input, len)
  {
    SliceIsDepunctured(d.viterbi[..], d.out[..], len, c);
    assert d.viterbi[..][3 * len * c..3 * len * (c + 1)] == input;
  }

  lemma FrameReceived(d: Deinterleaver, len: nat, run: seq<seq<seq<int>>>, c: nat, input: seq<int>)
    requires d.Valid() && d.Ready() && d.wait == 0 && Broadcast(d.ma3, len, run, d.lowers, d.uppers)
    requires (c + 1) * len <= BITS && 3 * len * c <= 3 * len * (c + 1) <= d.viterbi.Length
    requires input == d.viterbi[3 * len * c..3 * len * (c + 1)]
    ensures c < |run[|d.lowers| - 1]|
    ensures var u := run[|d.lowers| - 1][c]; |u| == len && Carries(E1, u, input)
  {
    FramesNumber(d.ma3, len, run, d.lowers, d.uppers, c);
    RunReceived(d, len, run, c);
  }

  lemma Slice(len: nat, c: nat)
    requires (len == 3750 || len == BITS) && (c + 1) * len <= BITS
    ensures 3 * len * (c + 1) == 3 * len * c + 3 * len <= 3 * BITS
  {
    assert (c + 1) * len == c * len + len;
  }

  lemma FramesNumber(ma3: bool, len: nat, run: seq<seq<seq<int>>>, lowers: seq<seq<nat>>, uppers: seq<seq<nat>>, c: nat)
    requires Broadcast(ma3, len, run, lowers, uppers) && |lowers| > 0 && (c + 1) * len <= BITS
    ensures c < |run[|lowers| - 1]|
  {
    var f := |lowers| - 1;
    assert MatrixSent(ma3, run[f], run[f + 3], len, false, lowers[f]);
    if len == 3750 { assert |run[f]| == 8; } else { assert |run[f]| == 1; }
  }

  lemma SliceIsDepunctured(viterbi: seq<int>, out: seq<nat>, len: nat, c: nat)
    requires (len == 3750 || len == BITS) && |viterbi| == 3 * BITS && Depunct(viterbi, out, 3 * BITS)
    requires 3 * len * (c + 1) == 3 * len * c + 3 * len <= 3 * BITS
    ensures ConvFrames.Depunctured(E1, viterbi[3 * len * c..3 * len * (c + 1)], len)
  {
    var f := viterbi[3 * len * c..3 * len * (c + 1)];
    forall j: nat | j < |f| ensures -1 <= f[j] <= 1 { assert f[j] == viterbi[3 * len * c + j] == Soft(out, 3 * len * c + j); }
    forall j: nat, m: nat | j < len && m < 3 && !Sent(E1, j, m) ensures At(f, j, m) == 0 {
      Within15(len, c, j, m);
      assert At(f, j, m) == viterbi[3 * len * c + 3 * j + m] == Soft(out, 3 * len * c + 3 * j + m);
    }
  }

  // ---------- every output can be sent ----------

  // The value with these bits, lowest first.
  function Packed(want: seq<nat>): nat { if |want| == 0 then 0 else want[0] + 2 * Packed(want[1..]) }

  lemma {:induction false} PackedBits(want: seq<nat>, bit: nat)
    requires bit < |want| && forall i :: 0 <= i < |want| ==> want[i] < 2
    ensures Packed(want) / Pow2(bit) % 2 == want[bit]
    decreases bit
  {
    var v := Packed(want[1..]);
    if bit == 0 {
      assert Pow2(0) == 1;
      LowBit(want[0], v);
    } else {
      PackedBits(want[1..], bit - 1);
      HalfDiv(want[0], v, Pow2(bit - 1));
    }
  }

  lemma LowBit(w: nat, v: nat)
    requires w < 2
    ensures (w + 2 * v) / 1 % 2 == w
  {
  }

  lemma HalfDiv(w: nat, v: nat, h: nat)
    requires w < 2 && h > 0
    ensures (w + 2 * v) / (2 * h) == v / h
  {
    assert v == h * (v / h) + v % h;
    assert w + 2 * v == 2 * h * (v / h) + (2 * (v % h) + w);
    DivUnique(w + 2 * v, 2 * h, v / h, 2 * (v % h) + w);
  }

  ghost function Wanted(ma3: bool, now: seq<seq<int>>, later: seq<seq<int>>, len: nat, upper: bool,
                        b: nat, row: nat, column: nat, bit: nat): (v: nat)
    requires IsFrames(now, len) && IsFrames(later, len) && IsData(b, row, column, bit)
    ensures v < 2
  {
    var n := NumberOfCell(ma3, upper, b, row, column, bit);
    var i := InRow(if bit < 3 then now else later, len, n / 3, RowPlace(GroupOf(upper, bit), n % 3));
    if i == 1 then 1 else 0
  }

  ghost function CellValue(ma3: bool, now: seq<seq<int>>, later: seq<seq<int>>, len: nat, upper: bool,
                           b: nat, row: nat, column: nat): nat
    requires IsFrames(now, len) && IsFrames(later, len) && b < 8 && row < 32 && column < 25
  {
    if Trains(SEALS, row, column) then 0
    else Packed(seq(6, bit requires 0 <= bit < 6 => Wanted(ma3, now, later, len, upper, b, row, column, bit)))
  }

  lemma CellValueSent(ma3: bool, now: seq<seq<int>>, later: seq<seq<int>>, len: nat, upper: bool, cells: seq<nat>,
                      b: nat, row: nat, column: nat, bit: nat)
    requires IsFrames(now, len) && IsFrames(later, len) && |cells| == BLOCK_CELLS && IsData(b, row, column, bit)
    requires cells[25 * (32 * b + row) + column] == CellValue(ma3, now, later, len, upper, b, row, column)
    ensures CellSent(ma3, now, later, len, upper, cells, b, row, column, bit)
  {
    var want := seq(6, i requires 0 <= i < 6 => Wanted(ma3, now, later, len, upper, b, row, column, i));
    PackedBits(want, bit);
    var n := NumberOfCell(ma3, upper, b, row, column, bit);
    forall r: nat | r < 12 && MAIN_OWNERS[r] == (GroupOf(upper, bit), n % 3)
      ensures CellBit(cells, b, row, column, bit) == InRow(if bit < 3 then now else later, len, n / 3, r)
    {
      OwnerRow(r, GroupOf(upper, bit), n % 3);
      InRowIsBit(if bit < 3 then now else later, len, n / 3, r);
    }
  }

  lemma OwnerRow(r: nat, g: nat, t: nat)
    requires r < 12 && MAIN_OWNERS[r] == (g, t)
    ensures g < 4 && t < 3 && RowPlace(g, t) == r
  {
    MainTile();
  }

  lemma InRowIsBit(us: seq<seq<int>>, len: nat, i: nat, r: nat)
    requires IsFrames(us, len) && i < 6000 && r < 12
    ensures InRow(us, len, i, r) == 0 || InRow(us, len, i, r) == 1
  {
    PositionBelow(12 * i + r);
    var p := Position(12 * i + r);
    FrameOf(us, len, p);
    StreamIsBit(us[p / (3 * len)], p % (3 * len) / 3, p % 3);
  }

  /** Any two outputs can be sent in one matrix: no bit of a cell is asked to be two
      things. */
  lemma MatrixExists(ma3: bool, now: seq<seq<int>>, later: seq<seq<int>>, len: nat, upper: bool) returns (cells: seq<nat>)
    requires IsFrames(now, len) && IsFrames(later, len)
    ensures MatrixSent(ma3, now, later, len, upper, cells)
  {
    cells := seq(BLOCK_CELLS, x requires 0 <= x < BLOCK_CELLS =>
      CellValue(ma3, now, later, len, upper, x / 800, x % 800 / 25, x % 25));
    forall b: nat, row: nat, column: nat, bit: nat | IsData(b, row, column, bit)
      ensures CellSent(ma3, now, later, len, upper, cells, b, row, column, bit)
    {
      CellIndex(b, row, column);
      CellValueSent(ma3, now, later, len, upper, cells, b, row, column, bit);
    }
  }

  lemma CellIndex(b: nat, row: nat, column: nat)
    requires b < 8 && row < 32 && column < 25
    ensures var x := 25 * (32 * b + row) + column;
      x < BLOCK_CELLS && x / 800 == b && x % 800 / 25 == row && x % 25 == column
  {
    var x := 25 * (32 * b + row) + column;
    DivUnique(x, 800, b, 25 * row + column);
    DivUnique(25 * row + column, 25, row, column);
    DivUnique(x, 25, 32 * b + row, column);
  }
}
