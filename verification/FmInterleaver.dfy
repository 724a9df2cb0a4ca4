/** The deinterleavers of the FM primary main sidebands (src/decode.c:24-37,
    296-342, 451-472): P1 and the sixteen PIDS frames share one matrix. */
module FmInterleaver {
  import opened Basics
  import opened Arith
  import RoundTrip
  import ConvFrames

  const PM_V: seq<nat> := [10, 2, 18, 6, 14, 8, 16, 0, 12, 4, 11, 3, 19, 7, 15, 9, 17, 1, 13, 5]
  const P1_LEN := 146176
  const P1_ENCODED := 365440
  const PIDS_LEN := 80
  const PIDS_ENCODED := 200
  const CELLS := 368640        // 16 blocks of 32 rows of 20 partitions of 36 columns
  const P1_ROUNDS := 1142      // P1_ENCODED / 320

  // ---------- the cell of each soft bit ----------

  function Row(k: nat): nat { (k * 11) % 32 }

  function Column(k: nat): nat { (k * 11 + k / 288) % 36 }

  function CellFormula(block: nat, partition: nat, k: nat): nat {
    (block * 32 + Row(k)) * 720 + partition * 36 + Column(k)
  }

  function CellOf(block: nat, partition: nat, k: nat): nat
  {
    SealedCell(SEALS, block, partition, k)
  }

  function SealedCell(seals: seq<bool>, block: nat, partition: nat, k: nat): nat
  {
    if |seals| > 0 then SealedCell(seals[1..], block, partition, k) else CellFormula(block, partition, k)
  }

  lemma {:induction false} OpenCell(seals: seq<bool>, block: nat, partition: nat, k: nat)
    ensures SealedCell(seals, block, partition, k) == CellFormula(block, partition, k)
  {
    if |seals| > 0 { OpenCell(seals[1..], block, partition, k); }
  }

  // The partition of the j-th of twenty soft bits.
  function PmPartition(j: nat): nat { if j < 20 then PM_V[j] else 0 }

  // Soft bit i of P1.
  function P1Cell(i: nat): nat {
    var partition := V(i % 20);
    CellOf((i / 20 + partition * 7) % 16, partition, i / 320)
  }

  function V(j: nat): nat
  {
    SealedV(SEALS, j)
  }

  function SealedV(seals: seq<bool>, j: nat): nat
  {
    if |seals| > 0 then SealedV(seals[1..], j) else PmPartition(j)
  }

  lemma {:induction false} OpenV(seals: seq<bool>, j: nat)
    ensures SealedV(seals, j) == PmPartition(j)
  {
    if |seals| > 0 { OpenV(seals[1..], j); }
  }

  // Soft bit i of the sixteen PIDS frames, 200 for each block.
  function PidsCell(i: nat): nat {
    CellOf(i / PIDS_ENCODED, V(i % 20), (i / 20) % 10 + P1_ROUNDS)
  }

  // ---------- going back ----------

  // The round k that uses a row and column: 3 undoes 11 modulo 32, 5 undoes 11
  // modulo 9, and 225 and 64 put the two together.
  function RoundFormula(row: nat, column: nat): nat {
    var a := (3 * row) % 32;
    var m := (column + a) % 4;
    288 * m + (225 * a + 64 * ((5 * (column - m)) % 9)) % 288
  }

  function RoundOf(row: nat, column: nat): nat
  {
    SealedRound(SEALS, row, column)
  }

  function SealedRound(seals: seq<bool>, row: nat, column: nat): nat
  {
    if |seals| > 0 then SealedRound(seals[1..], row, column) else RoundFormula(row, column)
  }

  lemma {:induction false} OpenRound(seals: seq<bool>, row: nat, column: nat)
    ensures SealedRound(seals, row, column) == RoundFormula(row, column)
  {
    if |seals| > 0 { OpenRound(seals[1..], row, column); }
  }

  // Position of a partition in PM_V.
  const PM_INVERSE: seq<nat> := [7, 17, 1, 11, 9, 19, 3, 13, 5, 15, 0, 10, 8, 18, 4, 14, 6, 16, 2, 12]

  function PmPlace(p: nat): nat { if p < 20 then PM_INVERSE[p] else 0 }

  lemma Partitions(j: nat)
    requires j < 20
    ensures V(j) < 20 && Place(V(j)) == j
    ensures Place(j) < 20 && V(Place(j)) == j
  {
    OpenV(SEALS, j);
    OpenPlace(SEALS, j);
    PlaceOfPartition(j);
    PartitionOfPlace(j);
    OpenPlace(SEALS, PmPartition(j));
    OpenV(SEALS, PmPlace(j));
  }

  lemma PlaceOfPartition(j: nat)
    requires j < 20
    ensures PmPartition(j) < 20 && PmPlace(PmPartition(j)) == j
  {
  }

  lemma PartitionOfPlace(p: nat)
    requires p < 20
    ensures PmPlace(p) < 20 && PmPartition(PmPlace(p)) == p
  {
  }

  function Place(p: nat): nat
  {
    SealedPlace(SEALS, p)
  }

  function SealedPlace(seals: seq<bool>, p: nat): nat
  {
    if |seals| > 0 then SealedPlace(seals[1..], p) else PmPlace(p)
  }

  lemma {:induction false} OpenPlace(seals: seq<bool>, p: nat)
    ensures SealedPlace(seals, p) == PmPlace(p)
  {
    if |seals| > 0 { OpenPlace(seals[1..], p); }
  }

  lemma Crt36(x: nat, y: nat)
    requires x % 4 == y % 4 && x % 9 == y % 9
    ensures x % 36 == y % 36
  {
    var a, b := x / 4 - y / 4, x / 9 - y / 9;
    assert x - y == 4 * a == 9 * b;
    assert x - y == 36 * (a - 2 * b);
    DivUnique(x, 36, y / 36 + a - 2 * b, y % 36);
  }

  // Residues of a sum of multiples, spelled out.
  lemma RowOf(m: nat, r: nat)
    requires r < 288
    ensures Row(288 * m + r) == (11 * r) % 32
    ensures m < 4 ==> Column(288 * m + r) == (11 * r + m) % 36
  {
    DivUnique((288 * m + r) * 11, 32, 99 * m + (11 * r) / 32, (11 * r) % 32);
    DivUnique(288 * m + r, 288, m, r);
    DivUnique((288 * m + r) * 11 + m, 36, 88 * m + (11 * r + m) / 36, (11 * r + m) % 36);
  }

  lemma Residues(r: nat, m: nat)
    requires r < 288 && m < 4
    ensures (3 * ((11 * r) % 32)) % 32 == r % 32
    ensures ((11 * r + m) % 36 + r % 32) % 4 == m
    ensures (5 * ((11 * r + m) % 36 - m)) % 9 == r % 9
    ensures (225 * (r % 32) + 64 * (r % 9)) % 288 == r
  {
    var x, y, z := (11 * r) / 32, (11 * r + m) / 36, r / 32;
    DivUnique(3 * (11 * r - 32 * x), 32, r - 3 * x + z, r % 32);
    DivUnique(11 * r + m - 36 * y + r - 32 * z, 4, 3 * r - 9 * y - 8 * z, m);
    DivUnique(5 * (11 * r + m - 36 * y - m), 9, 6 * r - 20 * y + r / 9, r % 9);
    DivUnique(225 * (r - 32 * z) + 64 * (r - 9 * (r / 9)), 288, r - 25 * z - 2 * (r / 9), r);
  }

  lemma RoundOfCell(k: nat)
    requires k < 1152
    ensures RoundOf(Row(k), Column(k)) == k
  {
    OpenRound(SEALS, Row(k), Column(k));
    var m, r := k / 288, k % 288;
    RowOf(m, r);
    Residues(r, m);
  }

  lemma CellOfRound(row: nat, column: nat)
    requires row < 32 && column < 36
    ensures var k := RoundOf(row, column); k < 1152 && Row(k) == row && Column(k) == column
  {
    OpenRound(SEALS, row, column);
    var a := (3 * row) % 32;
    var m := (column + a) % 4;
    var z := (5 * (column - m)) % 9;
    var r := (225 * a + 64 * z) % 288;
    RowOf(m, r);
    RoundResidues(row, column, a, m, z, r);
  }

  lemma RoundResidues(row: nat, column: nat, a: nat, m: nat, z: nat, r: nat)
    requires row < 32 && column < 36 && a == (3 * row) % 32 && m == (column + a) % 4
    requires z == (5 * (column - m)) % 9 && r == (225 * a + 64 * z) % 288
    ensures (11 * r) % 32 == row && (11 * r + m) % 36 == column
  {
    RoundQuotients(row, column, a, (3 * row) / 32, m, (column + a) / 4, z, (5 * (column - m)) / 9, r, (225 * a + 64 * z) / 288);
  }

  lemma RoundQuotients(row: nat, column: nat, a: nat, u: int, m: nat, v: int, z: nat, w: int, r: nat, q: int)
    requires row < 32 && column < 36 && a == 3 * row - 32 * u && m == column + a - 4 * v
    requires z == 5 * (column - m) - 9 * w && r == 225 * a + 64 * z - 288 * q
    ensures (11 * r) % 32 == row && (11 * r + m) % 36 == column
  {
    assert 11 * r == 2475 * a + 704 * z - 3168 * q;
    Modulo32(row, a, u, z, q);
    Modulo4(column, a, m, v, z, q);
    Modulo9(column, a, m, w, z, q);
    Crt36(11 * r + m, column);
    assert column % 36 == column;
  }

  lemma Modulo32(row: nat, a: int, u: int, z: int, q: int)
    requires row < 32 && a == 3 * row - 32 * u
    ensures (2475 * a + 704 * z - 3168 * q) % 32 == row
  {
    DivUnique(2475 * a + 704 * z - 3168 * q, 32, 232 * row - 2475 * u + 22 * z - 99 * q, row);
  }

  lemma Modulo4(column: nat, a: int, m: int, v: int, z: int, q: int)
    requires m == column + a - 4 * v
    ensures (2475 * a + 704 * z - 3168 * q + m) % 4 == column % 4
  {
    DivUnique(2475 * a + 704 * z - 3168 * q + m, 4, 619 * a + 176 * z - 792 * q - v + column / 4, column % 4);
  }

  lemma Modulo9(column: nat, a: int, m: int, w: int, z: int, q: int)
    requires z == 5 * (column - m) - 9 * w
    ensures (2475 * a + 704 * z - 3168 * q + m) % 9 == column % 9
  {
    DivUnique(2475 * a + 704 * z - 3168 * q + m, 9, 275 * a - 352 * q + 78 * z + column - m - 2 * w + column / 9, column % 9);
  }

  datatype Spot = Spot(block: nat, partition: nat, round: nat) {
    predicate InMatrix() { block < 16 && partition < 20 && round < 1152 }

    // P1 uses the rounds below 1142, PIDS those from there on.
    predicate OfP1() { round < P1_ROUNDS }

    function P1Index(): nat { 320 * round + 20 * ((block - 7 * partition) % 16) + Place(partition) }

    function PidsIndex(): int { 200 * block + 20 * (round - P1_ROUNDS) + Place(partition) }
  }

  // The block, partition and round of a cell.
  function SpotFormula(c: nat): Spot {
    Spot(c / 720 / 32, (c % 720) / 36, RoundOf((c / 720) % 32, (c % 720) % 36))
  }

  function SpotOf(c: nat): Spot
  {
    SealedSpot(SEALS, c)
  }

  function SealedSpot(seals: seq<bool>, c: nat): Spot
  {
    if |seals| > 0 then SealedSpot(seals[1..], c) else SpotFormula(c)
  }

  lemma {:induction false} OpenSpot(seals: seq<bool>, c: nat)
    ensures SealedSpot(seals, c) == SpotFormula(c)
  {
    if |seals| > 0 { OpenSpot(seals[1..], c); }
  }

  lemma AddressSplits(block: nat, row: nat, partition: nat, column: nat)
    requires block < 16 && row < 32 && partition < 20 && column < 36
    ensures var c := (block * 32 + row) * 720 + partition * 36 + column;
      && c < CELLS && c / 720 / 32 == block && (c / 720) % 32 == row && (c % 720) / 36 == partition && (c % 720) % 36 == column
  {
    DivUnique((block * 32 + row) * 720 + partition * 36 + column, 720, block * 32 + row, partition * 36 + column);
    DivUnique(block * 32 + row, 32, block, row);
    DivUnique(partition * 36 + column, 36, partition, column);
  }

  lemma CellParts(block: nat, partition: nat, k: nat)
    requires Spot(block, partition, k).InMatrix()
    ensures var c := CellOf(block, partition, k); c < CELLS && SpotOf(c) == Spot(block, partition, k)
  {
    OpenCell(SEALS, block, partition, k);
    RoundOfCell(k);
    SpotParts(block, Row(k), partition, Column(k), CellOf(block, partition, k));
  }

  lemma SpotParts(block: nat, row: nat, partition: nat, column: nat, c: nat)
    requires block < 16 && row < 32 && partition < 20 && column < 36
    requires c == (block * 32 + row) * 720 + partition * 36 + column
    ensures c < CELLS && SpotOf(c) == Spot(block, partition, RoundOf(row, column))
  {
    OpenSpot(SEALS, c);
    AddressSplits(block, row, partition, column);
  }

  lemma PartsCell(c: nat)
    requires c < CELLS
    ensures var p := SpotOf(c); p.InMatrix() && CellOf(p.block, p.partition, p.round) == c
  {
    var g, rest := c / 720, c % 720;
    OpenSpot(SEALS, c);
    CellOfRound(g % 32, rest % 36);
    OpenCell(SEALS, g / 32, rest / 36, RoundOf(g % 32, rest % 36));
  }

  /** P1 soft bit i comes from a cell of its own below round 1142. */
  lemma P1Places(i: nat)
    requires i < P1_ENCODED
    ensures var c := P1Cell(i); c < CELLS && SpotOf(c).OfP1() && SpotOf(c).P1Index() == i
  {
    var j, b, k := i % 20, (i / 20) % 16, i / 320;
    Partitions(j);
    P1Steps(i, V(j), j, b, k);
    CellParts((i / 20 + V(j) * 7) % 16, V(j), k);
  }

  lemma P1Steps(i: nat, p: nat, j: nat, b: nat, k: nat)
    requires i < P1_ENCODED && j == i % 20 && b == (i / 20) % 16 && k == i / 320
    ensures k < P1_ROUNDS && ((i / 20 + p * 7) % 16 - 7 * p) % 16 == b && i == 320 * k + 20 * b + j
  {
    DivUnique(i / 20, 16, k, b);
    var s := i / 20 + p * 7;
    DivUnique(s % 16 - 7 * p, 16, k - s / 16, b);
  }

  /** PIDS soft bit i comes from a cell of its own from round 1142 on. */
  lemma PidsPlaces(i: nat)
    requires i < 16 * PIDS_ENCODED
    ensures var c := PidsCell(i); c < CELLS && !SpotOf(c).OfP1() && SpotOf(c).PidsIndex() == i
  {
    var j, b, k := i % 20, i / 200, (i / 20) % 10;
    DivUnique(i / 20, 10, b, k);
    Partitions(j);
    CellParts(b, V(j), k + P1_ROUNDS);
  }

  /** Conversely every cell of the matrix is read exactly once: by P1 or by PIDS. */
  lemma EveryCellRead(c: nat)
    requires c < CELLS
    ensures var p := SpotOf(c);
      if p.OfP1() then p.P1Index() < P1_ENCODED && P1Cell(p.P1Index()) == c
      else 0 <= p.PidsIndex() < 16 * PIDS_ENCODED && PidsCell(p.PidsIndex()) == c
  {
    PartsCell(c);
    var p := SpotOf(c);
    Partitions(p.partition);
    if p.OfP1() {
      P1Back(p.block, p.partition, p.round, (p.block - 7 * p.partition) % 16, Place(p.partition));
    } else {
      PidsBack(p.block, p.partition, p.round - P1_ROUNDS, Place(p.partition));
    }
  }

  lemma P1Back(b: nat, p: nat, k: nat, d: nat, j: nat)
    requires b < 16 && p < 20 && k < P1_ROUNDS && d == (b - 7 * p) % 16 && j < 20 && V(j) == p
    ensures var i := 320 * k + 20 * d + j; i < P1_ENCODED && P1Cell(i) == CellOf(b, p, k)
  {
    var i := 320 * k + 20 * d + j;
    DivUnique(i, 20, 16 * k + d, j);
    DivUnique(i, 320, k, 20 * d + j);
    DivUnique(16 * k + d + p * 7, 16, k - (b - 7 * p) / 16, b);
  }

  lemma PidsBack(b: nat, p: nat, k: nat, j: nat)
    requires b < 16 && p < 20 && k < 10 && j < 20 && V(j) == p
    ensures var i := 200 * b + 20 * k + j; i < 16 * PIDS_ENCODED && PidsCell(i) == CellOf(b, p, k + P1_ROUNDS)
  {
    var i := 200 * b + 20 * k + j;
    DivUnique(i, 20, 10 * b + k, j);
    DivUnique(i, 200, b, 20 * k + j);
    DivUnique(10 * b + k, 10, b, k);
  }

  // ---------- depuncturing ----------

  // Where soft bit k of a frame goes: a zero fills the last position of every six.
  function OutAt(k: nat): nat { k + k / 5 }

  // The Viterbi input for soft bits xs.
  ghost predicate Spread(out: seq<int>, xs: seq<int>) {
    && OutAt(|xs|) <= |out|
    && (forall k: nat :: k < |xs| ==> out[OutAt(k)] == xs[k])
    && (forall j: nat :: j < OutAt(|xs|) && j % 6 == 5 ==> out[j] == 0)
  }

  lemma OutStep(k: nat)
    ensures OutAt(k + 1) == OutAt(k) + 1 + if (OutAt(k) + 1) % 6 == 5 then 1 else 0
    ensures OutAt(k) % 6 != 5
  {
    var u, v := k / 5, k % 5;
    assert k == 5 * u + v;
    DivUnique(OutAt(k), 6, u, v);
    if v == 4 { DivUnique(k + 1, 5, u + 1, 0); } else { DivUnique(k + 1, 5, u, v + 1); }
    DivUnique(OutAt(k) + 1, 6, u, v + 1);
  }

  lemma OutMonotone(a: nat, b: nat)
    requires a < b
    ensures OutAt(a) < OutAt(b)
  {
  }

  // One more soft bit x, and a zero if its place ends a group.
  lemma SpreadMore(out: seq<int>, xs: seq<int>, x: int, after: seq<int>)
    requires Spread(out, xs) && OutAt(|xs| + 1) <= |out| == |after|
    requires after[OutAt(|xs|)] == x && forall j: nat :: j < OutAt(|xs|) ==> after[j] == out[j]
    requires OutAt(|xs| + 1) == OutAt(|xs|) + 2 ==> after[OutAt(|xs|) + 1] == 0
    ensures Spread(after, xs + [x])
  {
    OutStep(|xs|);
    forall k: nat | k < |xs| + 1 ensures after[OutAt(k)] == (xs + [x])[k] {
      if k < |xs| { OutMonotone(k, |xs|); }
    }
  }

  /** The frame handed to the decoder is a depunctured one of the FM pattern. */
  lemma SpreadIsDepunctured(out: seq<int>, xs: seq<int>, len: nat)
    requires Spread(out, xs) && 2 * |xs| == 5 * len && len % 2 == 0 && len >= 32 && |out| == 3 * len
    requires forall k: nat :: k < |xs| ==> -127 <= xs[k] <= 127
    ensures ConvFrames.Depunctured(RoundTrip.Fm, out, len)
  {
    var half := len / 2;
    DivUnique(|xs|, 5, half, 0);
    forall j: nat | j < |out| ensures -127 <= out[j] <= 127 {
      var u, v := j / 6, j % 6;
      if v < 5 {
        DivUnique(5 * u + v, 5, u, v);
        assert out[OutAt(5 * u + v)] == xs[5 * u + v];
      }
    }
    forall j: nat, m: nat | j < len && m < 3 && !RoundTrip.Sent(RoundTrip.Fm, j, m) ensures RoundTrip.At(out, j, m) == 0 {
      DivUnique(3 * j + 2, 6, j / 2, 5);
    }
  }

  // ---------- the deinterleavers ----------

  // The soft bits a deinterleaver reads from the matrix.
  function P1Bits(cells: seq<int>, n: nat): (xs: seq<int>)
    requires |cells| == CELLS && n <= P1_ENCODED
    ensures |xs| == n
  {
    if n == 0 then []
    else
      P1Places(n - 1);
      P1Bits(cells, n - 1) + [cells[P1Cell(n - 1)]]
  }

  // n soft bits of the PIDS frame of block bc.
  function PidsBits(cells: seq<int>, bc: nat, n: nat): (xs: seq<int>)
    requires |cells| == CELLS && bc < 16 && n <= PIDS_ENCODED
    ensures |xs| == n
  {
    if n == 0 then []
    else
      PidsPlaces(PIDS_ENCODED * bc + n - 1);
      PidsBits(cells, bc, n - 1) + [cells[PidsCell(PIDS_ENCODED * bc + n - 1)]]
  }

  // Storing the next soft bit, and a zero after every fifth.
  method Emit(viterbi: array<int>, out: nat, x: int, ghost xs: seq<int>) returns (next: nat)
    requires out == OutAt(|xs|) && Spread(viterbi[..], xs) && OutAt(|xs| + 1) <= viterbi.Length
    modifies viterbi
    ensures next == OutAt(|xs| + 1) && Spread(viterbi[..], xs + [x])
  {
    OutStep(|xs|);
    ghost var was := viterbi[..];
    viterbi[out] := x;
    next := out + 1;
    if next % 6 == 5 {
      viterbi[next] := 0;
      next := next + 1;
    }
    SpreadMore(was, xs, x, viterbi[..]);
  }

  /** interleaver_i, with the parameters of decode_process_p1: exactly three soft
      values per decoded bit, those of P1 at the unpunctured positions. */
  method InterleaverI(cells: array<int>, viterbi: array<int>)
    requires cells.Length == CELLS && viterbi.Length == 3 * P1_LEN && cells != viterbi
    modifies viterbi
    ensures OutAt(P1_ENCODED) == viterbi.Length && Spread(viterbi[..], P1Bits(cells[..], P1_ENCODED))
  {
    var out, i := 0, 0;
    while i < P1_ENCODED
      invariant 0 <= i <= P1_ENCODED && out == OutAt(i)
      invariant Spread(viterbi[..], P1Bits(cells[..], i))
    {
      P1Places(i);
      var partition := V(i % 20);
      var block := (i / 20 + partition * 7) % 16;
      var k := i / 320;
      assert OutAt(i + 1) <= viterbi.Length;
      out := Emit(viterbi, out, cells[CellOf(block, partition, k)], P1Bits(cells[..], i));
      i := i + 1;
    }
  }

  /** interleaver_ii, with the parameters of decode_process_pids. */
  method InterleaverII(cells: array<int>, viterbi: array<int>, bc: nat)
    requires cells.Length == CELLS && viterbi.Length == 3 * PIDS_LEN && cells != viterbi && bc < 16
    modifies viterbi
    ensures OutAt(PIDS_ENCODED) == viterbi.Length && Spread(viterbi[..], PidsBits(cells[..], bc, PIDS_ENCODED))
  {
    var out, i := 0, bc * PIDS_ENCODED;
    while i < (bc + 1) * PIDS_ENCODED
      invariant bc * PIDS_ENCODED <= i <= (bc + 1) * PIDS_ENCODED && out == OutAt(i - bc * PIDS_ENCODED)
      invariant Spread(viterbi[..], PidsBits(cells[..], bc, i - bc * PIDS_ENCODED))
    {
      PidsPlaces(i);
      var partition := V(i % 20);
      var block := i / PIDS_ENCODED;
      var k := (i / 20) % 10 + P1_ROUNDS;
      assert OutAt(i - bc * PIDS_ENCODED + 1) <= viterbi.Length;
      out := Emit(viterbi, out, cells[CellOf(block, partition, k)], PidsBits(cells[..], bc, i - bc * PIDS_ENCODED));
      i := i + 1;
    }
  }

  // ---------- the matching interleaver ----------

  // The matrix a transmitter fills with P1 bits xs and PIDS bits ys.
  ghost predicate Interleaved(cells: seq<int>, xs: seq<int>, ys: seq<int>) {
    && |cells| == CELLS && |xs| == P1_ENCODED && |ys| == 16 * PIDS_ENCODED
    && (forall i: nat :: i < P1_ENCODED ==> P1Cell(i) < CELLS && cells[P1Cell(i)] == xs[i])
    && (forall i: nat :: i < 16 * PIDS_ENCODED ==> PidsCell(i) < CELLS && cells[PidsCell(i)] == ys[i])
  }

  function Matrix(xs: seq<int>, ys: seq<int>, n: nat): (cells: seq<int>)
    requires |xs| == P1_ENCODED && |ys| == 16 * PIDS_ENCODED && n <= CELLS
    ensures |cells| == n
  {
    if n == 0 then []
    else
      var p := SpotOf(n - 1);
      EveryCellRead(n - 1);
      Matrix(xs, ys, n - 1) + [if p.OfP1() then xs[p.P1Index()] else ys[p.PidsIndex()]]
  }

  lemma {:induction false} MatrixAt(xs: seq<int>, ys: seq<int>, n: nat, c: nat)
    requires |xs| == P1_ENCODED && |ys| == 16 * PIDS_ENCODED && c < n <= CELLS
    ensures var p := SpotOf(c);
      && (p.OfP1() ==> p.P1Index() < P1_ENCODED && Matrix(xs, ys, n)[c] == xs[p.P1Index()])
      && (!p.OfP1() ==> 0 <= p.PidsIndex() < 16 * PIDS_ENCODED && Matrix(xs, ys, n)[c] == ys[p.PidsIndex()])
  {
    EveryCellRead(c);
    if c < n - 1 { MatrixAt(xs, ys, n - 1, c); }
  }

  /** Any P1 and PIDS bits fit the matrix together, */
  lemma InterleaveExists(xs: seq<int>, ys: seq<int>)
    requires |xs| == P1_ENCODED && |ys| == 16 * PIDS_ENCODED
    ensures Interleaved(Matrix(xs, ys, CELLS), xs, ys)
  {
    forall i: nat | i < P1_ENCODED ensures P1Cell(i) < CELLS && Matrix(xs, ys, CELLS)[P1Cell(i)] == xs[i] {
      P1Places(i);
      MatrixAt(xs, ys, CELLS, P1Cell(i));
    }
    forall i: nat | i < 16 * PIDS_ENCODED ensures PidsCell(i) < CELLS && Matrix(xs, ys, CELLS)[PidsCell(i)] == ys[i] {
      PidsPlaces(i);
      MatrixAt(xs, ys, CELLS, PidsCell(i));
    }
  }

  /** and the deinterleavers recover both, whatever the matrix was filled with. */
  lemma {:induction false} P1Recovered(cells: seq<int>, xs: seq<int>, ys: seq<int>, n: nat)
    requires Interleaved(cells, xs, ys) && n <= P1_ENCODED
    ensures P1Bits(cells, n) == xs[..n]
  {
    if n > 0 {
      P1Recovered(cells, xs, ys, n - 1);
      assert xs[..n] == xs[..n - 1] + [xs[n - 1]];
    }
  }

  lemma {:induction false} PidsRecovered(cells: seq<int>, xs: seq<int>, ys: seq<int>, bc: nat, n: nat)
    requires Interleaved(cells, xs, ys) && bc < 16 && n <= PIDS_ENCODED
    ensures PidsBits(cells, bc, n) == ys[PIDS_ENCODED * bc..PIDS_ENCODED * bc + n]
  {
    if n > 0 {
      PidsRecovered(cells, xs, ys, bc, n - 1);
      var at := PIDS_ENCODED * bc;
      assert ys[at..at + n] == ys[at..at + (n - 1)] + [ys[at + (n - 1)]];
    }
  }
}
