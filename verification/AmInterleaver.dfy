/** The index arithmetic of the AM deinterleavers (src/decode.c:67-181, 474-500):
    which cell and bit of which matrix every soft bit comes from. */
module AmInterleaver {
  import opened Basics
  import opened Arith

  // ---------- cells ----------

  const WIDTH := 25            // PARTITION_WIDTH_AM
  const PER_BLOCK := 750       // cells of a block that carry data

  function Column(k: nat): nat { (9 * k) % 25 }

  function Row(k: nat): nat { (11 * Column(k) + 16 * (k / 25) + 11 * (k / 50)) % 32 }

  // The two training rows of a column (src/sync.c:701-702).
  predicate Training(row: nat, column: nat) { row == (5 + 11 * column) % 32 || row == (21 + 11 * column) % 32 }

  // The cell number k of a row and column: 14 undoes 9 modulo 25, 3 undoes 11
  // modulo 16.
  function CellNumber(row: nat, column: nat): nat {
    var d := (row - 11 * column) % 32;
    var v := (3 * d) % 16;
    25 * (2 * v + ((d - 11 * v) % 32) / 16) + (14 * column) % 25
  }

  lemma ColumnInverse(j: nat)
    requires j < 25
    ensures (14 * ((9 * j) % 25)) % 25 == j && (9 * ((14 * j) % 25)) % 25 == j
  {
    DivUnique(14 * (9 * j - 25 * ((9 * j) / 25)), 25, 5 * j - 14 * ((9 * j) / 25), j);
    DivUnique(9 * (14 * j - 25 * ((14 * j) / 25)), 25, 5 * j - 9 * ((14 * j) / 25), j);
  }

  // Cell number k in terms of its parts k = 50 v + 25 w + j.
  lemma CellParts(v: nat, w: nat, j: nat)
    requires w < 2 && j < 25
    ensures var k := 50 * v + 25 * w + j;
      k / 50 == v && k / 25 == 2 * v + w && Column(k) == (9 * j) % 25 && Row(k) == (11 * Column(k) + 16 * w + 11 * v) % 32
  {
    var k := 50 * v + 25 * w + j;
    DivUnique(k, 50, v, 25 * w + j);
    DivUnique(k, 25, 2 * v + w, j);
    DivUnique(9 * k, 25, 18 * v + 9 * w + (9 * j) / 25, (9 * j) % 25);
    var x := 11 * Column(k) + 16 * w + 11 * v;
    DivUnique(x + 32 * v, 32, x / 32 + v, x % 32);
  }

  lemma RowInverse(column: nat, v: nat, w: nat)
    requires v < 16 && w < 2
    ensures var row := (11 * column + 16 * w + 11 * v) % 32;
      var d := (row - 11 * column) % 32;
      d == (16 * w + 11 * v) % 32 && (3 * d) % 16 == v && ((d - 11 * v) % 32) / 16 == w
      && (v == 15 <==> Training(row, column))
  {
    var x := 11 * column + 16 * w + 11 * v;
    var y := 16 * w + 11 * v;
    DivUnique(x % 32 - 11 * column, 32, y / 32 - x / 32, y % 32);
    DivUnique(3 * (y - 32 * (y / 32)), 16, 3 * w + 2 * v - 6 * (y / 32), v);
    DivUnique(y - 32 * (y / 32) - 11 * v, 32, -(y / 32), 16 * w);
    TrainingDistance(x % 32, column, y % 32);
  }

  // A row is a training row exactly at distance 5 or 21.
  lemma TrainingDistance(row: nat, column: nat, d: nat)
    requires row < 32 && d == (row - 11 * column) % 32
    ensures Training(row, column) <==> d == 5 || d == 21
  {
    var q := (row - 11 * column) / 32;
    assert row == 11 * column + 32 * q + d;
    if d == 5 { DivUnique(5 + 11 * column, 32, -q, row); }
    if d == 21 { DivUnique(21 + 11 * column, 32, -q, row); }
    if row == (5 + 11 * column) % 32 { DivUnique(row - 11 * column, 32, -((5 + 11 * column) / 32), 5); }
    if row == (21 + 11 * column) % 32 { DivUnique(row - 11 * column, 32, -((21 + 11 * column) / 32), 21); }
  }

  /** bit_map sends 0..749 one-to-one to cells that are not training cells, */
  lemma BitMapPlaces(k: nat)
    requires k < PER_BLOCK
    ensures Row(k) < 32 && Column(k) < 25 && !Training(Row(k), Column(k)) && CellNumber(Row(k), Column(k)) == k
  {
    var v, w, j := k / 50, (k % 50) / 25, k % 25;
    assert k == 50 * v + 25 * w + j;
    CellParts(v, w, j);
    RowInverse(Column(k), v, w);
    ColumnInverse(j);
  }

  /** and onto all of them. */
  lemma BitMapCovers(row: nat, column: nat)
    requires row < 32 && column < 25 && !Training(row, column)
    ensures var k := CellNumber(row, column); k < PER_BLOCK && Row(k) == row && Column(k) == column
  {
    var d := (row - 11 * column) % 32;
    var v := (3 * d) % 16;
    var w, j := ((d - 11 * v) % 32) / 16, (14 * column) % 25;
    ColumnInverse(column);
    CellParts(v, w, j);
    Distance(d, v, w);
    var q := (row - 11 * column) / 32;
    DivUnique(11 * column + 16 * w + 11 * v, 32, (16 * w + 11 * v) / 32 - q, row);
    RowInverse(column, v, w);
  }

  lemma Distance(d: nat, v: nat, w: nat)
    requires d < 32 && v == (3 * d) % 16 && w == ((d - 11 * v) % 32) / 16
    ensures (16 * w + 11 * v) % 32 == d
  {
    var q := (3 * d) / 16;
    var x := (d - 11 * v) % 32;
    var u := (d - 11 * v) / 32;
    assert d - 11 * v == 16 * (11 * q - 2 * d);
    DivUnique(d - 11 * v, 16, 11 * q - 2 * d, 0);
    assert x == 16 * (11 * q - 2 * d - 2 * u);
    DivUnique(x, 16, 11 * q - 2 * d - 2 * u, 0);
    assert x == 16 * w;
    DivUnique(16 * w + 11 * v, 32, -u, d);
  }

  // ---------- the ten groups ----------

  // Block, cell number in the block, and bit of the cell (relative to the group's
  // lowest bit).
  datatype Spot = Spot(block: nat, cell: nat, bit: nat) {
    predicate Within(bits: nat) { block < 8 && cell < PER_BLOCK && bit < bits }
  }

  // bl and bu: whole blocks in turn; shift is 1 for bl and 0 for bu.
  function MainFormula(n: nat, shift: nat): Spot {
    Spot(n / 2250, (n + n / 750 + shift) % 750, n % 3)
  }

  function Main(n: nat, shift: nat): Spot
  {
    SealedMain(SEALS, n, shift)
  }

  function SealedMain(seals: seq<bool>, n: nat, shift: nat): Spot
  {
    if |seals| > 0 then SealedMain(seals[1..], n, shift) else MainFormula(n, shift)
  }

  lemma {:induction false} OpenMain(seals: seq<bool>, n: nat, shift: nat)
    ensures SealedMain(seals, n, shift) == MainFormula(n, shift)
  {
    if |seals| > 0 { OpenMain(seals[1..], n, shift); }
  }

  function MainInverse(p: Spot, shift: nat): int {
    var c := (p.cell - p.bit - shift) % 3;
    2250 * p.block + 750 * c + (p.cell - 3 * p.block - c - shift) % 750
  }

  function MainBack(p: Spot, shift: nat): int
  {
    SealedMainBack(SEALS, p, shift)
  }

  function SealedMainBack(seals: seq<bool>, p: Spot, shift: nat): int
  {
    if |seals| > 0 then SealedMainBack(seals[1..], p, shift) else MainInverse(p, shift)
  }

  lemma {:induction false} OpenMainBack(seals: seq<bool>, p: Spot, shift: nat)
    ensures SealedMainBack(seals, p, shift) == MainInverse(p, shift)
  {
    if |seals| > 0 { OpenMainBack(seals[1..], p, shift); }
  }

  // ml, mu and the four groups of service mode MA3: blocks interleaved.
  function SpreadFormula(n: nat, first: nat, shift: nat): Spot {
    Spot((3 * n + first) % 8, (n + n / 3000 + shift) % 750, n % 3)
  }

  function Spread(n: nat, first: nat, shift: nat): Spot
  {
    SealedSpread(SEALS, n, first, shift)
  }

  function SealedSpread(seals: seq<bool>, n: nat, first: nat, shift: nat): Spot
  {
    if |seals| > 0 then SealedSpread(seals[1..], n, first, shift) else SpreadFormula(n, first, shift)
  }

  lemma {:induction false} OpenSpread(seals: seq<bool>, n: nat, first: nat, shift: nat)
    ensures SealedSpread(seals, n, first, shift) == SpreadFormula(n, first, shift)
  {
    if |seals| > 0 { OpenSpread(seals[1..], n, first, shift); }
  }

  function SpreadInverse(p: Spot, first: nat, shift: nat): int {
    var f := (3 * (p.block - first)) % 8;
    var c := (3 * ((p.cell - shift - f) % 2) + 4 * ((p.cell - shift - p.bit) % 3)) % 6;
    3000 * c + Chinese(f, (p.cell - c - shift) % 750)
  }

  function SpreadBack(p: Spot, first: nat, shift: nat): int
  {
    SealedSpreadBack(SEALS, p, first, shift)
  }

  function SealedSpreadBack(seals: seq<bool>, p: Spot, first: nat, shift: nat): int
  {
    if |seals| > 0 then SealedSpreadBack(seals[1..], p, first, shift) else SpreadInverse(p, first, shift)
  }

  lemma {:induction false} OpenSpreadBack(seals: seq<bool>, p: Spot, first: nat, shift: nat)
    ensures SealedSpreadBack(seals, p, first, shift) == SpreadInverse(p, first, shift)
  {
    if |seals| > 0 { OpenSpreadBack(seals[1..], p, first, shift); }
  }

  // el: two bits of each cell.
  function LeftFormula(n: nat): Spot {
    Spot((3 * n + n / 3000) % 8, (n + n / 6000) % 750, n % 2)
  }

  function Left(n: nat): Spot
  {
    SealedLeft(SEALS, n)
  }

  function SealedLeft(seals: seq<bool>, n: nat): Spot
  {
    if |seals| > 0 then SealedLeft(seals[1..], n) else LeftFormula(n)
  }

  lemma {:induction false} OpenLeft(seals: seq<bool>, n: nat)
    ensures SealedLeft(seals, n) == LeftFormula(n)
  {
    if |seals| > 0 { OpenLeft(seals[1..], n); }
  }

  function LeftInverse(p: Spot): int {
    var c := (p.cell - p.bit) % 2;
    var g := (p.cell - c) % 750;
    var e := (p.block - g) % 2;
    6000 * c + 3000 * e + Chinese((3 * (p.block - 2 * c - e)) % 8, g)
  }

  function LeftBack(p: Spot): int
  {
    SealedLeftBack(SEALS, p)
  }

  function SealedLeftBack(seals: seq<bool>, p: Spot): int
  {
    if |seals| > 0 then SealedLeftBack(seals[1..], p) else LeftInverse(p)
  }

  lemma {:induction false} OpenLeftBack(seals: seq<bool>, p: Spot)
    ensures SealedLeftBack(seals, p) == LeftInverse(p)
  {
    if |seals| > 0 { OpenLeftBack(seals[1..], p); }
  }

  // eu: four bits of each cell.
  function UpperFormula(n: nat): Spot {
    Spot((3 * n + n / 3000 + 2 * (n / 12000)) % 8, (n + n / 6000) % 750, n % 4)
  }

  function Upper(n: nat): Spot
  {
    SealedUpper(SEALS, n)
  }

  function SealedUpper(seals: seq<bool>, n: nat): Spot
  {
    if |seals| > 0 then SealedUpper(seals[1..], n) else UpperFormula(n)
  }

  lemma {:induction false} OpenUpper(seals: seq<bool>, n: nat)
    ensures SealedUpper(seals, n) == UpperFormula(n)
  {
    if |seals| > 0 { OpenUpper(seals[1..], n); }
  }

  function UpperInverse(p: Spot): int {
    var c := (p.cell - p.bit) % 2;
    var h := (p.block - 3 * p.bit - 2 * c) % 4;
    var a, e := h / 2, h % 2;
    12000 * a + 6000 * c + 3000 * e + Chinese((3 * (p.block - 6 * a - 2 * c - e)) % 8, (p.cell - 2 * a - c) % 750)
  }

  function UpperBack(p: Spot): int
  {
    SealedUpperBack(SEALS, p)
  }

  function SealedUpperBack(seals: seq<bool>, p: Spot): int
  {
    if |seals| > 0 then SealedUpperBack(seals[1..], p) else UpperInverse(p)
  }

  lemma {:induction false} OpenUpperBack(seals: seq<bool>, p: Spot)
    ensures SealedUpperBack(seals, p) == UpperInverse(p)
  {
    if |seals| > 0 { OpenUpperBack(seals[1..], p); }
  }

  // The number below 3000 with remainder f modulo 8 and g modulo 750, which have
  // the same parity.
  function ChineseFormula(f: nat, g: nat): nat {
    g + 750 * ((3 * ((f - g) / 2)) % 4)
  }

  function Chinese(f: nat, g: nat): nat
  {
    SealedChinese(SEALS, f, g)
  }

  function SealedChinese(seals: seq<bool>, f: nat, g: nat): nat
  {
    if |seals| > 0 then SealedChinese(seals[1..], f, g) else ChineseFormula(f, g)
  }

  lemma {:induction false} OpenChinese(seals: seq<bool>, f: nat, g: nat)
    ensures SealedChinese(seals, f, g) == ChineseFormula(f, g)
  {
    if |seals| > 0 { OpenChinese(seals[1..], f, g); }
  }

  lemma ChineseIs(f: nat, g: nat)
    requires f < 8 && g < 750 && (f - g) % 2 == 0
    ensures Chinese(f, g) < 3000 && Chinese(f, g) % 8 == f && Chinese(f, g) % 750 == g
  {
    OpenChinese(SEALS, f, g);
    var x := (f - g) / 2;
    var t := (3 * x) % 4;
    assert f == g + 2 * x && t == 3 * x - 4 * ((3 * x) / 4);
    DivUnique(g + 750 * t, 750, t, g);
    DivUnique(g + 750 * t, 8, 281 * x - 375 * ((3 * x) / 4), f);
  }

  lemma ChineseUnique(d: nat)
    requires d < 3000
    ensures (d % 8 - d % 750) % 2 == 0 && Chinese(d % 8, d % 750) == d
  {
    OpenChinese(SEALS, d % 8, d % 750);
    var x, y := d / 8, d / 750;
    DivUnique(d % 8 - d % 750, 2, 375 * y - 4 * x, 0);
    DivUnique(3 * (375 * y - 4 * x), 4, 281 * y - 3 * x, y);
  }

  lemma MainPlaces(n: nat, shift: nat)
    requires n < 18000
    ensures Main(n, shift).Within(3) && MainBack(Main(n, shift), shift) == n
  {
    OpenMain(SEALS, n, shift);
    OpenMainBack(SEALS, Main(n, shift), shift);
    var b, c, d := n / 2250, (n % 2250) / 750, n % 750;
    assert n == 2250 * b + 750 * c + d;
    DivUnique(n, 750, 3 * b + c, d);
    DivUnique(n, 3, 750 * b + 250 * c + d / 3, d % 3);
    var x := d + 3 * b + c + shift;
    DivUnique(n + n / 750 + shift, 750, 3 * b + c + x / 750, x % 750);
    DivUnique(x % 750 - d % 3 - shift, 3, d / 3 + b - 250 * (x / 750), c);
    DivUnique(x % 750 - 3 * b - c - shift, 750, -(x / 750), d);
  }

  lemma MainCovers(p: Spot, shift: nat)
    requires p.Within(3)
    ensures 0 <= MainBack(p, shift) < 18000 && Main(MainBack(p, shift), shift) == p
  {
    OpenMainBack(SEALS, p, shift);
    OpenMain(SEALS, MainBack(p, shift), shift);
    var c := (p.cell - p.bit - shift) % 3;
    var u := (p.cell - p.bit - shift) / 3;
    var y := p.cell - 3 * p.block - c - shift;
    var d, v := y % 750, y / 750;
    var n := 2250 * p.block + 750 * c + d;
    DivUnique(n, 2250, p.block, 750 * c + d);
    DivUnique(n, 750, 3 * p.block + c, d);
    assert d == p.bit + 3 * u - 3 * p.block - 750 * v;
    DivUnique(n, 3, 750 * p.block + 250 * c + u - p.block - 250 * v, p.bit);
    DivUnique(n + n / 750 + shift, 750, 3 * p.block + c - v, p.cell);
  }

  lemma SixOf(c: nat)
    requires c < 6
    ensures (3 * (c % 2) + 4 * (c % 3)) % 6 == c
  {
  }

  lemma SixHas(x: nat, y: nat)
    requires x < 2 && y < 3
    ensures var c := (3 * x + 4 * y) % 6; c % 2 == x && c % 3 == y
  {
  }

  lemma SpreadBackIs(p: Spot, first: nat, shift: nat, f: nat, c: nat, g: nat)
    requires f == (3 * (p.block - first)) % 8 && g == (p.cell - c - shift) % 750
    requires c == (3 * ((p.cell - shift - f) % 2) + 4 * ((p.cell - shift - p.bit) % 3)) % 6
    ensures SpreadBack(p, first, shift) == 3000 * c + Chinese(f, g)
  {
    OpenSpreadBack(SEALS, p, first, shift);
  }

  lemma SpreadPlaces(n: nat, first: nat, shift: nat)
    requires n < 18000
    ensures Spread(n, first, shift).Within(3) && SpreadBack(Spread(n, first, shift), first, shift) == n
  {
    SpreadPlacesAt(n, n / 3000, n % 3000, first, shift);
  }

  lemma SpreadPlacesAt(n: nat, c: nat, d: nat, first: nat, shift: nat)
    requires n == 3000 * c + d && c < 6 && d < 3000
    ensures Spread(n, first, shift).Within(3) && SpreadBack(Spread(n, first, shift), first, shift) == n
  {
    SpreadParts(n, c, d, first, shift);
    var p := Spread(n, first, shift);
    var f8, g := d % 8, d % 750;
    SpreadParities(c, d, first, shift, p, f8, g);
    ChineseUnique(d);
    SpreadBackIs(p, first, shift, f8, c, g);
  }

  lemma SpreadParities(c: nat, d: nat, first: nat, shift: nat, p: Spot, f8: nat, g: nat)
    requires c < 6 && d < 3000 && f8 == d % 8 && g == d % 750
    requires p == Spot((3 * d + first) % 8, (d + c + shift) % 750, d % 3)
    ensures p.Within(3) && f8 == (3 * (p.block - first)) % 8 && g == (p.cell - c - shift) % 750
    ensures c == (3 * ((p.cell - shift - f8) % 2) + 4 * ((p.cell - shift - p.bit) % 3)) % 6
  {
    SpreadRecover(c, d, first, shift, (3 * d + first) / 8, (d + c + shift) / 750);
    SixOf(c);
  }

  lemma SpreadRecover(c: nat, d: nat, first: nat, shift: nat, u: int, v: int)
    requires c < 6 && d < 3000 && u == (3 * d + first) / 8 && v == (d + c + shift) / 750
    ensures var b, k := (3 * d + first) % 8, (d + c + shift) % 750;
      && (3 * (b - first)) % 8 == d % 8
      && (k - shift - d % 8) % 2 == c % 2
      && (k - shift - d % 3) % 3 == c % 3
      && (k - c - shift) % 750 == d % 750
  {
    var b, k := 3 * d + first - 8 * u, d + c + shift - 750 * v;
    DivUnique(3 * (b - first), 8, d + d / 8 - 3 * u, d % 8);
    DivUnique(k - shift - d % 8, 2, c / 2 - 375 * v + 4 * (d / 8), c % 2);
    DivUnique(k - shift - d % 3, 3, c / 3 - 250 * v + d / 3, c % 3);
    DivUnique(k - c - shift, 750, d / 750 - v, d % 750);
  }

  lemma SpreadCovers(p: Spot, first: nat, shift: nat)
    requires p.Within(3)
    ensures 0 <= SpreadBack(p, first, shift) < 18000 && Spread(SpreadBack(p, first, shift), first, shift) == p
  {
    var f := (3 * (p.block - first)) % 8;
    var x, y := (p.cell - shift - f) % 2, (p.cell - shift - p.bit) % 3;
    var c := (3 * x + 4 * y) % 6;
    var g := (p.cell - c - shift) % 750;
    SixHas(x, y);
    SpreadParity(p.cell, shift, f, c, g);
    ChineseIs(f, g);
    var d := Chinese(f, g);
    SpreadParts(3000 * c + d, c, d, first, shift);
    SpreadBackIs(p, first, shift, f, c, g);
    SpreadRead(p, first, shift, f, c, g, d);
  }

  lemma SpreadParity(cell: nat, shift: nat, f: nat, c: nat, g: nat)
    requires c % 2 == (cell - shift - f) % 2 && g == (cell - c - shift) % 750
    ensures (f - g) % 2 == 0
  {
    var q, w := (cell - c - shift) / 750, (cell - shift - f) / 2;
    assert g == cell - c - shift - 750 * q && cell - shift - f == 2 * w + c % 2;
    DivUnique(f - g, 2, c / 2 + 375 * q - w, 0);
  }

  lemma SpreadRead(p: Spot, first: nat, shift: nat, f: nat, c: nat, g: nat, d: nat)
    requires p.Within(3) && f == (3 * (p.block - first)) % 8 && g == (p.cell - c - shift) % 750
    requires c % 3 == (p.cell - shift - p.bit) % 3 && d % 8 == f && d % 750 == g
    ensures (3 * d + first) % 8 == p.block && (d + c + shift) % 750 == p.cell && d % 3 == p.bit
  {
    var u, q := (3 * (p.block - first)) / 8, (p.cell - c - shift) / 750;
    var w := (p.cell - shift - p.bit) / 3;
    DivUnique(3 * d + first, 8, 3 * (d / 8) + p.block - first - 3 * u, p.block);
    DivUnique(d + c + shift, 750, d / 750 - q, p.cell);
    DivUnique(d, 3, 250 * (d / 750) - 250 * q + w - c / 3, p.bit);
  }

  lemma SpreadParts(n: nat, c: nat, d: nat, first: nat, shift: nat)
    requires n == 3000 * c + d && c < 6 && d < 3000
    ensures Spread(n, first, shift) == Spot((3 * d + first) % 8, (d + c + shift) % 750, d % 3)
  {
    var x, y := d + c + shift, 3 * d + first;
    OpenSpread(SEALS, n, first, shift);
    DivUnique(n, 3000, c, d);
    DivUnique(3 * n + first, 8, 1125 * c + y / 8, y % 8);
    DivUnique(n + c + shift, 750, 4 * c + x / 750, x % 750);
    DivUnique(n, 3, 1000 * c + d / 3, d % 3);
  }

  lemma LeftParts(n: nat, c: nat, e: nat, f: nat)
    requires n == 6000 * c + 3000 * e + f && c < 2 && e < 2 && f < 3000
    ensures Left(n) == Spot((3 * f + 2 * c + e) % 8, (f + c) % 750, f % 2)
  {
    var x, y := 3 * f + 2 * c + e, f + c;
    OpenLeft(SEALS, n);
    DivUnique(n, 3000, 2 * c + e, f);
    DivUnique(n, 6000, c, 3000 * e + f);
    DivUnique(3 * n + 2 * c + e, 8, 2250 * c + 1125 * e + x / 8, x % 8);
    DivUnique(n + c, 750, 8 * c + 4 * e + y / 750, y % 750);
    DivUnique(n, 2, 3000 * c + 1500 * e + f / 2, f % 2);
  }

  lemma LeftBackIs(p: Spot, c: nat, e: nat, f: nat, g: nat)
    requires c == (p.cell - p.bit) % 2 && g == (p.cell - c) % 750 && e == (p.block - g) % 2
    requires f == (3 * (p.block - 2 * c - e)) % 8
    ensures LeftBack(p) == 6000 * c + 3000 * e + Chinese(f, g)
  {
    OpenLeftBack(SEALS, p);
  }

  lemma LeftPlaces(n: nat)
    requires n < 12000
    ensures Left(n).Within(2) && LeftBack(Left(n)) == n
  {
    LeftPlacesAt(n, n / 6000, (n % 6000) / 3000, n % 3000);
  }

  lemma LeftParities(c: nat, e: nat, f: nat, p: Spot, f8: nat, g: nat)
    requires c < 2 && e < 2 && f < 3000 && f8 == f % 8 && g == f % 750
    requires p == Spot((3 * f + 2 * c + e) % 8, (f + c) % 750, f % 2)
    ensures p.Within(2) && c == (p.cell - p.bit) % 2 && g == (p.cell - c) % 750
    ensures e == (p.block - g) % 2 && f8 == (3 * (p.block - 2 * c - e)) % 8
  {
    LeftRecover(c, e, f, (3 * f + 2 * c + e) / 8, (f + c) / 750);
  }

  lemma LeftPlacesAt(n: nat, c: nat, e: nat, f: nat)
    requires n == 6000 * c + 3000 * e + f && c < 2 && e < 2 && f < 3000
    ensures Left(n).Within(2) && LeftBack(Left(n)) == n
  {
    LeftParts(n, c, e, f);
    var p := Left(n);
    var f8, g := f % 8, f % 750;
    LeftParities(c, e, f, p, f8, g);
    ChineseUnique(f);
    LeftBackIs(p, c, e, f8, g);
  }

  lemma LeftRecover(c: nat, e: nat, f: nat, u: int, v: int)
    requires c < 2 && e < 2 && f < 3000 && u == (3 * f + 2 * c + e) / 8 && v == (f + c) / 750
    ensures var b, k := (3 * f + 2 * c + e) % 8, (f + c) % 750;
      && (k - f % 2) % 2 == c && (k - c) % 750 == f % 750
      && (b - f % 750) % 2 == e && (3 * (b - 2 * c - e)) % 8 == f % 8
  {
    var b, k := 3 * f + 2 * c + e - 8 * u, f + c - 750 * v;
    DivUnique(k - f % 2, 2, f / 2 - 375 * v, c);
    DivUnique(k - c, 750, f / 750 - v, f % 750);
    DivUnique(b - f % 750, 2, f + c - 4 * u + 375 * (f / 750), e);
    DivUnique(3 * (b - 2 * c - e), 8, f + f / 8 - 3 * u, f % 8);
  }

  lemma LeftCovers(p: Spot)
    requires p.Within(2)
    ensures 0 <= LeftBack(p) < 12000 && Left(LeftBack(p)) == p
  {
    var c := (p.cell - p.bit) % 2;
    var g := (p.cell - c) % 750;
    var e := (p.block - g) % 2;
    var f8 := (3 * (p.block - 2 * c - e)) % 8;
    LeftParity(p.block, c, e, f8, g);
    ChineseIs(f8, g);
    var f := Chinese(f8, g);
    LeftParts(6000 * c + 3000 * e + f, c, e, f);
    LeftBackIs(p, c, e, f8, g);
    LeftRead(p, c, e, f8, g, f);
  }

  lemma LeftParity(b: nat, c: nat, e: nat, f8: nat, g: nat)
    requires e == (b - g) % 2 && f8 == (3 * (b - 2 * c - e)) % 8
    ensures (f8 - g) % 2 == 0
  {
    var x, w := (3 * (b - 2 * c - e)) / 8, (b - g) / 2;
    assert f8 == 3 * (b - 2 * c - e) - 8 * x && b == g + 2 * w + e;
    DivUnique(f8 - g, 2, g + 3 * w - 3 * c - 4 * x, 0);
  }

  lemma LeftRead(p: Spot, c: nat, e: nat, f8: nat, g: nat, f: nat)
    requires p.Within(2) && c == (p.cell - p.bit) % 2 && g == (p.cell - c) % 750
    requires f8 == (3 * (p.block - 2 * c - e)) % 8 && f % 8 == f8 && f % 750 == g
    ensures (3 * f + 2 * c + e) % 8 == p.block && (f + c) % 750 == p.cell && f % 2 == p.bit
  {
    var u, q, w := (3 * (p.block - 2 * c - e)) / 8, (p.cell - c) / 750, (p.cell - p.bit) / 2;
    DivUnique(3 * f + 2 * c + e, 8, 3 * (f / 8) + p.block - 2 * c - e - 3 * u, p.block);
    DivUnique(f + c, 750, f / 750 - q, p.cell);
    DivUnique(f, 2, 375 * (f / 750) - 375 * q + w, p.bit);
  }

  lemma UpperParts(n: nat, a: nat, c: nat, e: nat, f: nat)
    requires n == 12000 * a + 6000 * c + 3000 * e + f && a < 2 && c < 2 && e < 2 && f < 3000
    ensures Upper(n) == Spot((3 * f + 6 * a + 2 * c + e) % 8, (f + 2 * a + c) % 750, f % 4)
  {
    var x, y := 3 * f + 6 * a + 2 * c + e, f + 2 * a + c;
    OpenUpper(SEALS, n);
    DivUnique(n, 3000, 4 * a + 2 * c + e, f);
    DivUnique(n, 6000, 2 * a + c, 3000 * e + f);
    DivUnique(n, 12000, a, 6000 * c + 3000 * e + f);
    DivUnique(3 * n + (4 * a + 2 * c + e) + 2 * a, 8, 4500 * a + 2250 * c + 1125 * e + x / 8, x % 8);
    DivUnique(n + 2 * a + c, 750, 16 * a + 8 * c + 4 * e + y / 750, y % 750);
    DivUnique(n, 4, 3000 * a + 1500 * c + 750 * e + f / 4, f % 4);
  }

  lemma UpperBackIs(p: Spot, a: nat, c: nat, e: nat, f: nat, g: nat)
    requires a < 2 && e < 2 && c == (p.cell - p.bit) % 2 && 2 * a + e == (p.block - 3 * p.bit - 2 * c) % 4
    requires g == (p.cell - 2 * a - c) % 750 && f == (3 * (p.block - 6 * a - 2 * c - e)) % 8
    ensures UpperBack(p) == 12000 * a + 6000 * c + 3000 * e + Chinese(f, g)
  {
    OpenUpperBack(SEALS, p);
  }

  lemma UpperPlaces(n: nat)
    requires n < 24000
    ensures Upper(n).Within(4) && UpperBack(Upper(n)) == n
  {
    UpperPlacesAt(n, n / 12000, (n % 12000) / 6000, (n % 6000) / 3000, n % 3000);
  }

  lemma UpperParities(a: nat, c: nat, e: nat, f: nat, p: Spot, f8: nat, g: nat)
    requires a < 2 && c < 2 && e < 2 && f < 3000 && f8 == f % 8 && g == f % 750
    requires p == Spot((3 * f + 6 * a + 2 * c + e) % 8, (f + 2 * a + c) % 750, f % 4)
    ensures p.Within(4) && c == (p.cell - p.bit) % 2 && 2 * a + e == (p.block - 3 * p.bit - 2 * c) % 4
    ensures g == (p.cell - 2 * a - c) % 750 && f8 == (3 * (p.block - 6 * a - 2 * c - e)) % 8
  {
    UpperRecover(a, c, e, f, (3 * f + 6 * a + 2 * c + e) / 8, (f + 2 * a + c) / 750);
  }

  lemma UpperPlacesAt(n: nat, a: nat, c: nat, e: nat, f: nat)
    requires n == 12000 * a + 6000 * c + 3000 * e + f && a < 2 && c < 2 && e < 2 && f < 3000
    ensures Upper(n).Within(4) && UpperBack(Upper(n)) == n
  {
    UpperParts(n, a, c, e, f);
    var p := Upper(n);
    var f8, g := f % 8, f % 750;
    UpperParities(a, c, e, f, p, f8, g);
    ChineseUnique(f);
    UpperBackIs(p, a, c, e, f8, g);
  }

  lemma UpperRecover(a: nat, c: nat, e: nat, f: nat, u: int, v: int)
    requires a < 2 && c < 2 && e < 2 && f < 3000 && u == (3 * f + 6 * a + 2 * c + e) / 8 && v == (f + 2 * a + c) / 750
    ensures var b, k := (3 * f + 6 * a + 2 * c + e) % 8, (f + 2 * a + c) % 750;
      && (k - f % 4) % 2 == c && (b - 3 * (f % 4) - 2 * c) % 4 == 2 * a + e
      && (k - 2 * a - c) % 750 == f % 750 && (3 * (b - 6 * a - 2 * c - e)) % 8 == f % 8
  {
    var b, k := 3 * f + 6 * a + 2 * c + e - 8 * u, f + 2 * a + c - 750 * v;
    DivUnique(k - f % 4, 2, 2 * (f / 4) + a - 375 * v, c);
    DivUnique(b - 3 * (f % 4) - 2 * c, 4, 3 * (f / 4) + a - 2 * u, 2 * a + e);
    DivUnique(k - 2 * a - c, 750, f / 750 - v, f % 750);
    DivUnique(3 * (b - 6 * a - 2 * c - e), 8, f + f / 8 - 3 * u, f % 8);
  }

  lemma UpperCovers(p: Spot)
    requires p.Within(4)
    ensures 0 <= UpperBack(p) < 24000 && Upper(UpperBack(p)) == p
  {
    var c := (p.cell - p.bit) % 2;
    var h := (p.block - 3 * p.bit - 2 * c) % 4;
    var a, e := h / 2, h % 2;
    var f8, g := (3 * (p.block - 6 * a - 2 * c - e)) % 8, (p.cell - 2 * a - c) % 750;
    UpperParity(p, a, c, e, f8, g);
    ChineseIs(f8, g);
    var f := Chinese(f8, g);
    UpperParts(12000 * a + 6000 * c + 3000 * e + f, a, c, e, f);
    UpperBackIs(p, a, c, e, f8, g);
    UpperRead(p, a, c, e, f8, g, f);
  }

  lemma UpperParity(p: Spot, a: nat, c: nat, e: nat, f8: nat, g: nat)
    requires p.Within(4) && c == (p.cell - p.bit) % 2 && 2 * a + e == (p.block - 3 * p.bit - 2 * c) % 4
    requires f8 == (3 * (p.block - 6 * a - 2 * c - e)) % 8 && g == (p.cell - 2 * a - c) % 750
    ensures (f8 - g) % 2 == 0 && f8 % 4 == p.bit
  {
    var x, q := (3 * (p.block - 6 * a - 2 * c - e)) / 8, (p.cell - 2 * a - c) / 750;
    var v, w := (p.cell - p.bit) / 2, (p.block - 3 * p.bit - 2 * c) / 4;
    assert p.block == 3 * p.bit + 2 * c + 4 * w + 2 * a + e && p.cell == p.bit + 2 * v + c;
    assert f8 == 3 * (p.block - 6 * a - 2 * c - e) - 8 * x && g == p.cell - 2 * a - c - 750 * q;
    DivUnique(f8, 4, 2 * p.bit + 3 * w - 3 * a - 2 * x, p.bit);
    DivUnique(f8 - g, 2, 4 * p.bit + 6 * w - 5 * a - 4 * x - v + 375 * q, 0);
  }

  lemma UpperRead(p: Spot, a: nat, c: nat, e: nat, f8: nat, g: nat, f: nat)
    requires p.Within(4) && g == (p.cell - 2 * a - c) % 750 && f8 % 4 == p.bit
    requires f8 == (3 * (p.block - 6 * a - 2 * c - e)) % 8 && f % 8 == f8 && f % 750 == g
    ensures (3 * f + 6 * a + 2 * c + e) % 8 == p.block && (f + 2 * a + c) % 750 == p.cell && f % 4 == p.bit
  {
    var u, q := (3 * (p.block - 6 * a - 2 * c - e)) / 8, (p.cell - 2 * a - c) / 750;
    DivUnique(3 * f + 6 * a + 2 * c + e, 8, 3 * (f / 8) + p.block - 6 * a - 2 * c - e - 3 * u, p.block);
    DivUnique(f + 2 * a + c, 750, f / 750 - q, p.cell);
    DivUnique(f, 4, 2 * (f / 8) + f8 / 4, p.bit);
  }

  // ---------- the delay tables ----------

  // One table of figure 10-4 of the standard per group: where the soft bits of a
  // group of size t go within every row of the output.
  const BL_DELAY: seq<nat> := [2, 1, 5]
  const ML_DELAY: seq<nat> := [11, 6, 7]
  const BU_DELAY: seq<nat> := [10, 8, 9]
  const MU_DELAY: seq<nat> := [4, 3, 0]
  const EL_DELAY: seq<nat> := [0, 1]
  const EU_DELAY: seq<nat> := [2, 3, 5, 4]
  const IL_DELAY: seq<nat> := [0, 1, 12, 13, 6, 5, 18, 17, 11, 7, 23, 19]
  const IU_DELAY: seq<nat> := [2, 4, 14, 16, 3, 8, 15, 20, 9, 10, 21, 22]

  // Soft bit n of a group with that table goes to this place.
  function PlaceOf(delay: seq<nat>, width: nat, n: nat): nat
    requires |delay| > 0 && width > 0
  {
    (n / |delay|) * width + delay[n % |delay|]
  }

  // owners tells which entry of which table each place of a row belongs to.
  ghost predicate Tile(tables: seq<seq<nat>>, owners: seq<(nat, nat)>) {
    && (forall r: nat :: r < |owners| ==>
         var g, j := owners[r].0, owners[r].1; g < |tables| && j < |tables[g]| && tables[g][j] == r)
    && (forall g: nat, j: nat :: g < |tables| && j < |tables[g]| ==> tables[g][j] < |owners| && owners[tables[g][j]] == (g, j))
  }

  const MAIN_TABLES := [BL_DELAY, ML_DELAY, BU_DELAY, MU_DELAY]
  const MAIN_OWNERS: seq<(nat, nat)> :=
    [(3, 2), (0, 1), (0, 0), (3, 1), (3, 0), (0, 2), (1, 1), (1, 2), (2, 1), (2, 2), (2, 0), (1, 0)]
  const SIDE_TABLES := [EL_DELAY, EU_DELAY]
  const SIDE_OWNERS: seq<(nat, nat)> := [(0, 0), (0, 1), (1, 0), (1, 1), (1, 3), (1, 2)]
  const PIDS_TABLES := [IL_DELAY, IU_DELAY]
  const PIDS_OWNERS: seq<(nat, nat)> :=
    [(0, 0), (0, 1), (1, 0), (1, 4), (1, 1), (0, 5), (0, 4), (0, 9), (1, 5), (1, 8), (1, 9), (0, 8),
     (0, 2), (0, 3), (1, 2), (1, 6), (1, 3), (0, 7), (0, 6), (0, 11), (1, 7), (1, 10), (1, 11), (0, 10)]

  /** The delay tables of every output tile its rows. */
  lemma TablesTile()
    ensures Tile(MAIN_TABLES, MAIN_OWNERS) && Tile(SIDE_TABLES, SIDE_OWNERS) && Tile(PIDS_TABLES, PIDS_OWNERS)
  {
    MainTile();
    SideTile();
    PidsTile();
  }

  lemma MainTile()
    ensures Tile(MAIN_TABLES, MAIN_OWNERS)
  {
  }

  lemma SideTile()
    ensures Tile(SIDE_TABLES, SIDE_OWNERS)
  {
  }

  ghost predicate Owned(tables: seq<seq<nat>>, owners: seq<(nat, nat)>, from: nat, to: nat) {
    forall r: nat :: from <= r < to && r < |owners| ==>
      var g, j := owners[r].0, owners[r].1; g < |tables| && j < |tables[g]| && tables[g][j] == r
  }

  lemma PidsOwned(half: bool)
    ensures if half then Owned(PIDS_TABLES, PIDS_OWNERS, 12, 24) else Owned(PIDS_TABLES, PIDS_OWNERS, 0, 12)
  {
    if half {} else {}
  }

  lemma PidsPlaced(g: nat, j: nat)
    requires g < 2 && j < |PIDS_TABLES[g]|
    ensures PIDS_TABLES[g][j] < |PIDS_OWNERS| && PIDS_OWNERS[PIDS_TABLES[g][j]] == (g, j)
  {
    if g == 0 {} else {}
  }

  lemma PidsTile()
    ensures Tile(PIDS_TABLES, PIDS_OWNERS)
  {
    PidsOwned(false);
    PidsOwned(true);
    forall g: nat, j: nat | g < 2 && j < |PIDS_TABLES[g]|
      ensures PIDS_TABLES[g][j] < |PIDS_OWNERS| && PIDS_OWNERS[PIDS_TABLES[g][j]] == (g, j)
    {
      PidsPlaced(g, j);
    }
  }

  // The group and number of the soft bit that goes to place x.
  function OwnerOf(tables: seq<seq<nat>>, owners: seq<(nat, nat)>, x: nat): (nat, nat)
    requires |owners| > 0 && Tile(tables, owners)
  {
    var o := owners[x % |owners|];
    (o.0, (x / |owners|) * |tables[o.0]| + o.1)
  }

  /** Tiled rows give a one-to-one correspondence between the places of the output
      and the soft bits of the groups. */
  lemma PlacesOwned(tables: seq<seq<nat>>, owners: seq<(nat, nat)>, x: nat)
    requires |owners| > 0 && Tile(tables, owners)
    ensures var o := OwnerOf(tables, owners, x); o.0 < |tables| && |tables[o.0]| > 0 && PlaceOf(tables[o.0], |owners|, o.1) == x
  {
    var g, j := owners[x % |owners|].0, owners[x % |owners|].1;
    var q, t := x / |owners|, |tables[g]|;
    assert q * t == t * q;
    DivUnique(q * t + j, t, q, j);
    assert x == |owners| * q + x % |owners| && |owners| * q == q * |owners|;
  }

  lemma OwnersPlaced(tables: seq<seq<nat>>, owners: seq<(nat, nat)>, g: nat, n: nat)
    requires |owners| > 0 && Tile(tables, owners) && g < |tables| && |tables[g]| > 0
    ensures OwnerOf(tables, owners, PlaceOf(tables[g], |owners|, n)) == (g, n)
  {
    var t, j := |tables[g]|, n % |tables[g]|;
    var q, r := n / t, tables[g][j];
    assert owners[r] == (g, j) && r < |owners|;
    assert q * |owners| == |owners| * q;
    DivUnique(q * |owners| + r, |owners|, q, r);
    assert n == t * q + j && t * q == q * t;
  }

  // ---------- the PIDS block ----------

  // Rows of the two PIDS columns that are not training rows, 15 and 31 left out.
  function PidsRow(k: nat): nat { (11 * (k + k / 15) + 3) % 32 }

  // Soft bit n: cell number and bit; shift is 11 for il and 0 for iu.
  function PidsSpot(n: nat, shift: nat): (nat, nat) { ((n + n / 60 + shift) % 30, n % 4) }

  function PidsBack(k: nat, p: nat, shift: nat): int {
    var c := (k - shift - p) % 2;
    var g := (k - c - shift) % 30;
    60 * c + g + 30 * (((p - g) / 2) % 2)
  }

  /** The 120 soft bits of either PIDS column are the four bits of thirty cells. */
  lemma PidsPlaces(n: nat, shift: nat)
    requires n < 120
    ensures var s := PidsSpot(n, shift); s.0 < 30 && s.1 < 4 && PidsBack(s.0, s.1, shift) == n
  {
    PidsPlacesAt(n, n / 60, n % 60, shift, (n % 60 + n / 60 + shift) / 30);
  }

  lemma PidsPlacesAt(n: nat, c: nat, d: nat, shift: nat, v: int)
    requires n == 60 * c + d && c < 2 && d < 60 && v == (d + c + shift) / 30
    ensures var s := PidsSpot(n, shift); s.0 < 30 && s.1 < 4 && PidsBack(s.0, s.1, shift) == n
  {
    var k, p, g := d + c + shift - 30 * v, d % 4, d % 30;
    DivUnique(n, 60, c, d);
    DivUnique(n + c + shift, 30, 2 * c + v, k);
    DivUnique(n, 4, 15 * c + d / 4, p);
    DivUnique(k - shift - p, 2, 2 * (d / 4) - 15 * v, c);
    DivUnique(k - c - shift, 30, d / 30 - v, g);
    DivUnique(p - g, 2, 15 * (d / 30) - 2 * (d / 4), 0);
    DivUnique((p - g) / 2, 2, 7 * (d / 30) - d / 4, d / 30);
  }

  lemma PidsCovers(k: nat, p: nat, shift: nat)
    requires k < 30 && p < 4
    ensures 0 <= PidsBack(k, p, shift) < 120 && PidsSpot(PidsBack(k, p, shift), shift) == (k, p)
  {
    var c := (k - shift - p) % 2;
    var g := (k - c - shift) % 30;
    PidsCoversAt(k, p, shift, c, (k - shift - p) / 2, g, (k - c - shift) / 30);
    assert PidsBack(k, p, shift) == 60 * c + g + 30 * (((p - g) / 2) % 2);
  }

  lemma PidsCoversAt(k: nat, p: nat, shift: nat, c: nat, w: int, g: nat, q: int)
    requires k < 30 && p < 4 && c < 2 && g < 30 && k - shift - p == 2 * w + c && k - c - shift == 30 * q + g
    ensures var n := 60 * c + g + 30 * (((p - g) / 2) % 2); PidsSpot(n, shift) == (k, p)
    ensures c == (k - shift - p) % 2 && g == (k - c - shift) % 30
  {
    var x := (p - g) / 2;
    var t := x % 2;
    var n := 60 * c + g + 30 * t;
    DivUnique(k - shift - p, 2, w, c);
    DivUnique(k - c - shift, 30, q, g);
    DivUnique(p - g, 2, 15 * q - w, 0);
    assert p == g + 2 * x && x == 2 * (x / 2) + t;
    DivUnique(n, 60, c, g + 30 * t);
    DivUnique(n + c + shift, 30, 2 * c + t - q, k);
    DivUnique(n, 4, 15 * c + 7 * t - x / 2, p);
  }

  /** Those cells are the ones outside the two training rows 8 and 24 (src/sync.c:673). */
  lemma PidsRows(k: nat, row: nat)
    requires k < 30 && row < 32
    ensures PidsRow(k) != 8 && PidsRow(k) != 24
    ensures row != 8 && row != 24 ==> exists j: nat :: j < 30 && PidsRow(j) == row
  {
    var u := k + k / 15;
    PidsRowOf(u);
    var w := (3 * (row - 3)) % 32;
    PidsRowOf(w);
    if row != 8 && row != 24 {
      var j := if w < 15 then w else w - 1;
      PidsRowBack(row, w);
      assert PidsRow(j) == row;
    }
  }

  // 3 undoes 11 modulo 32; 15 and 31 are the numbers of rows 8 and 24.
  lemma PidsRowOf(u: nat)
    requires u < 32
    ensures (3 * ((11 * u + 3) % 32 - 3)) % 32 == u
    ensures (11 * u + 3) % 32 == 8 ==> u == 15
    ensures (11 * u + 3) % 32 == 24 ==> u == 31
  {
    var q := (11 * u + 3) / 32;
    DivUnique(3 * (11 * u + 3 - 32 * q - 3), 32, u - 3 * q, u);
  }

  lemma PidsRowBack(row: nat, w: nat)
    requires row < 32 && w == (3 * (row - 3)) % 32
    ensures (11 * w + 3) % 32 == row && (w == 15 ==> row == 8) && (w == 31 ==> row == 24)
  {
    var q := (3 * (row - 3)) / 32;
    DivUnique(11 * w + 3, 32, row - 3 - 11 * q, row);
  }
}
