/** The other side of the grammar: how a sender lays out codewords, scale factors,
    sections and noise shaping data, with every width and count written out here
    a second time, and the proof that the readers of AacSyntax and HdcSyntax find
    in those bits what the sender put there. */
module AacSender {
  import opened Basics
  import opened Arith
  import opened Bits
  import opened Huffman
  import opened AacSyntax
  import Hdc = HdcSyntax

  // ---------- bits and numbers ----------

  function NumOf(bits: seq<bool>): nat { Num(bits, 0, |bits|) }

  // t holds the string w from q on, behind a counter as in AacSyntax.
  ghost predicate Stands(t: seq<bool>, q: nat, w: seq<bool>) { SealedHolds(SEALS, t, q, w) }

  ghost predicate SealedHolds(seals: seq<bool>, t: seq<bool>, q: nat, w: seq<bool>) {
    if |seals| > 0 then SealedHolds(seals[1..], t, q, w) else Holds(t, q, w)
  }

  lemma {:induction false} OpenHolds(seals: seq<bool>, t: seq<bool>, q: nat, w: seq<bool>)
    ensures SealedHolds(seals, t, q, w) == Holds(t, q, w)
  {
    if |seals| > 0 { OpenHolds(seals[1..], t, q, w); }
  }

  lemma StandsInside(t: seq<bool>, q: nat, w: seq<bool>)
    requires Stands(t, q, w)
    ensures q + |w| <= |t|
  {
    OpenHolds(SEALS, t, q, w);
  }

  lemma StandsSplit(t: seq<bool>, q: nat, a: seq<bool>, b: seq<bool>)
    requires Stands(t, q, a + b)
    ensures Stands(t, q, a) && Stands(t, q + |a|, b) && |a + b| == |a| + |b|
  {
    OpenHolds(SEALS, t, q, a + b);
    OpenHolds(SEALS, t, q, a);
    OpenHolds(SEALS, t, q + |a|, b);
    HoldsSplit(t, q, a, b);
  }

  lemma {:induction false} HoldsAgrees(t: seq<bool>, q: nat, bits: seq<bool>, n: nat)
    requires Holds(t, q, bits) && n <= |bits|
    ensures Agree(bits, 0, t, q, n)
    decreases n
  {
    if n > 0 {
      HoldsAgrees(t, q, bits, n - 1);
      assert t[q..q + |bits|][n - 1] == t[q + (n - 1)];
    }
  }

  lemma NumHolds(t: seq<bool>, q: nat, bits: seq<bool>)
    requires Stands(t, q, bits)
    ensures Num(t, q, |bits|) == NumOf(bits)
  {
    OpenHolds(SEALS, t, q, bits);
    HoldsAgrees(t, q, bits, |bits|);
    NumAgree(bits, 0, t, q, |bits|);
  }

  lemma NumStands(t: seq<bool>, q: nat, v: nat, n: nat)
    requires Stands(t, q, Digits(v, n)) && v < Pow2(n)
    ensures Num(t, q, n) == v
  {
    OpenHolds(SEALS, t, q, Digits(v, n));
    NumDigits(t, q, v, n);
  }

  lemma BitHolds(t: seq<bool>, q: nat, b: bool)
    requires Stands(t, q, [b])
    ensures Bit(t, q) == b && Num(t, q, 1) == if b then 1 else 0
  {
    OpenHolds(SEALS, t, q, [b]);
    assert t[q] == t[q..q + 1][0];
    assert Num(t, q, 1) == 2 * Num(t, q, 0) + if Bit(t, q) then 1 else 0;
  }

  lemma {:induction false} HoldsIsCut(s: seq<bool>, p: nat, bits: seq<bool>, n: nat)
    requires Holds(s, p, bits) && n <= |bits|
    ensures Cut(s, p, n) == bits[..n]
    decreases n
  {
    if n > 0 {
      HoldsIsCut(s, p, bits, n - 1);
      assert s[p..p + |bits|][n - 1] == s[p + (n - 1)];
      assert bits[..n] == bits[..n - 1] + [bits[n - 1]];
    }
  }

  lemma CutIs(s: seq<bool>, p: nat, bits: seq<bool>)
    requires Stands(s, p, bits)
    ensures Cut(s, p, |bits|) == bits
  {
    OpenHolds(SEALS, s, p, bits);
    HoldsIsCut(s, p, bits, |bits|);
    assert bits[..|bits|] == bits;
  }

  lemma {:induction false} DigitsOfNum(s: seq<bool>, p: nat, n: nat)
    ensures Digits(Num(s, p, n), n) == Cut(s, p, n)
    decreases n
  {
    if n > 0 { DigitsOfNum(s, p, n - 1); }
  }

  lemma DigitsOf(bits: seq<bool>)
    ensures Digits(NumOf(bits), |bits|) == bits
  {
    DigitsOfNum(bits, 0, |bits|);
    assert Holds(bits, 0, bits);
    OpenHolds(SEALS, bits, 0, bits);
    CutIs(bits, 0, bits);
  }

  lemma {:induction false} CutSplit(s: seq<bool>, p: nat, a: nat, b: nat)
    ensures Cut(s, p, a + b) == Cut(s, p, a) + Cut(s, p + a, b)
    decreases b
  {
    if b > 0 { CutSplit(s, p, a, b - 1); }
  }

  lemma SmallDigits()
    ensures Digits(0, 1) == [false] && Digits(1, 1) == [true]
    ensures Digits(0, 2) == [false, false] && Digits(1, 2) == [false, true]
    ensures Digits(0, 3) == [false, false, false] && Digits(1, 3) == [false, false, true] && Digits(7, 3) == [true, true, true]
    ensures Digits(0, 4) == [false, false, false, false] && Digits(31, 5) == [true, true, true, true, true]
  {
    assert Digits(0, 1) == [] + [false] && Digits(1, 1) == [] + [true];
    assert Digits(0, 2) == Digits(0, 1) + [false] && Digits(1, 2) == Digits(0, 1) + [true];
    assert Digits(3, 2) == Digits(1, 1) + [true];
    assert Digits(0, 3) == Digits(0, 2) + [false] && Digits(1, 3) == Digits(0, 2) + [true] && Digits(7, 3) == Digits(3, 2) + [true];
    assert Digits(0, 4) == Digits(0, 3) + [false] && Digits(15, 4) == Digits(7, 3) + [true];
    assert Digits(31, 5) == Digits(15, 4) + [true];
  }

  // ---------- codewords ----------

  // Where the branches of path lead from node i, or -1.
  function Follow(tree: seq<Node>, i: nat, path: seq<bool>): int
    requires WellFormed(tree) && i < |tree|
    decreases |path|
  {
    if |path| == 0 then i
    else if tree[i].Leaf? then -1
    else
      var next := if path[0] then tree[i].b else tree[i].a;
      if next < 0 then -1 else Follow(tree, next, path[1..])
  }

  // A branch from the root to a leaf, no longer than the walk's guard.
  predicate Branch(tree: seq<Node>, path: seq<bool>)
    requires WellFormed(tree)
  {
    |path| <= 64 && var i := Follow(tree, 0, path); 0 <= i < |tree| && tree[i].Leaf?
  }

  lemma {:induction false} WalkFollows(tree: seq<Node>, i: nat, guard: nat, path: seq<bool>, t: seq<bool>, q: nat)
    requires WellFormed(tree) && i < |tree| && guard + |path| <= 64 && Stands(t, q, path)
    requires var leaf := Follow(tree, i, path); 0 <= leaf < |tree| && tree[leaf].Leaf?
    ensures Walk(tree, i, guard, t, q) == Read(Follow(tree, i, path), |path|)
    decreases |path|
  {
    if |path| > 0 {
      assert path == [path[0]] + path[1..];
      StandsSplit(t, q, [path[0]], path[1..]);
      BitHolds(t, q, path[0]);
      WalkFollows(tree, if path[0] then tree[i].b else tree[i].a, guard + 1, path[1..], t, q + 1);
    }
  }

  /** And a walk that succeeds has followed a branch of at most 64 bits. */
  lemma {:induction false} WalkOnly(tree: seq<Node>, i: nat, guard: nat, s: seq<bool>, p: nat)
    requires WellFormed(tree) && i < |tree| && guard <= 64 && Walk(tree, i, guard, s, p).Read?
    ensures var r := Walk(tree, i, guard, s, p);
      guard + r.n <= 64 && Follow(tree, i, Cut(s, p, r.n)) == r.value && r.value < |tree| && tree[r.value].Leaf?
    decreases 64 - guard
  {
    if tree[i].Inner? {
      var next := if Bit(s, p) then tree[i].b else tree[i].a;
      WalkOnly(tree, next, guard + 1, s, p + 1);
      var n := Walk(tree, next, guard + 1, s, p + 1).n;
      CutSplit(s, p, 1, n);
      assert Cut(s, p, 1) == [Bit(s, p)];
      assert Cut(s, p, 1 + n)[1..] == Cut(s, p + 1, n);
    }
  }

  // The width of an escaped magnitude: its bits below the leading one.
  function Log(v: nat): nat { if v < 2 then 0 else 1 + Log(v / 2) }

  lemma {:induction false} LogBounds(v: nat)
    requires v > 0
    ensures Pow2(Log(v)) <= v < 2 * Pow2(Log(v))
  {
    if v >= 2 { LogBounds(v / 2); }
  }

  lemma EscapeWidth(v: nat)
    requires 16 <= v < 65536
    ensures 4 <= Log(v) <= 15
  {
    LogBounds(v);
    assert Pow2(4) == 16 && Pow2(15) == 32768;
    if Log(v) < 4 { PowMono(Log(v), 3); }
    if Log(v) > 15 { PowMono(16, Log(v)); }
  }

  // The magnitudes that are sent with an escape.
  type Magnitude = v: nat | 16 <= v < 65536 witness 16

  // Ones for every bit the width has beyond four, a zero, then the bits below the leading one.
  function EscapeBits(v: Magnitude): seq<bool> {
    EscapeWidth(v);
    LogBounds(v);
    Repeat(true, Log(v) - 4) + [false] + Digits(v - Pow2(Log(v)), Log(v))
  }

  lemma {:induction false} WidthRead(n: nat, i: nat, t: seq<bool>, q: nat)
    requires i + n < 16 && Stands(t, q, Repeat(true, n) + [false])
    ensures Width(t, q, i) == Read(i + n, n + 1)
    decreases n
  {
    if n == 0 {
      assert Repeat(true, 0) + [false] == [false];
      BitHolds(t, q, false);
    } else {
      assert Repeat(true, n) + [false] == [true] + (Repeat(true, n - 1) + [false]);
      StandsSplit(t, q, [true], Repeat(true, n - 1) + [false]);
      BitHolds(t, q, true);
      WidthRead(n - 1, i + 1, t, q + 1);
    }
  }

  lemma EscapeRead(v: Magnitude, t: seq<bool>, q: nat)
    requires Stands(t, q, EscapeBits(v))
    ensures Escape(t, q) == Read(v, |EscapeBits(v)|)
  {
    EscapeWidth(v);
    LogBounds(v);
    OpenEscape(SEALS, t, q);
    EscapeSplit(Log(v), v - Pow2(Log(v)), t, q);
  }

  lemma EscapeSplit(w: nat, v: nat, t: seq<bool>, q: nat)
    requires 4 <= w <= 15 && v < Pow2(w) && Stands(t, q, Repeat(true, w - 4) + [false] + Digits(v, w))
    ensures EscapeParts(t, q) == Read(Pow2(w) + v, w - 3 + w)
  {
    var ones := Repeat(true, w - 4) + [false];
    StandsSplit(t, q, ones, Digits(v, w));
    assert Width(t, q, 4) == Read(w, |ones|) by { WidthRead(w - 4, 4, t, q); }
    assert Num(t, q + |ones|, w) == v by { NumStands(t, q + |ones|, v, w); }
  }

  function EscapesBits(vs: seq<Magnitude>): seq<bool> {
    if |vs| == 0 then [] else EscapeBits(vs[0]) + EscapesBits(vs[1..])
  }

  lemma {:induction false} EscapesRead(vs: seq<Magnitude>, t: seq<bool>, q: nat)
    requires Stands(t, q, EscapesBits(vs))
    ensures Escapes(t, q, |vs|) == Read(vs, |EscapesBits(vs)|)
    decreases |vs|
  {
    if |vs| > 0 {
      StandsSplit(t, q, EscapeBits(vs[0]), EscapesBits(vs[1..]));
      EscapeRead(vs[0], t, q);
      EscapesRead(vs[1..], t, q + |EscapeBits(vs[0])|);
      assert [vs[0]] + vs[1..] == vs;
    }
  }

  // A spectral codeword: the branch, a sign for each nonzero value, escaped magnitudes.
  datatype Spelling = Spelling(path: seq<bool>, signs: seq<bool>, escapes: seq<Magnitude>)

  ghost predicate Spells(h: Tables, cb: nat, x: Spelling) {
    && h.Valid() && 1 <= cb <= 11 && Branch(h.cbs[cb], x.path)
    && h.cbs[cb][Follow(h.cbs[cb], 0, x.path)] == Leaf(|x.signs|, |x.escapes|)
  }

  ghost function WordOf(h: Tables, cb: nat, x: Spelling): Word {
    if Spells(h, cb, x) then Word(Follow(h.cbs[cb], 0, x.path), NumOf(x.signs), x.escapes) else Word(0, 0, [])
  }

  function WordBits(x: Spelling): seq<bool> { x.path + x.signs + EscapesBits(x.escapes) }

  lemma WordRead(h: Tables, cb: nat, x: Spelling, t: seq<bool>, q: nat)
    requires Spells(h, cb, x) && Stands(t, q, WordBits(x))
    ensures One(h, Spectral(cb), t, q) == Read(Coded(WordOf(h, cb, x)), |WordBits(x)|)
  {
    StandsSplit(t, q, x.path + x.signs, EscapesBits(x.escapes));
    StandsSplit(t, q, x.path, x.signs);
    WalkFollows(h.cbs[cb], 0, 0, x.path, t, q);
    TailRead(x, t, q + |x.path|);
    WordFold(h, cb, Follow(h.cbs[cb], 0, x.path), x, |EscapesBits(x.escapes)|, t, q);
  }

  lemma WordFold(h: Tables, cb: nat, leaf: nat, x: Spelling, m: nat, t: seq<bool>, q: nat)
    requires h.Valid() && 1 <= cb <= 11 && leaf < |h.cbs[cb]| && h.cbs[cb][leaf] == Leaf(|x.signs|, |x.escapes|)
    requires Walk(h.cbs[cb], 0, 0, t, q) == Read(leaf, |x.path|)
    requires Tail(|x.signs|, |x.escapes|, t, q + |x.path|) == Read((NumOf(x.signs), x.escapes), |x.signs| + m)
    ensures One(h, Spectral(cb), t, q) == Read(Coded(Word(leaf, NumOf(x.signs), x.escapes)), |x.path| + |x.signs| + m)
  {
    OpenItem(SEALS, h, Spectral(cb), t, q);
  }

  lemma TailRead(x: Spelling, t: seq<bool>, q: nat)
    requires Stands(t, q, x.signs) && Stands(t, q + |x.signs|, EscapesBits(x.escapes))
    ensures Tail(|x.signs|, |x.escapes|, t, q) == Read((NumOf(x.signs), x.escapes), |x.signs| + |EscapesBits(x.escapes)|)
  {
    NumHolds(t, q, x.signs);
    EscapesRead(x.escapes, t, q + |x.signs|);
  }

  // ---------- lists of items ----------

  // Wherever bits stand, items read as values.
  ghost predicate Reads(h: Tables, items: seq<Item>, values: seq<Value>, bits: seq<bool>) {
    h.Valid() && forall t, q: nat :: Stands(t, q, bits) ==> Items(h, items, t, q) == Read(values, |bits|)
  }

  lemma ReadsOne(h: Tables, item: Item, v: Value, bits: seq<bool>)
    requires h.Valid() && forall t, q: nat :: Stands(t, q, bits) ==> One(h, item, t, q) == Read(v, |bits|)
    ensures Reads(h, [item], [v], bits)
  {
    forall t, q: nat | Stands(t, q, bits) ensures Items(h, [item], t, q) == Read([v], |bits|) {
      assert [item][1..] == [];
      assert Items(h, [item][1..], t, q + |bits|) == Read([], 0);
      assert Items(h, [item], t, q) == Prepend([v], |bits|, Read([], 0));
      assert [v] + [] == [v];
    }
  }

  lemma {:induction false} ItemsAppend(h: Tables, a: seq<Item>, b: seq<Item>, t: seq<bool>, q: nat)
    requires h.Valid() && Items(h, a, t, q).Read?
    ensures var r := Items(h, a, t, q); Items(h, a + b, t, q) == Prepend(r.value, r.n, Items(h, b, t, q + r.n))
    decreases |a|
  {
    if |a| == 0 {
      assert a + b == b;
      PrependNothing(Items(h, b, t, q));
    } else {
      var one := One(h, a[0], t, q);
      assert (a + b)[0] == a[0] && (a + b)[1..] == a[1..] + b;
      ItemsAppend(h, a[1..], b, t, q + one.n);
      var rest := Items(h, a[1..], t, q + one.n);
      var last := Items(h, b, t, q + one.n + rest.n);
      if last.Read? { assert [one.value] + (rest.value + last.value) == [one.value] + rest.value + last.value; }
    }
  }

  lemma ReadsAppend(h: Tables, a: seq<Item>, u: seq<Value>, x: seq<bool>, b: seq<Item>, v: seq<Value>, y: seq<bool>)
    requires Reads(h, a, u, x) && Reads(h, b, v, y)
    ensures Reads(h, a + b, u + v, x + y)
  {
    forall t, q: nat | Stands(t, q, x + y) ensures Items(h, a + b, t, q) == Read(u + v, |x + y|) {
      StandsSplit(t, q, x, y);
      ItemsAppend(h, a, b, t, q);
    }
  }

  // ---------- scale factors ----------

  // What a band has among the scale factors: nothing, nine plain bits, or a codeword.
  datatype Entry = Nothing | Plain(v: nat) | Scaled(path: seq<bool>)

  function EntryBits(e: Entry): seq<bool> {
    match e
    case Nothing => []
    case Plain(v) => Digits(v, 9)
    case Scaled(path) => path
  }

  function EntriesBits(es: seq<Entry>): seq<bool> {
    if |es| == 0 then [] else EntryBits(es[0]) + EntriesBits(es[1..])
  }

  predicate NoiseBefore(books: seq<nat>, j: nat) { exists i :: 0 <= i < j && i < |books| && books[i] == 13 }

  // Bands of book 0 have none; the first band of book 13 is plain; all others are coded.
  ghost predicate EntryFits(h: Tables, books: seq<nat>, j: nat, e: Entry)
    requires h.Valid() && j < |books|
  {
    if books[j] == 0 then e.Nothing?
    else if books[j] == 13 && !NoiseBefore(books, j) then e.Plain? && e.v < 512
    else e.Scaled? && Branch(h.sf, e.path)
  }

  ghost predicate Scaling(h: Tables, books: seq<nat>, es: seq<Entry>) {
    h.Valid() && |es| == |books| && forall j: nat :: j < |es| ==> EntryFits(h, books, j, es[j])
  }

  ghost function EntryValue(h: Tables, e: Entry): seq<Value>
    requires h.Valid()
  {
    match e
    case Nothing => []
    case Plain(v) => [Number(v)]
    case Scaled(path) => if Branch(h.sf, path) then [Number(Follow(h.sf, 0, path))] else []
  }

  ghost function EntryValues(h: Tables, es: seq<Entry>): seq<Value>
    requires h.Valid()
  {
    if |es| == 0 then [] else EntryValue(h, es[0]) + EntryValues(h, es[1..])
  }

  lemma PlainRead(h: Tables, v: nat)
    requires h.Valid() && v < 512
    ensures Reads(h, [Fixed(9)], [Number(v)], Digits(v, 9))
  {
    forall t, q: nat | Stands(t, q, Digits(v, 9)) ensures One(h, Fixed(9), t, q) == Read(Number(v), 9) {
      OpenItem(SEALS, h, Fixed(9), t, q);
      assert Pow2(9) == 512;
      NumStands(t, q, v, 9);
    }
    ReadsOne(h, Fixed(9), Number(v), Digits(v, 9));
  }

  lemma ScaledRead(h: Tables, path: seq<bool>)
    requires h.Valid() && Branch(h.sf, path)
    ensures Reads(h, [Scale], [Number(Follow(h.sf, 0, path))], path)
  {
    forall t, q: nat | Stands(t, q, path) ensures One(h, Scale, t, q) == Read(Number(Follow(h.sf, 0, path)), |path|) {
      OpenItem(SEALS, h, Scale, t, q);
      WalkFollows(h.sf, 0, 0, path, t, q);
    }
    ReadsOne(h, Scale, Number(Follow(h.sf, 0, path)), path);
  }

  lemma {:induction false} ScalesRead(h: Tables, books: seq<nat>, es: seq<Entry>, j: nat)
    requires Scaling(h, books, es) && j <= |es|
    ensures Reads(h, ScaleItems(books[j..], NoiseBefore(books, j)), EntryValues(h, es[j..]), EntriesBits(es[j..]))
    decreases |es| - j
  {
    if j < |es| {
      ScalesRead(h, books, es, j + 1);
      assert EntryFits(h, books, j, es[j]);
      assert books[j..][0] == books[j] && books[j..][1..] == books[j + 1..];
      assert es[j..][0] == es[j] && es[j..][1..] == es[j + 1..];
      var noisy := NoiseBefore(books, j);
      var later := NoiseBefore(books, j + 1);
      assert later == (noisy || books[j] == 13);
      var items, values, bits := ScaleItems(books[j + 1..], later), EntryValues(h, es[j + 1..]), EntriesBits(es[j + 1..]);
      match es[j]
      case Nothing =>
        assert [] + values == values && [] + bits == bits;
      case Plain(v) =>
        PlainRead(h, v);
        ReadsAppend(h, [Fixed(9)], [Number(v)], Digits(v, 9), items, values, bits);
      case Scaled(path) =>
        ScaledRead(h, path);
        ReadsAppend(h, [Scale], [Number(Follow(h.sf, 0, path))], path, items, values, bits);
    }
  }

  // ---------- bands ----------

  function BandCount(short: bool): nat { if short then 15 else 47 }

  // How many coefficients of a window band k has.
  function WidthOf(short: bool, k: nat): nat
    requires k < BandCount(short)
  {
    if short then
      if k < 7 then 4 else if k < 10 then 8 else if k < 12 then 12 else if k < 14 then 16 else 20
    else if k < 11 then 4
    else if k < 21 then 8
    else if k < 25 then 12
    else if k < 28 then 16
    else if k < 30 then 20
    else if k < 32 then 24
    else if k < 34 then 28
    else if k < 35 then 32
    else if k < 37 then 36
    else if k < 38 then 40
    else if k < 39 then 44
    else if k < 40 then 48
    else if k < 42 then 52
    else 64
  }

  // Coefficients of a window from band j up to band k.
  function Span(short: bool, j: nat, k: nat): (n: nat)
    requires j <= k <= BandCount(short)
    ensures n % 4 == 0
    decreases k
  {
    if j == k then 0 else Span(short, j, k - 1) + WidthOf(short, k - 1)
  }

  lemma {:induction false} SpanSplit(short: bool, j: nat, k: nat)
    requires j <= k <= BandCount(short)
    ensures Span(short, 0, k) == Span(short, 0, j) + Span(short, j, k)
    decreases k
  {
    if j < k { SpanSplit(short, j, k - 1); }
  }

  lemma {:induction false} BandTables(short: bool, k: nat)
    requires k <= BandCount(short)
    ensures Span(short, 0, k) == if short then SWB_SHORT[k] else SWB_LONG[k]
    decreases k
  {
    if k > 0 {
      BandTables(short, k - 1);
      if short { ShortWidth(k - 1); } else { LongWidth(k - 1); }
    }
  }

  lemma LongWidth(k: nat)
    requires k < 47
    ensures SWB_LONG[k + 1] == SWB_LONG[k] + WidthOf(false, k)
  {
    if k < 10 { LowWidth(k); } else if k < 25 { MiddleWidth(k); } else { HighWidth(k); }
  }

  lemma LowWidth(k: nat)
    requires k < 10
    ensures SWB_LONG[k + 1] == SWB_LONG[k] + WidthOf(false, k)
  {
  }

  lemma MiddleWidth(k: nat)
    requires 10 <= k < 25
    ensures SWB_LONG[k + 1] == SWB_LONG[k] + WidthOf(false, k)
  {
  }

  lemma HighWidth(k: nat)
    requires 25 <= k < 47
    ensures SWB_LONG[k + 1] == SWB_LONG[k] + WidthOf(false, k)
  {
  }

  lemma ShortWidth(k: nat)
    requires k < 15
    ensures SWB_SHORT[k + 1] == SWB_SHORT[k] + WidthOf(true, k)
  {
  }

  // A band offset is the length of the group times the widths below.
  lemma OffsetIsSum(w: Window, len: nat, k: nat)
    requires k <= BandCount(w.Short()) && (w.Short() || len == 1)
    ensures BandOffset(w, len, k) == len * Span(w.Short(), 0, k)
  {
    if w.Short() {
      BandTables(true, k);
      assert BandOffset(w, len, k) == len * SWB_SHORT[k] == len * Span(true, 0, k);
    } else {
      BandTables(false, k);
      assert BandOffset(w, len, k) == SWB_LONG[k] == 1 * Span(false, 0, k);
    }
  }

  // ---------- sections ----------

  // A section: its book, how many bands it has, and its codewords.
  datatype Run = Run(cb: nat, bands: nat, words: seq<Spelling>)

  function Bands(runs: seq<Run>): nat { if |runs| == 0 then 0 else runs[0].bands + Bands(runs[1..]) }

  // A count in steps of three or five bits; all ones for seven or thirty-one, and more to come.
  function StepBits(short: bool, n: nat): seq<bool> {
    if short then
      if n < 7 then Digits(n, 3) else [true, true, true] + StepBits(short, n - 7)
    else
      if n < 31 then Digits(n, 5) else [true, true, true, true, true] + StepBits(short, n - 31)
  }

  lemma OnesRead(t: seq<bool>, q: nat)
    ensures Stands(t, q, [true, true, true]) ==> Num(t, q, 3) == 7
    ensures Stands(t, q, [true, true, true, true, true]) ==> Num(t, q, 5) == 31
  {
    SmallDigits();
    assert Pow2(3) == 8 && Pow2(5) == 32;
    if Stands(t, q, [true, true, true]) { NumStands(t, q, 7, 3); }
    if Stands(t, q, [true, true, true, true, true]) { NumStands(t, q, 31, 5); }
  }

  lemma {:induction false} StepsRead(short: bool, len: nat, n: nat, t: seq<bool>, q: nat)
    requires len + n <= (if short then 120 else 51) && Stands(t, q, StepBits(short, n))
    ensures Hdc.Length(short, len, t, q) == Read(len + n, |StepBits(short, n)|)
    decreases n
  {
    var esc, ones := if short then 7 else 31, if short then [true, true, true] else [true, true, true, true, true];
    if n < esc {
      assert Pow2(3) == 8 && Pow2(5) == 32;
      NumStands(t, q, n, |ones|);
    } else {
      StandsSplit(t, q, ones, StepBits(short, n - esc));
      OnesRead(t, q);
      StepsRead(short, len + esc, n - esc, t, q + |ones|);
    }
  }

  // Book and number of bands.
  function RunBits(short: bool, r: Run): seq<bool> { Digits(r.cb, 4) + StepBits(short, r.bands) }

  lemma RunRead(short: bool, maxSfb: nat, k: nat, r: Run, t: seq<bool>, q: nat)
    requires r.cb < 16 && r.cb != 12 && k + r.bands <= maxSfb <= (if short then 15 else 47)
    requires Stands(t, q, RunBits(short, r))
    ensures Hdc.OneSection(short, maxSfb, k, t, q) == Read(Section(r.cb, k, k + r.bands), |RunBits(short, r)|)
  {
    Hdc.OpenSection(SEALS, short, maxSfb, k, t, q);
    StandsSplit(t, q, Digits(r.cb, 4), StepBits(short, r.bands));
    assert Pow2(4) == 16;
    NumStands(t, q, r.cb, 4);
    StepsRead(short, 0, r.bands, t, q + 4);
  }

  function RunsBits(short: bool, runs: seq<Run>): seq<bool> {
    if |runs| == 0 then [] else RunBits(short, runs[0]) + RunsBits(short, runs[1..])
  }

  // The sections in turn, the first from band k on.
  function SectionsOf(runs: seq<Run>, k: nat): seq<Section> {
    if |runs| == 0 then []
    else [Section(runs[0].cb, k, k + runs[0].bands)] + SectionsOf(runs[1..], k + runs[0].bands)
  }

  // From band k up to maxSfb, the last section not empty, and at most n of them.
  predicate Cover(maxSfb: nat, k: nat, runs: seq<Run>, n: nat) {
    && k + Bands(runs) == maxSfb && |runs| <= n
    && (|runs| > 0 ==> runs[|runs| - 1].bands > 0)
    && forall i :: 0 <= i < |runs| ==> runs[i].cb < 16 && runs[i].cb != 12
  }

  lemma {:induction false} SomeBands(runs: seq<Run>)
    requires |runs| > 0 && runs[|runs| - 1].bands > 0
    ensures Bands(runs) > 0
    decreases |runs|
  {
    if |runs| > 1 { SomeBands(runs[1..]); }
  }

  function MostRuns(short: bool): nat { if short then 60 else 51 }

  lemma {:induction false} RunsRead(short: bool, maxSfb: nat, k: nat, i: nat, runs: seq<Run>, t: seq<bool>, q: nat)
    requires i <= MostRuns(short) && Cover(maxSfb, k, runs, MostRuns(short) - i) && maxSfb <= (if short then 15 else 47)
    requires Stands(t, q, RunsBits(short, runs))
    ensures Hdc.Sections(short, maxSfb, k, i, t, q) == Read(SectionsOf(runs, k), |RunsBits(short, runs)|)
    decreases |runs|
  {
    if |runs| > 0 {
      var r, rest := runs[0], runs[1..];
      StandsSplit(t, q, RunBits(short, r), RunsBits(short, rest));
      RestCovers(maxSfb, k, runs, MostRuns(short) - i);
      RunRead(short, maxSfb, k, r, t, q);
      RunsRead(short, maxSfb, k + r.bands, i + 1, rest, t, q + |RunBits(short, r)|);
      SectionsFold(short, maxSfb, k, i, runs, |RunBits(short, r)|, |RunsBits(short, rest)|, t, q);
    }
  }

  lemma SectionsFold(short: bool, maxSfb: nat, k: nat, i: nat, runs: seq<Run>, n: nat, m: nat, t: seq<bool>, q: nat)
    requires |runs| > 0 && k < maxSfb && k + runs[0].bands <= maxSfb && i < MostRuns(short)
    requires Hdc.OneSection(short, maxSfb, k, t, q) == Read(Section(runs[0].cb, k, k + runs[0].bands), n)
    requires Hdc.Sections(short, maxSfb, k + runs[0].bands, i + 1, t, q + n) == Read(SectionsOf(runs[1..], k + runs[0].bands), m)
    ensures Hdc.Sections(short, maxSfb, k, i, t, q) == Read(SectionsOf(runs, k), n + m)
  {
  }

  lemma RestCovers(maxSfb: nat, k: nat, runs: seq<Run>, n: nat)
    requires Cover(maxSfb, k, runs, n) && |runs| > 0
    ensures n > 0 && Cover(maxSfb, k + runs[0].bands, runs[1..], n - 1) && k < maxSfb && k + runs[0].bands <= maxSfb
  {
    SomeBands(runs);
  }

  function GroupsBits(short: bool, groups: seq<seq<Run>>): seq<bool> {
    if |groups| == 0 then [] else RunsBits(short, groups[0]) + GroupsBits(short, groups[1..])
  }

  function AllSections(groups: seq<seq<Run>>): seq<seq<Section>> {
    if |groups| == 0 then [] else [SectionsOf(groups[0], 0)] + AllSections(groups[1..])
  }

  predicate AllCover(short: bool, maxSfb: nat, groups: seq<seq<Run>>) {
    forall g :: 0 <= g < |groups| ==> Cover(maxSfb, 0, groups[g], MostRuns(short))
  }

  lemma {:induction false} GroupsRead(short: bool, maxSfb: nat, groups: seq<seq<Run>>, t: seq<bool>, q: nat)
    requires maxSfb <= (if short then 15 else 47) && AllCover(short, maxSfb, groups)
    requires Stands(t, q, GroupsBits(short, groups))
    ensures Hdc.SectionData(short, maxSfb, |groups|, t, q) == Read(AllSections(groups), |GroupsBits(short, groups)|)
    decreases |groups|
  {
    if |groups| > 0 {
      var bits, rest := RunsBits(short, groups[0]), groups[1..];
      StandsSplit(t, q, bits, GroupsBits(short, rest));
      OneGroupRead(short, maxSfb, groups[0], t, q);
      assert AllCover(short, maxSfb, rest);
      GroupsRead(short, maxSfb, rest, t, q + |bits|);
      GroupsFold(short, maxSfb, groups, |bits|, |GroupsBits(short, rest)|, t, q);
    }
  }

  lemma OneGroupRead(short: bool, maxSfb: nat, runs: seq<Run>, t: seq<bool>, q: nat)
    requires maxSfb <= (if short then 15 else 47) && Cover(maxSfb, 0, runs, MostRuns(short)) && Stands(t, q, RunsBits(short, runs))
    ensures Hdc.GroupSections(short, maxSfb, t, q) == Read(SectionsOf(runs, 0), |RunsBits(short, runs)|)
  {
    Hdc.OpenGroup(SEALS, short, maxSfb, t, q);
    RunsRead(short, maxSfb, 0, 0, runs, t, q);
  }

  lemma GroupsFold(short: bool, maxSfb: nat, groups: seq<seq<Run>>, n: nat, m: nat, t: seq<bool>, q: nat)
    requires |groups| > 0 && Hdc.GroupSections(short, maxSfb, t, q) == Read(SectionsOf(groups[0], 0), n)
    requires Hdc.SectionData(short, maxSfb, |groups[1..]|, t, q + n) == Read(AllSections(groups[1..]), m)
    ensures Hdc.SectionData(short, maxSfb, |groups|, t, q) == Read(AllSections(groups), n + m)
  {
    assert |groups| - 1 == |groups[1..]|;
  }

  // ---------- nothing else is accepted ----------

  lemma {:induction false} StepsOnly(short: bool, len: nat, s: seq<bool>, p: nat)
    requires len <= Hdc.SectLim(short) && Hdc.Length(short, len, s, p).Read?
    ensures var r := Hdc.Length(short, len, s, p); r.value >= len && Cut(s, p, r.n) == StepBits(short, r.value - len)
    decreases Hdc.SectLim(short) - len
  {
    var b, esc := if short then 3 else 5, if short then 7 else 31;
    var incr := Num(s, p, b);
    DigitsOfNum(s, p, b);
    if incr == esc {
      var later := Hdc.Length(short, len + esc, s, p + b);
      assert Hdc.Length(short, len, s, p) == Read(later.value, b + later.n);
      StepsOnly(short, len + esc, s, p + b);
      CutSplit(s, p, b, later.n);
      AnotherStep(short, later.value - len - esc);
    } else {
      assert Pow2(3) == 8 && Pow2(5) == 32;
      assert Hdc.Length(short, len, s, p) == Read(len + incr, b);
    }
  }

  lemma AnotherStep(short: bool, n: nat)
    ensures StepBits(short, n + if short then 7 else 31) == (if short then Digits(7, 3) else Digits(31, 5)) + StepBits(short, n)
  {
    SmallDigits();
  }

  function RunsOf(secs: seq<Section>): seq<Run> {
    if |secs| == 0 then []
    else [Run(secs[0].cb, if secs[0].end < secs[0].start then 0 else secs[0].end - secs[0].start, [])] + RunsOf(secs[1..])
  }

  lemma SectionOnly(short: bool, maxSfb: nat, k: nat, s: seq<bool>, p: nat)
    requires Hdc.OneSection(short, maxSfb, k, s, p).Read?
    ensures var r := Hdc.OneSection(short, maxSfb, k, s, p);
      && r.value.cb < 16 && r.value.cb != 12
      && Cut(s, p, r.n) == RunBits(short, Run(r.value.cb, r.value.end - k, []))
  {
    Hdc.OpenSection(SEALS, short, maxSfb, k, s, p);
    assert Pow2(4) == 16;
    StepsOnly(short, 0, s, p + 4);
    DigitsOfNum(s, p, 4);
    CutSplit(s, p, 4, Hdc.Length(short, 0, s, p + 4).n);
  }

  // The sections from band k on are those of runs, and bits are theirs.
  predicate LaidOut(short: bool, maxSfb: nat, k: nat, n: nat, secs: seq<Section>, bits: seq<bool>) {
    var runs := RunsOf(secs);
    Cover(maxSfb, k, runs, n) && SectionsOf(runs, k) == secs && bits == RunsBits(short, runs)
  }

  /** Section data that is accepted covers all bands without gaps, in at most 60
      sections, or 51 of a long window, none of book 12 and the last not empty; and
      it stands in the bits as a sender lays it out. */
  lemma {:induction false} SectionsOnly(short: bool, maxSfb: nat, k: nat, i: nat, s: seq<bool>, p: nat)
    requires k <= maxSfb && i <= MostRuns(short) && Hdc.Sections(short, maxSfb, k, i, s, p).Read?
    ensures var r := Hdc.Sections(short, maxSfb, k, i, s, p); LaidOut(short, maxSfb, k, MostRuns(short) - i, r.value, Cut(s, p, r.n))
    decreases MostRuns(short) - i
  {
    if k < maxSfb {
      var one := Hdc.OneSection(short, maxSfb, k, s, p);
      SectionsParts(short, maxSfb, k, i, s, p);
      SectionsOnly(short, maxSfb, one.value.end, i + 1, s, p + one.n);
      StepOnly(short, maxSfb, k, i, s, p);
    }
  }

  lemma StepOnly(short: bool, maxSfb: nat, k: nat, i: nat, s: seq<bool>, p: nat)
    requires k < maxSfb && i < MostRuns(short) && Hdc.Sections(short, maxSfb, k, i, s, p).Read?
    requires Hdc.OneSection(short, maxSfb, k, s, p).Read?
    requires var one := Hdc.OneSection(short, maxSfb, k, s, p);
      var later := Hdc.Sections(short, maxSfb, one.value.end, i + 1, s, p + one.n);
      later.Read? && LaidOut(short, maxSfb, one.value.end, MostRuns(short) - i - 1, later.value, Cut(s, p + one.n, later.n))
    ensures var r := Hdc.Sections(short, maxSfb, k, i, s, p); LaidOut(short, maxSfb, k, MostRuns(short) - i, r.value, Cut(s, p, r.n))
  {
    var one := Hdc.OneSection(short, maxSfb, k, s, p);
    var later := Hdc.Sections(short, maxSfb, one.value.end, i + 1, s, p + one.n);
    SectionsParts(short, maxSfb, k, i, s, p);
    SectionOnly(short, maxSfb, k, s, p);
    CutSplit(s, p, one.n, later.n);
    OnlyFold(short, maxSfb, k, one.value, later.value, MostRuns(short) - i, Cut(s, p, one.n), Cut(s, p + one.n, later.n));
  }

  lemma SectionsParts(short: bool, maxSfb: nat, k: nat, i: nat, s: seq<bool>, p: nat)
    requires k < maxSfb && i <= MostRuns(short) && Hdc.Sections(short, maxSfb, k, i, s, p).Read?
    ensures i < MostRuns(short)
    ensures var one := Hdc.OneSection(short, maxSfb, k, s, p);
      one.Read? && Hdc.Sections(short, maxSfb, one.value.end, i + 1, s, p + one.n).Read?
    ensures var one := Hdc.OneSection(short, maxSfb, k, s, p);
      var later := Hdc.Sections(short, maxSfb, one.value.end, i + 1, s, p + one.n);
      Hdc.Sections(short, maxSfb, k, i, s, p) == Read([one.value] + later.value, one.n + later.n)
  {
  }

  lemma OnlyFold(short: bool, maxSfb: nat, k: nat, sec: Section, rest: seq<Section>, n: nat, a: seq<bool>, b: seq<bool>)
    requires sec.start == k <= sec.end && sec.cb < 16 && sec.cb != 12 && k < maxSfb && n > 0
    requires a == RunBits(short, Run(sec.cb, sec.end - k, [])) && LaidOut(short, maxSfb, sec.end, n - 1, rest, b)
    ensures LaidOut(short, maxSfb, k, n, [sec] + rest, a + b)
  {
    assert ([sec] + rest)[1..] == rest;
    var first := Run(sec.cb, sec.end - k, []);
    assert RunsOf([sec] + rest) == [first] + RunsOf(rest);
    assert ([first] + RunsOf(rest))[1..] == RunsOf(rest);
  }

  // ---------- the books of the bands ----------

  // The book of every band in turn.
  function BooksOf(runs: seq<Run>): seq<nat> {
    if |runs| == 0 then [] else Repeat(runs[0].cb, runs[0].bands) + BooksOf(runs[1..])
  }

  function AllBooksOf(groups: seq<seq<Run>>): seq<nat> {
    if |groups| == 0 then [] else BooksOf(groups[0]) + AllBooksOf(groups[1..])
  }

  lemma {:induction false} BooksAgree(runs: seq<Run>, k: nat)
    ensures Books(SectionsOf(runs, k)) == BooksOf(runs)
    decreases |runs|
  {
    if |runs| > 0 {
      BooksAgree(runs[1..], k + runs[0].bands);
      assert SectionsOf(runs, k)[1..] == SectionsOf(runs[1..], k + runs[0].bands);
    }
  }

  lemma {:induction false} AllBooksAgree(groups: seq<seq<Run>>)
    ensures AllBooks(AllSections(groups)) == AllBooksOf(groups)
    decreases |groups|
  {
    if |groups| > 0 {
      BooksAgree(groups[0], 0);
      AllBooksAgree(groups[1..]);
      assert AllSections(groups)[1..] == AllSections(groups[1..]);
    }
  }

  // ---------- spectrum ----------

  // The coefficients one codeword of a book carries.
  function Dimension(cb: nat): nat { if cb <= 4 then 4 else 2 }

  lemma {:induction false} CodewordsAre(cb: nat, k: nat, end: nat, n: nat)
    requires 1 <= cb <= 11 && k + n * Dimension(cb) == end
    ensures Codewords(cb, k, end) == Repeat(Spectral(cb), n)
    decreases n
  {
    if n > 0 {
      assert n * Dimension(cb) == (n - 1) * Dimension(cb) + Dimension(cb);
      CodewordsAre(cb, k + Dimension(cb), end, n - 1);
    }
  }

  /** The codewords of books 1 to 4 carry four coefficients each, those of books 5
      to 11 two, and together all from k up to end. */
  lemma CodewordsTile(cb: nat, k: nat, end: nat)
    requires 1 <= cb <= 11 && k <= end && (end - k) % 4 == 0
    ensures |Codewords(cb, k, end)| * (if cb <= 4 then 4 else 2) == end - k
    ensures forall i :: 0 <= i < |Codewords(cb, k, end)| ==> Codewords(cb, k, end)[i] == Spectral(cb)
  {
    var n := (end - k) / Dimension(cb);
    CodewordsAre(cb, k, end, n);
    RepeatAll(Spectral(cb), n);
  }

  lemma {:induction false} RepeatAll<T>(x: T, n: nat)
    ensures forall i :: 0 <= i < n ==> Repeat(x, n)[i] == x
    decreases n
  {
    if n > 0 { RepeatAll(x, n - 1); }
  }

  /** A section of a book from 1 to 11 carries exactly the coefficients from its
      first band to its last, of every window of the group; one of any other book
      carries none. */
  lemma SectionCarries(w: Window, len: nat, sec: Section)
    requires w.Short() || len == 1
    requires sec.start <= sec.end <= BandCount(w.Short()) && sec.cb < 16 && sec.cb != 12
    ensures var n := |SectionItems(w, len, sec)|;
      if 1 <= sec.cb <= 11
      then n * (if sec.cb <= 4 then 4 else 2) == len * Span(w.Short(), sec.start, sec.end)
      else n == 0
  {
    if 1 <= sec.cb <= 11 {
      SectionSpan(w, len, sec.start, sec.end);
      CodewordsTile(sec.cb, BandOffset(w, len, sec.start), BandOffset(w, len, sec.end));
    }
  }

  lemma SectionSpan(w: Window, len: nat, j: nat, k: nat)
    requires j <= k <= BandCount(w.Short()) && (w.Short() || len == 1)
    ensures BandOffset(w, len, k) - BandOffset(w, len, j) == len * Span(w.Short(), j, k)
    ensures len * Span(w.Short(), j, k) >= 0 && len * Span(w.Short(), j, k) % 4 == 0
  {
    var a, n := Span(w.Short(), 0, j), Span(w.Short(), j, k);
    OffsetIsSum(w, len, j);
    assert BandOffset(w, len, k) == len * (a + n) by {
      OffsetIsSum(w, len, k);
      SpanSplit(w.Short(), j, k);
    }
    Stretch(len, a, n);
  }

  lemma Stretch(len: nat, a: nat, n: nat)
    requires n % 4 == 0
    ensures len * (a + n) - len * a == len * n
    ensures len * n >= 0 && len * n % 4 == 0
  {
    assert len * n == 4 * (len * (n / 4));
  }

  // The codewords of a section that starts at band k fill its bands in len windows.
  ghost predicate Filled(h: Tables, short: bool, len: nat, k: nat, r: Run) {
    && k + r.bands <= BandCount(short)
    && if 1 <= r.cb <= 11 then
         && |r.words| * Dimension(r.cb) == len * Span(short, k, k + r.bands)
         && forall i :: 0 <= i < |r.words| ==> Spells(h, r.cb, r.words[i])
       else r.words == []
  }

  ghost predicate AllFilled(h: Tables, short: bool, len: nat, k: nat, runs: seq<Run>)
    decreases |runs|
  {
    |runs| > 0 ==> Filled(h, short, len, k, runs[0]) && AllFilled(h, short, len, k + runs[0].bands, runs[1..])
  }

  function WordsBits(xs: seq<Spelling>): seq<bool> {
    if |xs| == 0 then [] else WordBits(xs[0]) + WordsBits(xs[1..])
  }

  ghost function WordValues(h: Tables, cb: nat, xs: seq<Spelling>): seq<Value> {
    if |xs| == 0 then [] else [Coded(WordOf(h, cb, xs[0]))] + WordValues(h, cb, xs[1..])
  }

  lemma {:induction false} WordsRead(h: Tables, cb: nat, xs: seq<Spelling>)
    requires h.Valid() && forall i :: 0 <= i < |xs| ==> Spells(h, cb, xs[i])
    ensures Reads(h, Repeat(Spectral(cb), |xs|), WordValues(h, cb, xs), WordsBits(xs))
    decreases |xs|
  {
    if |xs| > 0 {
      forall t, q: nat | Stands(t, q, WordBits(xs[0]))
        ensures One(h, Spectral(cb), t, q) == Read(Coded(WordOf(h, cb, xs[0])), |WordBits(xs[0])|)
      {
        WordRead(h, cb, xs[0], t, q);
      }
      ReadsOne(h, Spectral(cb), Coded(WordOf(h, cb, xs[0])), WordBits(xs[0]));
      WordsRead(h, cb, xs[1..]);
      ReadsAppend(h, [Spectral(cb)], [Coded(WordOf(h, cb, xs[0]))], WordBits(xs[0]),
                  Repeat(Spectral(cb), |xs| - 1), WordValues(h, cb, xs[1..]), WordsBits(xs[1..]));
    }
  }

  lemma SectionRead(h: Tables, w: Window, len: nat, k: nat, r: Run)
    requires h.Valid() && (w.Short() || len == 1) && r.cb < 16 && r.cb != 12 && Filled(h, w.Short(), len, k, r)
    ensures Reads(h, SectionItems(w, len, Section(r.cb, k, k + r.bands)), WordValues(h, r.cb, r.words), WordsBits(r.words))
  {
    if 1 <= r.cb <= 11 {
      SectionSpan(w, len, k, k + r.bands);
      CodewordsAre(r.cb, BandOffset(w, len, k), BandOffset(w, len, k + r.bands), |r.words|);
      WordsRead(h, r.cb, r.words);
    }
  }

  function RunsWords(runs: seq<Run>): seq<bool> {
    if |runs| == 0 then [] else WordsBits(runs[0].words) + RunsWords(runs[1..])
  }

  ghost function RunsValues(h: Tables, runs: seq<Run>): seq<Value> {
    if |runs| == 0 then [] else WordValues(h, runs[0].cb, runs[0].words) + RunsValues(h, runs[1..])
  }

  lemma {:induction false} GroupRead(h: Tables, w: Window, len: nat, k: nat, runs: seq<Run>)
    requires h.Valid() && (w.Short() || len == 1) && AllFilled(h, w.Short(), len, k, runs)
    requires forall i :: 0 <= i < |runs| ==> runs[i].cb < 16 && runs[i].cb != 12
    ensures Reads(h, GroupItems(w, len, SectionsOf(runs, k)), RunsValues(h, runs), RunsWords(runs))
    decreases |runs|
  {
    if |runs| > 0 {
      var r := runs[0];
      SectionRead(h, w, len, k, r);
      GroupRead(h, w, len, k + r.bands, runs[1..]);
      ReadsAppend(h, SectionItems(w, len, Section(r.cb, k, k + r.bands)), WordValues(h, r.cb, r.words), WordsBits(r.words),
                  GroupItems(w, len, SectionsOf(runs[1..], k + r.bands)), RunsValues(h, runs[1..]), RunsWords(runs[1..]));
      assert SectionsOf(runs, k)[1..] == SectionsOf(runs[1..], k + r.bands);
    }
  }

  function GroupsWords(groups: seq<seq<Run>>): seq<bool> {
    if |groups| == 0 then [] else RunsWords(groups[0]) + GroupsWords(groups[1..])
  }

  ghost function GroupsValues(h: Tables, groups: seq<seq<Run>>): seq<Value> {
    if |groups| == 0 then [] else RunsValues(h, groups[0]) + GroupsValues(h, groups[1..])
  }

  // Every group of windows is filled.
  ghost predicate GroupsFilled(h: Tables, short: bool, lens: seq<nat>, groups: seq<seq<Run>>) {
    |lens| == |groups| && forall g :: 0 <= g < |groups| ==> AllFilled(h, short, lens[g], 0, groups[g])
  }

  lemma {:induction false} SpectrumRead(h: Tables, w: Window, lens: seq<nat>, groups: seq<seq<Run>>)
    requires h.Valid() && GroupsFilled(h, w.Short(), lens, groups) && AllCover(w.Short(), w.maxSfb, groups)
    requires w.Short() || forall g :: 0 <= g < |lens| ==> lens[g] == 1
    ensures Reads(h, SpectrumItems(w, lens, AllSections(groups)), GroupsValues(h, groups), GroupsWords(groups))
    decreases |groups|
  {
    if |groups| > 0 {
      GroupRead(h, w, lens[0], 0, groups[0]);
      SpectrumRead(h, w, lens[1..], groups[1..]);
      ReadsAppend(h, GroupItems(w, lens[0], SectionsOf(groups[0], 0)), RunsValues(h, groups[0]), RunsWords(groups[0]),
                  SpectrumItems(w, lens[1..], AllSections(groups[1..])), GroupsValues(h, groups[1..]), GroupsWords(groups[1..]));
      assert AllSections(groups)[1..] == AllSections(groups[1..]);
    }
  }
}
