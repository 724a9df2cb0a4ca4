/** How a sender lays out noise shaping data and window groups, in HDC and in AAC,
    with every width and count written out here, and what the readers and the
    remuxer make of it. */
module WindowSender {
  import opened Basics
  import opened Arith
  import opened Bits
  import opened Huffman
  import opened AacSyntax
  import opened AacSender
  import opened RawBlock
  import Hdc = HdcSyntax

  // ---------- noise shaping ----------

  datatype SentFilter = SentFilter(length: nat, direction: bool, compress: bool, coefs: seq<nat>)

  // Bits of a coefficient: coarse or fine resolution, with or without compression.
  function CoefBits(res: bool, compress: bool): nat {
    if res then (if compress then 3 else 4) else (if compress then 2 else 3)
  }

  predicate FilterFits(short: bool, res: bool, f: SentFilter) {
    && f.length < (if short then 16 else 64) && |f.coefs| < (if short then 8 else 32)
    && forall i :: 0 <= i < |f.coefs| ==> f.coefs[i] < Pow2(CoefBits(res, f.compress))
  }

  function CoefsBits(bits: nat, cs: seq<nat>): seq<bool> {
    if |cs| == 0 then [] else Digits(cs[0], bits) + CoefsBits(bits, cs[1..])
  }

  function CoefValues(cs: seq<nat>): seq<Value> {
    if |cs| == 0 then [] else [Number(cs[0])] + CoefValues(cs[1..])
  }

  lemma {:induction false} CoefsRead(h: Tables, bits: nat, cs: seq<nat>)
    requires h.Valid() && forall i :: 0 <= i < |cs| ==> cs[i] < Pow2(bits)
    ensures Reads(h, Repeat(Fixed(bits), |cs|), CoefValues(cs), CoefsBits(bits, cs))
    decreases |cs|
  {
    if |cs| > 0 {
      forall t, q: nat | Stands(t, q, Digits(cs[0], bits)) ensures One(h, Fixed(bits), t, q) == Read(Number(cs[0]), bits) {
        OpenItem(SEALS, h, Fixed(bits), t, q);
        NumStands(t, q, cs[0], bits);
      }
      ReadsOne(h, Fixed(bits), Number(cs[0]), Digits(cs[0], bits));
      CoefsRead(h, bits, cs[1..]);
      ReadsAppend(h, [Fixed(bits)], [Number(cs[0])], Digits(cs[0], bits),
                  Repeat(Fixed(bits), |cs| - 1), CoefValues(cs[1..]), CoefsBits(bits, cs[1..]));
    }
  }

  // Length and order, and for a filter of some order: direction, compression, coefficients.
  function FilterBits(short: bool, res: bool, f: SentFilter): seq<bool> {
    Digits(f.length, if short then 4 else 6) + Digits(|f.coefs|, if short then 3 else 5) + TailBits(res, f)
  }

  function TailBits(res: bool, f: SentFilter): seq<bool> {
    if |f.coefs| == 0 then [] else [f.direction] + [f.compress] + CoefsBits(CoefBits(res, f.compress), f.coefs)
  }

  function FilterOf(f: SentFilter): Filter {
    if |f.coefs| == 0 then Filter(f.length, 0, 0, 0, [])
    else Filter(f.length, |f.coefs|, if f.direction then 1 else 0, if f.compress then 1 else 0, CoefValues(f.coefs))
  }

  lemma FilterRead(h: Tables, short: bool, res: bool, f: SentFilter, t: seq<bool>, q: nat)
    requires h.Valid() && FilterFits(short, res, f) && Stands(t, q, FilterBits(short, res, f))
    ensures OneFilter(h, short, if res then 1 else 0, t, q) == Read(FilterOf(f), |FilterBits(short, res, f)|)
  {
    OpenFilter(SEALS, h, short, if res then 1 else 0, t, q);
    FilterHead(short, res, f, t, q);
    if |f.coefs| > 0 { OrderedRead(h, short, res, f, t, q); }
  }

  lemma OrderedRead(h: Tables, short: bool, res: bool, f: SentFilter, t: seq<bool>, q: nat)
    requires h.Valid() && FilterFits(short, res, f) && |f.coefs| > 0 && Stands(t, q, FilterBits(short, res, f))
    ensures FilterFields(h, short, if res then 1 else 0, t, q) == Read(FilterOf(f), |FilterBits(short, res, f)|)
  {
    FilterHead(short, res, f, t, q);
    var n := |CoefsBits(CoefBits(res, f.compress), f.coefs)|;
    if short {
      FilterTail(h, res, f, t, q + 7);
      FilterFold(h, true, if res then 1 else 0, f, n, t, q);
    } else {
      FilterTail(h, res, f, t, q + 11);
      FilterFold(h, false, if res then 1 else 0, f, n, t, q);
    }
  }

  lemma FilterFold(h: Tables, short: bool, res: nat, f: SentFilter, n: nat, t: seq<bool>, q: nat)
    requires h.Valid() && |f.coefs| > 0
    requires var a, b := if short then 4 else 6, if short then 3 else 5;
      && Num(t, q, a) == f.length && Num(t, q + a, b) == |f.coefs|
      && Num(t, q + a + b, 1) == (if f.direction then 1 else 0)
      && Num(t, q + a + b + 1, 1) == (if f.compress then 1 else 0)
      && Items(h, Repeat(Fixed(3 + res - if f.compress then 1 else 0), |f.coefs|), t, q + a + b + 2) == Read(CoefValues(f.coefs), n)
    ensures FilterFields(h, short, res, t, q) == Read(FilterOf(f), (if short then 9 else 13) + n)
  {
  }

  lemma FilterHead(short: bool, res: bool, f: SentFilter, t: seq<bool>, q: nat)
    requires FilterFits(short, res, f) && Stands(t, q, FilterBits(short, res, f))
    ensures short ==> Num(t, q, 4) == f.length && Num(t, q + 4, 3) == |f.coefs| && Stands(t, q + 7, TailBits(res, f))
    ensures !short ==> Num(t, q, 6) == f.length && Num(t, q + 6, 5) == |f.coefs| && Stands(t, q + 11, TailBits(res, f))
  {
    var a, b, order := if short then 4 else 6, if short then 3 else 5, |f.coefs|;
    StandsSplit(t, q, Digits(f.length, a) + Digits(order, b), TailBits(res, f));
    StandsSplit(t, q, Digits(f.length, a), Digits(order, b));
    assert Pow2(3) == 8 && Pow2(4) == 16 && Pow2(5) == 32 && Pow2(6) == 64;
    NumStands(t, q, f.length, a);
    NumStands(t, q + a, order, b);
  }

  lemma FilterTail(h: Tables, res: bool, f: SentFilter, t: seq<bool>, q: nat)
    requires h.Valid() && forall i :: 0 <= i < |f.coefs| ==> f.coefs[i] < Pow2(CoefBits(res, f.compress))
    requires |f.coefs| > 0 && Stands(t, q, TailBits(res, f))
    ensures Num(t, q, 1) == (if f.direction then 1 else 0) && Num(t, q + 1, 1) == if f.compress then 1 else 0
    ensures Items(h, Repeat(Fixed(3 + (if res then 1 else 0) - (if f.compress then 1 else 0)), |f.coefs|), t, q + 2)
      == Read(CoefValues(f.coefs), |CoefsBits(CoefBits(res, f.compress), f.coefs)|)
  {
    var bits := CoefBits(res, f.compress);
    StandsSplit(t, q, [f.direction] + [f.compress], CoefsBits(bits, f.coefs));
    StandsSplit(t, q, [f.direction], [f.compress]);
    BitHolds(t, q, f.direction);
    BitHolds(t, q + 1, f.compress);
    CoefsRead(h, bits, f.coefs);
  }

  function FiltersBits(short: bool, res: bool, fs: seq<SentFilter>): seq<bool> {
    if |fs| == 0 then [] else FilterBits(short, res, fs[0]) + FiltersBits(short, res, fs[1..])
  }

  function FiltersOf(fs: seq<SentFilter>): seq<Filter> {
    if |fs| == 0 then [] else [FilterOf(fs[0])] + FiltersOf(fs[1..])
  }

  lemma {:induction false} FiltersRead(h: Tables, short: bool, res: bool, fs: seq<SentFilter>, t: seq<bool>, q: nat)
    requires h.Valid() && Stands(t, q, FiltersBits(short, res, fs))
    requires forall i :: 0 <= i < |fs| ==> FilterFits(short, res, fs[i])
    ensures Filters(h, short, if res then 1 else 0, |fs|, t, q) == Read(FiltersOf(fs), |FiltersBits(short, res, fs)|)
    decreases |fs|
  {
    if |fs| > 0 {
      StandsSplit(t, q, FilterBits(short, res, fs[0]), FiltersBits(short, res, fs[1..]));
      FilterRead(h, short, res, fs[0], t, q);
      FiltersRead(h, short, res, fs[1..], t, q + |FilterBits(short, res, fs[0])|);
    }
  }

  // The filters of a window: one for long windows, one or none for short ones.
  datatype SentShaping = SentShaping(res: bool, filters: seq<SentFilter>)

  predicate ShapingFits(short: bool, x: SentShaping) {
    && (if short then |x.filters| <= 1 else |x.filters| == 1)
    && forall i :: 0 <= i < |x.filters| ==> FilterFits(short, x.res, x.filters[i])
  }

  // The resolution, if there is a filter, and the filters.
  function ShapingBits(short: bool, x: SentShaping): seq<bool> {
    if |x.filters| == 0 then [] else [x.res] + FiltersBits(short, x.res, x.filters)
  }

  function ShapingOf(x: SentShaping): Shaping {
    if |x.filters| == 0 then Shaping(0, []) else Shaping(if x.res then 1 else 0, FiltersOf(x.filters))
  }

  lemma ShapingRead(h: Tables, short: bool, x: SentShaping, t: seq<bool>, q: nat)
    requires h.Valid() && ShapingFits(short, x) && Stands(t, q, ShapingBits(short, x))
    ensures ShapingData(h, short, |x.filters|, t, q) == Read(ShapingOf(x), |ShapingBits(short, x)|)
  {
    if |x.filters| > 0 {
      StandsSplit(t, q, [x.res], FiltersBits(short, x.res, x.filters));
      BitHolds(t, q, x.res);
      FiltersRead(h, short, x.res, x.filters, t, q + 1);
    }
  }

  // HDC states the number of filters of a short window only.
  function HdcWindowBits(short: bool, x: SentShaping): seq<bool> {
    if short then [|x.filters| == 1] + ShapingBits(short, x) else ShapingBits(short, x)
  }

  // AAC states it always, in one bit or two.
  function AacWindowBits(short: bool, x: SentShaping): seq<bool> {
    if short then [|x.filters| == 1] + ShapingBits(short, x) else [false, true] + ShapingBits(short, x)
  }

  lemma WindowRead(h: Tables, short: bool, x: SentShaping, t: seq<bool>, q: nat)
    requires h.Valid() && ShapingFits(short, x) && Stands(t, q, HdcWindowBits(short, x))
    ensures Hdc.OneWindow(h, short, t, q) == Read(ShapingOf(x), |HdcWindowBits(short, x)|)
  {
    Hdc.OpenWindow(SEALS, h, short, t, q);
    StandsInside(t, q, HdcWindowBits(short, x));
    if short {
      StandsSplit(t, q, [|x.filters| == 1], ShapingBits(short, x));
      BitHolds(t, q, |x.filters| == 1);
      ShapingRead(h, short, x, t, q + 1);
    } else {
      ShapingRead(h, short, x, t, q);
    }
  }

  function HdcWindowsBits(short: bool, xs: seq<SentShaping>): seq<bool> {
    if |xs| == 0 then [] else HdcWindowBits(short, xs[0]) + HdcWindowsBits(short, xs[1..])
  }

  function AacWindowsBits(short: bool, xs: seq<SentShaping>): seq<bool> {
    if |xs| == 0 then [] else AacWindowBits(short, xs[0]) + AacWindowsBits(short, xs[1..])
  }

  function ShapingsOf(xs: seq<SentShaping>): seq<Shaping> {
    if |xs| == 0 then [] else [ShapingOf(xs[0])] + ShapingsOf(xs[1..])
  }

  predicate ShapingsFit(short: bool, xs: seq<SentShaping>) { forall i :: 0 <= i < |xs| ==> ShapingFits(short, xs[i]) }

  lemma {:induction false} WindowsRead(h: Tables, short: bool, xs: seq<SentShaping>, t: seq<bool>, q: nat)
    requires h.Valid() && Stands(t, q, HdcWindowsBits(short, xs)) && ShapingsFit(short, xs)
    ensures Hdc.TnsWindows(h, short, |xs|, t, q) == Read(ShapingsOf(xs), |HdcWindowsBits(short, xs)|)
    decreases |xs|
  {
    if |xs| > 0 {
      var n, rest := |HdcWindowBits(short, xs[0])|, xs[1..];
      StandsSplit(t, q, HdcWindowBits(short, xs[0]), HdcWindowsBits(short, rest));
      WindowRead(h, short, xs[0], t, q);
      assert ShapingsFit(short, rest);
      WindowsRead(h, short, rest, t, q + n);
      WindowsFold(h, short, xs, n, |HdcWindowsBits(short, rest)|, t, q);
    }
  }

  lemma WindowsFold(h: Tables, short: bool, xs: seq<SentShaping>, n: nat, m: nat, t: seq<bool>, q: nat)
    requires h.Valid() && |xs| > 0 && Hdc.OneWindow(h, short, t, q) == Read(ShapingOf(xs[0]), n)
    requires Hdc.TnsWindows(h, short, |xs[1..]|, t, q + n) == Read(ShapingsOf(xs[1..]), m)
    ensures Hdc.TnsWindows(h, short, |xs|, t, q) == Read(ShapingsOf(xs), n + m)
  {
    assert |xs| - 1 == |xs[1..]|;
  }

  // Absent, or for each of the eight short windows or the long one.
  datatype SentTns = Absent | Present(windows: seq<SentShaping>)

  predicate TnsFits(short: bool, x: SentTns) {
    x.Present? ==> |x.windows| == (if short then 8 else 1) && ShapingsFit(short, x.windows)
  }

  function HdcTnsBits(short: bool, x: SentTns): seq<bool> {
    if x.Absent? then [false] else [true] + HdcWindowsBits(short, x.windows)
  }

  // No pulse data; noise shaping; no gain control.
  function AacToolBits(short: bool, x: SentTns): seq<bool> {
    [false] + AacTnsBits(short, x) + [false]
  }

  function AacTnsBits(short: bool, x: SentTns): seq<bool> {
    if x.Absent? then [false] else [true] + AacWindowsBits(short, x.windows)
  }

  function TnsOf(x: SentTns): Tns { if x.Absent? then NoTns else Tns(ShapingsOf(x.windows)) }

  // What was found is what was sent, and the place recorded is where it stands.
  ghost predicate TnsStands(short: bool, s: seq<bool>, x: SentTns, tns: Hdc.PlacedTns) {
    && tns.tns == TnsOf(x)
    && (x.Present? ==> tns.len == |HdcWindowsBits(short, x.windows)| && Stands(s, tns.at, HdcWindowsBits(short, x.windows)))
  }

  lemma TnsRead(h: Tables, w: Window, x: SentTns, t: seq<bool>, q: nat)
    requires h.Valid() && TnsFits(w.Short(), x) && Stands(t, q, HdcTnsBits(w.Short(), x))
    ensures var r := Hdc.TnsData(h, w, t, q); r.Read? && r.n == |HdcTnsBits(w.Short(), x)| && TnsStands(w.Short(), t, x, r.value)
  {
    if x.Absent? {
      BitHolds(t, q, false);
    } else {
      StandsSplit(t, q, [true], HdcWindowsBits(w.Short(), x.windows));
      BitHolds(t, q, true);
      WindowsRead(h, w.Short(), x.windows, t, q + 1);
    }
  }

  lemma {:induction false} ShortWindowsSame(xs: seq<SentShaping>)
    ensures AacWindowsBits(true, xs) == HdcWindowsBits(true, xs)
    decreases |xs|
  {
    if |xs| > 0 { ShortWindowsSame(xs[1..]); }
  }

  // What the remuxer writes for the noise shaping it found.
  lemma ToolsWritten(w: Window, s: seq<bool>, x: SentTns, tns: Hdc.PlacedTns)
    requires TnsFits(w.Short(), x) && TnsStands(w.Short(), s, x, tns)
    ensures ToolBits(w, s, tns) == AacToolBits(w.Short(), x)
  {
    SmallDigits();
    TnsWritten(w, s, x, tns);
  }

  lemma TnsWritten(w: Window, s: seq<bool>, x: SentTns, tns: Hdc.PlacedTns)
    requires TnsFits(w.Short(), x) && TnsStands(w.Short(), s, x, tns)
    ensures TnsBits(w, s, tns) == AacTnsBits(w.Short(), x)
  {
    SmallDigits();
    if x.Present? {
      var copied := HdcWindowsBits(w.Short(), x.windows);
      CutIs(s, tns.at, copied);
      if w.Short() {
        ShortWindowsSame(x.windows);
        assert CountBits(w) + copied == copied;
      } else {
        LongWindowWritten(x.windows);
        assert CountBits(w) + copied == [false, true] + copied;
      }
    }
  }

  lemma LongWindowWritten(xs: seq<SentShaping>)
    requires |xs| == 1
    ensures AacWindowsBits(false, xs) == [false, true] + HdcWindowsBits(false, xs)
  {
    assert xs[1..] == [];
    assert HdcWindowsBits(false, xs) == ShapingBits(false, xs[0]) + [];
    assert AacWindowsBits(false, xs) == [false, true] + ShapingBits(false, xs[0]) + [];
  }

  // ---------- window groups ----------

  // A zero before every group but the first, a one for every further window of a group.
  function GroupingBits(lens: seq<nat>): seq<bool>
    requires |lens| > 0 && forall i :: 0 <= i < |lens| ==> lens[i] > 0
  {
    var last := |lens| - 1;
    (if last == 0 then [] else GroupingBits(lens[..last]) + [false]) + Repeat(true, lens[last] - 1)
  }

  predicate Grouping(lens: seq<nat>, windows: nat) {
    |lens| > 0 && Sum(lens) == windows && forall i :: 0 <= i < |lens| ==> lens[i] > 0
  }

  lemma {:induction false} GroupingLength(lens: seq<nat>, windows: nat)
    requires Grouping(lens, windows)
    ensures |GroupingBits(lens)| == windows - 1
    decreases |lens|
  {
    if |lens| > 1 { GroupingLength(lens[..|lens| - 1], windows - lens[|lens| - 1]); }
  }

  // Digit n of a number of m bits, from the front.
  lemma {:induction false} DigitAt(s: seq<bool>, p: nat, n: nat, m: nat)
    requires 0 < n <= m
    ensures Num(s, p, m) / Pow2(m - n) % 2 == if Bit(s, p + n - 1) then 1 else 0
    decreases m
  {
    HighPart(s, p, n, m);
  }

  lemma {:induction false} HighPart(s: seq<bool>, p: nat, n: nat, m: nat)
    requires n <= m
    ensures Num(s, p, m) / Pow2(m - n) == Num(s, p, n)
    decreases m
  {
    if n < m {
      HighPart(s, p, n, m - 1);
      Doubled(Num(s, p, m - 1), Pow2(m - 1 - n), if Bit(s, p + m - 1) then 1 else 0);
    }
  }

  lemma Doubled(x: nat, h: nat, b: nat)
    requires h > 0 && b < 2
    ensures (2 * x + b) / (2 * h) == x / h
  {
    var q, r := x / h, x % h;
    assert x == h * q + r;
    Regroup(2, h, q);
    DivUnique(2 * x + b, 2 * h, q, 2 * r + b);
  }

  // One window less: the last group is shorter, or gone.
  function Shorter(lens: seq<nat>): seq<nat>
    requires |lens| > 0 && forall i :: 0 <= i < |lens| ==> lens[i] > 0
  {
    var last := |lens| - 1;
    if lens[last] == 1 then lens[..last] else lens[last := lens[last] - 1]
  }

  lemma LastWindow(lens: seq<nat>, windows: nat)
    requires Grouping(lens, windows) && windows > 1
    ensures Grouping(Shorter(lens), windows - 1)
    ensures var g := Shorter(lens);
      && GroupingBits(lens) == GroupingBits(g) + [lens[|lens| - 1] > 1]
      && lens == if lens[|lens| - 1] > 1 then g[|g| - 1 := g[|g| - 1] + 1] else g + [1]
  {
    var last := |lens| - 1;
    var g := Shorter(lens);
    if last == 0 { assert lens[..0] == [] && Sum(lens) == lens[0]; }
    if lens[last] == 1 {
      assert lens == g + [1];
    } else {
      assert g[..last] == lens[..last];
      RepeatLast(lens[last] - 1);
      var head := if last == 0 then [] else GroupingBits(lens[..last]) + [false];
      assert head + (Repeat(true, lens[last] - 2) + [true]) == head + Repeat(true, lens[last] - 2) + [true];
    }
  }

  lemma {:induction false} RepeatLast(n: nat)
    requires n > 0
    ensures Repeat(true, n) == Repeat(true, n - 1) + [true]
    decreases n
  {
    if n > 1 { RepeatLast(n - 1); }
  }

  lemma {:induction false} GroupsAre(lens: seq<nat>, windows: nat, bits: seq<bool>)
    requires Grouping(lens, windows) && windows <= 8 && |bits| == 7 && bits[..windows - 1] == GroupingBits(lens)
    ensures GroupLengths(NumOf(bits), windows - 1) == lens
    decreases windows
  {
    if windows == 1 {
      OneWindow(lens);
    } else {
      var g := Shorter(lens);
      LastWindow(lens, windows);
      LastBit(bits, windows - 1, GroupingBits(g), lens[|lens| - 1] > 1);
      GroupingLength(g, windows - 1);
      GroupsAre(g, windows - 1, bits);
      GroupStep(bits, windows - 1, g, lens[|lens| - 1] > 1);
    }
  }

  lemma OneWindow(lens: seq<nat>)
    requires Grouping(lens, 1)
    ensures lens == [1]
  {
    if |lens| == 1 { assert lens[..0] == []; } else { SumPositive(lens[..|lens| - 1]); }
  }

  lemma SumPositive(lens: seq<nat>)
    requires |lens| > 0 && lens[|lens| - 1] > 0
    ensures Sum(lens) > 0
  {
  }

  lemma LastBit(bits: seq<bool>, n: nat, front: seq<bool>, b: bool)
    requires 0 < n <= |bits| && bits[..n] == front + [b]
    ensures bits[..n - 1] == front && Bit(bits, n - 1) == b
  {
    assert bits[..n][..n - 1] == bits[..n - 1];
    assert bits[..n][n - 1] == bits[n - 1];
  }

  lemma GroupStep(bits: seq<bool>, n: nat, g: seq<nat>, join: bool)
    requires 0 < n <= 7 == |bits| && GroupLengths(NumOf(bits), n - 1) == g && Bit(bits, n - 1) == join
    ensures GroupLengths(NumOf(bits), n) == if join then g[|g| - 1 := g[|g| - 1] + 1] else g + [1]
  {
    DigitAt(bits, 0, n, 7);
  }
}
