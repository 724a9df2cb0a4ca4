/** The syntax elements HDC and AAC share (ISO/IEC 14496-3, subpart 4, section
    4.4.2): window fields and grouping, scale factor, spectral and noise shaping
    data. Reading an element depends only on the bits it consumes.

    Items, filters and the lists of items a section table prescribes sit behind a
    counter that proofs about reading them do not unwind (SEALS). */
module AacSyntax {
  import opened Basics
  import opened Arith
  import opened Bits
  import opened Huffman

  // ---------- lists of items ----------

  // What is to be read next, as sections or filter fields prescribe it.
  datatype Item = Fixed(bits: nat) | Scale | Spectral(cb: nat)

  datatype Value = Number(v: nat) | Coded(word: Word)

  // br_bits, consume_sf, consume_codeword
  function OneItem(h: Tables, item: Item, s: seq<bool>, p: nat): Parse<Value>
    requires h.Valid()
  {
    match item
    case Fixed(bits) => Read(Number(Num(s, p, bits)), bits)
    case Scale =>
      (match Walk(h.sf, 0, 0, s, p)
       case Fail => Fail
       case Read(leaf, n) => Read(Number(leaf), n))
    case Spectral(cb) =>
      match Codeword(h, cb, s, p)
      case Fail => Fail
      case Read(word, n) => Read(Coded(word), n)
  }

  function One(h: Tables, item: Item, s: seq<bool>, p: nat): Parse<Value>
    requires h.Valid()
  {
    SealedItem(SEALS, h, item, s, p)
  }

  function SealedItem(seals: seq<bool>, h: Tables, item: Item, s: seq<bool>, p: nat): Parse<Value>
    requires h.Valid()
  {
    if |seals| > 0 then SealedItem(seals[1..], h, item, s, p) else OneItem(h, item, s, p)
  }

  lemma {:induction false} OpenItem(seals: seq<bool>, h: Tables, item: Item, s: seq<bool>, p: nat)
    requires h.Valid()
    ensures SealedItem(seals, h, item, s, p) == OneItem(h, item, s, p)
  {
    if |seals| > 0 { OpenItem(seals[1..], h, item, s, p); }
  }

  lemma OneLocal(h: Tables, item: Item, s: seq<bool>, p: nat, t: seq<bool>, q: nat)
    requires h.Valid() && var r := One(h, item, s, p); r.Read? && Agree(s, p, t, q, r.n)
    ensures One(h, item, t, q) == One(h, item, s, p)
  {
    OpenItem(SEALS, h, item, s, p);
    OpenItem(SEALS, h, item, t, q);
    match item
    case Fixed(bits) => NumAgree(s, p, t, q, bits);
    case Scale => WalkLocal(h.sf, 0, 0, s, p, t, q);
    case Spectral(cb) => CodewordLocal(h, cb, s, p, t, q);
  }

  function Items(h: Tables, items: seq<Item>, s: seq<bool>, p: nat): Parse<seq<Value>>
    requires h.Valid()
    decreases |items|, h, items, s, p
  {
    if |items| == 0 then Read([], 0)
    else
      match One(h, items[0], s, p)
      case Fail => Fail
      case Read(v, n) => Prepend([v], n, Items(h, items[1..], s, p + n))
  }

  lemma {:induction false} ItemsLocal(h: Tables, items: seq<Item>, s: seq<bool>, p: nat, t: seq<bool>, q: nat)
    requires h.Valid() && var r := Items(h, items, s, p); r.Read? && Agree(s, p, t, q, r.n)
    ensures Items(h, items, t, q) == Items(h, items, s, p)
    decreases |items|
  {
    if |items| > 0 {
      var one := One(h, items[0], s, p);
      AgreeSplit(s, p, t, q, one.n, Items(h, items[1..], s, p + one.n).n);
      OneLocal(h, items[0], s, p, t, q);
      ItemsLocal(h, items[1..], s, p + one.n, t, q + one.n);
    }
  }

  function Repeat<T>(x: T, n: nat): (r: seq<T>)
    ensures |r| == n
    decreases n
  {
    if n == 0 then [] else [x] + Repeat(x, n - 1)
  }

  // ---------- windows ----------

  const EIGHT_SHORT := 2
  const NUM_SWB_LONG := 47
  const NUM_SWB_SHORT := 15
  const SWB_LONG: seq<nat> := [
    0, 4, 8, 12, 16, 20, 24, 28, 32, 36, 40, 44, 52, 60, 68,
    76, 84, 92, 100, 108, 116, 124, 136, 148, 160, 172, 188, 204, 220] + [
    240, 260, 284, 308, 336, 364, 396, 432, 468, 508, 552, 600, 652, 704,
    768, 832, 896, 960, 1024]
  const SWB_SHORT: seq<nat> := [0, 4, 8, 12, 16, 20, 24, 28, 36, 44, 52, 64, 76, 92, 108, 128]

  // Window fields; the grouping is zero for long windows.
  datatype Window = Window(sequence: nat, shape: nat, maxSfb: nat, grouping: nat) {
    predicate Short() { sequence == EIGHT_SHORT }

    function NumSwb(): nat { if Short() then NUM_SWB_SHORT else NUM_SWB_LONG }

    function Groups(): seq<nat> { if Short() then GroupLengths(grouping, 7) else [1] }
  }

  // Lengths of the window groups after the first n grouping bits: a one joins
  // the next window to the current group, a zero starts another.
  function GroupLengths(grouping: nat, n: nat): (g: seq<nat>)
    requires n <= 7
    ensures 1 <= |g| <= n + 1
  {
    if n == 0 then [1]
    else
      var g := GroupLengths(grouping, n - 1);
      if (grouping / Pow2(7 - n)) % 2 == 0 then g + [1] else g[|g| - 1 := g[|g| - 1] + 1]
  }

  function Sum(g: seq<nat>): nat {
    if |g| == 0 then 0 else Sum(g[..|g| - 1]) + g[|g| - 1]
  }

  // The groups cover all eight windows, and none is empty.
  lemma {:induction false} GroupsCover(grouping: nat, n: nat)
    requires n <= 7
    ensures Sum(GroupLengths(grouping, n)) == n + 1
    ensures forall i :: 0 <= i < |GroupLengths(grouping, n)| ==> GroupLengths(grouping, n)[i] >= 1
  {
    if n > 0 {
      GroupsCover(grouping, n - 1);
      var g := GroupLengths(grouping, n - 1);
      var last := |g| - 1;
      if (grouping / Pow2(7 - n)) % 2 == 0 {
        assert (g + [1])[..|g|] == g;
      } else {
        assert g[last := g[last] + 1][..last] == g[..last];
      }
    }
  }

  // First coefficient of a scale factor band, in a group of len windows.
  function BandOffset(w: Window, len: nat, sfb: nat): nat {
    if sfb > w.NumSwb() then 0 else if w.Short() then len * SWB_SHORT[sfb] else SWB_LONG[sfb]
  }

  // ---------- sections, scale factors, spectrum ----------

  const ZERO_HCB := 0
  const FIRST_PAIR_HCB := 5
  const NOISE_HCB := 13
  const INTENSITY_HCB2 := 14
  const INTENSITY_HCB := 15

  // Bands start to end - 1 use codebook cb.
  datatype Section = Section(cb: nat, start: nat, end: nat)

  // The codebook of each band in turn.
  function Books(secs: seq<Section>): seq<nat> {
    if |secs| == 0 then []
    else if secs[0].end < secs[0].start then Books(secs[1..])
    else Repeat(secs[0].cb, secs[0].end - secs[0].start) + Books(secs[1..])
  }

  function AllBooks(groups: seq<seq<Section>>): seq<nat> {
    if |groups| == 0 then [] else Books(groups[0]) + AllBooks(groups[1..])
  }

  // One entry per band in use; the first noise band carries nine plain bits.
  function ScaleItems(books: seq<nat>, noisy: bool): seq<Item> {
    if |books| == 0 then []
    else if books[0] == ZERO_HCB then ScaleItems(books[1..], noisy)
    else if books[0] == NOISE_HCB && !noisy then [Fixed(9)] + ScaleItems(books[1..], true)
    else [Scale] + ScaleItems(books[1..], noisy)
  }

  // scale_factor_data
  function ScaleList(groups: seq<seq<Section>>): seq<Item> { SealedScales(SEALS, groups) }

  function SealedScales(seals: seq<bool>, groups: seq<seq<Section>>): seq<Item> {
    if |seals| > 0 then SealedScales(seals[1..], groups) else ScaleItems(AllBooks(groups), false)
  }

  lemma {:induction false} OpenScales(seals: seq<bool>, groups: seq<seq<Section>>)
    ensures SealedScales(seals, groups) == ScaleItems(AllBooks(groups), false)
  {
    if |seals| > 0 { OpenScales(seals[1..], groups); }
  }

  function Step(cb: nat): nat { if cb >= FIRST_PAIR_HCB then 2 else 4 }

  predicate HasSpectrum(cb: nat) {
    cb != ZERO_HCB && cb != NOISE_HCB && cb != INTENSITY_HCB && cb != INTENSITY_HCB2
  }

  // Codewords from coefficient k up to end.
  function Codewords(cb: nat, k: nat, end: nat): seq<Item>
    decreases end - k
  {
    if k >= end then [] else [Spectral(cb)] + Codewords(cb, k + Step(cb), end)
  }

  function SectionItems(w: Window, len: nat, sec: Section): seq<Item> {
    if HasSpectrum(sec.cb) then Codewords(sec.cb, BandOffset(w, len, sec.start), BandOffset(w, len, sec.end)) else []
  }

  function GroupItems(w: Window, len: nat, secs: seq<Section>): seq<Item> {
    if |secs| == 0 then [] else SectionItems(w, len, secs[0]) + GroupItems(w, len, secs[1..])
  }

  function SpectrumItems(w: Window, lens: seq<nat>, groups: seq<seq<Section>>): seq<Item> {
    if |groups| == 0 || |lens| == 0 then []
    else GroupItems(w, lens[0], groups[0]) + SpectrumItems(w, lens[1..], groups[1..])
  }

  // spectral_data
  function SpectrumList(w: Window, groups: seq<seq<Section>>): seq<Item> { SealedSpectrum(SEALS, w, groups) }

  function SealedSpectrum(seals: seq<bool>, w: Window, groups: seq<seq<Section>>): seq<Item> {
    if |seals| > 0 then SealedSpectrum(seals[1..], w, groups) else SpectrumItems(w, w.Groups(), groups)
  }

  lemma {:induction false} OpenSpectrum(seals: seq<bool>, w: Window, groups: seq<seq<Section>>)
    ensures SealedSpectrum(seals, w, groups) == SpectrumItems(w, w.Groups(), groups)
  {
    if |seals| > 0 { OpenSpectrum(seals[1..], w, groups); }
  }

  // ---------- temporal noise shaping ----------

  datatype Filter = Filter(length: nat, order: nat, direction: nat, compress: nat, coefs: seq<Value>)

  // coefRes is zero when the window has no filter.
  datatype Shaping = Shaping(coefRes: nat, filters: seq<Filter>)

  function LengthBits(short: bool): nat { if short then 4 else 6 }

  function OrderBits(short: bool): nat { if short then 3 else 5 }

  function FilterFields(h: Tables, short: bool, res: nat, s: seq<bool>, p: nat): Parse<Filter>
    requires h.Valid()
  {
    var a, b := LengthBits(short), OrderBits(short);
    var order := Num(s, p + a, b);
    if order == 0 then Read(Filter(Num(s, p, a), 0, 0, 0, []), a + b)
    else
      var compress := Num(s, p + a + b + 1, 1);
      match Items(h, Repeat(Fixed(3 + res - compress), order), s, p + a + b + 2)
      case Fail => Fail
      case Read(coefs, n) => Read(Filter(Num(s, p, a), order, Num(s, p + a + b, 1), compress, coefs), a + b + 2 + n)
  }

  function OneFilter(h: Tables, short: bool, res: nat, s: seq<bool>, p: nat): Parse<Filter>
    requires h.Valid()
  {
    SealedFilter(SEALS, h, short, res, s, p)
  }

  function SealedFilter(seals: seq<bool>, h: Tables, short: bool, res: nat, s: seq<bool>, p: nat): Parse<Filter>
    requires h.Valid()
  {
    if |seals| > 0 then SealedFilter(seals[1..], h, short, res, s, p) else FilterFields(h, short, res, s, p)
  }

  lemma {:induction false} OpenFilter(seals: seq<bool>, h: Tables, short: bool, res: nat, s: seq<bool>, p: nat)
    requires h.Valid()
    ensures SealedFilter(seals, h, short, res, s, p) == FilterFields(h, short, res, s, p)
  {
    if |seals| > 0 { OpenFilter(seals[1..], h, short, res, s, p); }
  }

  function Filters(h: Tables, short: bool, res: nat, k: nat, s: seq<bool>, p: nat): Parse<seq<Filter>>
    requires h.Valid()
    decreases k, h, short, res, s, p
  {
    if k == 0 then Read([], 0)
    else
      match OneFilter(h, short, res, s, p)
      case Fail => Fail
      case Read(f, n) => Prepend([f], n, Filters(h, short, res, k - 1, s, p + n))
  }

  // What follows the number of filters of a window.
  function ShapingData(h: Tables, short: bool, k: nat, s: seq<bool>, p: nat): Parse<Shaping>
    requires h.Valid()
  {
    if k == 0 then Read(Shaping(0, []), 0)
    else
      match Filters(h, short, Num(s, p, 1), k, s, p + 1)
      case Fail => Fail
      case Read(fs, n) => Read(Shaping(Num(s, p, 1), fs), 1 + n)
  }

  lemma OneFilterLocal(h: Tables, short: bool, res: nat, s: seq<bool>, p: nat, t: seq<bool>, q: nat)
    requires h.Valid() && var r := OneFilter(h, short, res, s, p); r.Read? && Agree(s, p, t, q, r.n)
    ensures OneFilter(h, short, res, t, q) == OneFilter(h, short, res, s, p)
  {
    OpenFilter(SEALS, h, short, res, s, p);
    OpenFilter(SEALS, h, short, res, t, q);
    var r := FilterFields(h, short, res, s, p);
    var a, b := LengthBits(short), OrderBits(short);
    AgreeSplit(s, p, t, q, a, r.n - a);
    NumAgree(s, p, t, q, a);
    FilterRest(h, res, b, r.n - a, s, p + a, t, q + a);
  }

  // The order field and what it governs.
  lemma FilterRest(h: Tables, res: nat, b: nat, n: nat, s: seq<bool>, p: nat, t: seq<bool>, q: nat)
    requires h.Valid() && Agree(s, p, t, q, n)
    requires var order := Num(s, p, b);
      if order == 0 then n == b
      else var r := Items(h, Repeat(Fixed(3 + res - Num(s, p + b + 1, 1)), order), s, p + b + 2); r.Read? && n == b + 2 + r.n
    ensures Num(t, q, b) == Num(s, p, b)
    ensures Num(s, p, b) != 0 ==>
      && Num(t, q + b, 1) == Num(s, p + b, 1)
      && Num(t, q + b + 1, 1) == Num(s, p + b + 1, 1)
      && var items := Repeat(Fixed(3 + res - Num(s, p + b + 1, 1)), Num(s, p, b));
         Items(h, items, t, q + b + 2) == Items(h, items, s, p + b + 2)
  {
    AgreeSplit(s, p, t, q, b, n - b);
    NumAgree(s, p, t, q, b);
    if Num(s, p, b) != 0 {
      AgreeSplit(s, p + b, t, q + b, 1, n - b - 1);
      NumAgree(s, p + b, t, q + b, 1);
      AgreeSplit(s, p + b + 1, t, q + b + 1, 1, n - b - 2);
      NumAgree(s, p + b + 1, t, q + b + 1, 1);
      ItemsLocal(h, Repeat(Fixed(3 + res - Num(s, p + b + 1, 1)), Num(s, p, b)), s, p + b + 2, t, q + b + 2);
    }
  }

  lemma {:induction false} FiltersLocal(h: Tables, short: bool, res: nat, k: nat, s: seq<bool>, p: nat, t: seq<bool>, q: nat)
    requires h.Valid() && var r := Filters(h, short, res, k, s, p); r.Read? && Agree(s, p, t, q, r.n)
    ensures Filters(h, short, res, k, t, q) == Filters(h, short, res, k, s, p)
    decreases k
  {
    if k > 0 {
      var one := OneFilter(h, short, res, s, p);
      AgreeSplit(s, p, t, q, one.n, Filters(h, short, res, k - 1, s, p + one.n).n);
      OneFilterLocal(h, short, res, s, p, t, q);
      FiltersLocal(h, short, res, k - 1, s, p + one.n, t, q + one.n);
    }
  }

  lemma ShapingLocal(h: Tables, short: bool, k: nat, s: seq<bool>, p: nat, t: seq<bool>, q: nat)
    requires h.Valid() && var r := ShapingData(h, short, k, s, p); r.Read? && Agree(s, p, t, q, r.n)
    ensures ShapingData(h, short, k, t, q) == ShapingData(h, short, k, s, p)
  {
    if k > 0 {
      AgreeSplit(s, p, t, q, 1, Filters(h, short, Num(s, p, 1), k, s, p + 1).n);
      NumAgree(s, p, t, q, 1);
      FiltersLocal(h, short, Num(s, p, 1), k, s, p + 1, t, q + 1);
    }
  }

  // ---------- frames ----------

  // section_data and scale_factor_data.
  datatype Coding = Coding(sections: seq<seq<Section>>, scales: seq<Value>)

  datatype Tns = NoTns | Tns(windows: seq<Shaping>)

  datatype Channel = Channel(gain: nat, coding: Coding, tns: Tns, spectrum: seq<Value>)

  // What a frame says, whatever its syntax.
  datatype Frame = Frame(stereo: bool, window: Window, ms: nat, mask: nat, channels: seq<Channel>)
}
