/** A whole frame as a sender lays it out, once in HDC syntax and once as an AAC raw
    data block, with every field's place and width written out: the HDC reader
    finds the frame in the one, the standard reader finds it in the other, and the
    remuxer turns the one into exactly the other. */
module FrameSender {
  import opened Basics
  import opened Arith
  import opened Bits
  import opened Huffman
  import opened AacSyntax
  import opened AacSender
  import opened WindowSender
  import opened RawBlock
  import Aac = AacStream
  import Hdc = HdcSyntax
  import Transcode
  import BitIo
  import Remuxer

  // ---------- channels ----------

  // Global gain, sections with their codewords, and an entry for the scale of every band.
  datatype Chan = Chan(gain: nat, groups: seq<seq<Run>>, entries: seq<Entry>)

  ghost predicate ChanParts(h: Tables, w: Window, lens: seq<nat>, c: Chan) {
    && c.gain < 256 && AllCover(w.Short(), w.maxSfb, c.groups)
    && Scaling(h, AllBooksOf(c.groups), c.entries)
    && GroupsFilled(h, w.Short(), lens, c.groups)
  }

  ghost predicate ChanFits(h: Tables, w: Window, lens: seq<nat>, c: Chan) { SealedFits(SEALS, h, w, lens, c) }

  ghost predicate SealedFits(seals: seq<bool>, h: Tables, w: Window, lens: seq<nat>, c: Chan) {
    if |seals| > 0 then SealedFits(seals[1..], h, w, lens, c) else ChanParts(h, w, lens, c)
  }

  lemma {:induction false} OpenFits(seals: seq<bool>, h: Tables, w: Window, lens: seq<nat>, c: Chan)
    ensures SealedFits(seals, h, w, lens, c) == ChanParts(h, w, lens, c)
  {
    if |seals| > 0 { OpenFits(seals[1..], h, w, lens, c); }
  }

  // The groups of the window, and its bands.
  ghost predicate WindowFits(w: Window, lens: seq<nat>) {
    && w.Groups() == lens && w.maxSfb <= (if w.Short() then 15 else 47)
    && (w.Short() || lens == [1])
  }

  function CodingBits(short: bool, c: Chan): seq<bool> { GroupsBits(short, c.groups) + EntriesBits(c.entries) }

  ghost function CodingOf(h: Tables, c: Chan): Coding
    requires h.Valid()
  {
    Coding(AllSections(c.groups), EntryValues(h, c.entries))
  }

  lemma CodingRead(h: Tables, w: Window, lens: seq<nat>, c: Chan, t: seq<bool>, q: nat)
    requires h.Valid() && WindowFits(w, lens) && ChanFits(h, w, lens, c) && Stands(t, q, CodingBits(w.Short(), c))
    ensures Hdc.CodingData(h, w.Short(), w.maxSfb, |lens|, t, q) == Read(CodingOf(h, c), |CodingBits(w.Short(), c)|)
  {
    OpenFits(SEALS, h, w, lens, c);
    StandsSplit(t, q, GroupsBits(w.Short(), c.groups), EntriesBits(c.entries));
    GroupsRead(w.Short(), w.maxSfb, c.groups, t, q);
    ScaleListRead(h, c);
  }

  lemma ScaleListRead(h: Tables, c: Chan)
    requires Scaling(h, AllBooksOf(c.groups), c.entries)
    ensures Reads(h, ScaleList(AllSections(c.groups)), EntryValues(h, c.entries), EntriesBits(c.entries))
  {
    AllBooksAgree(c.groups);
    OpenScales(SEALS, AllSections(c.groups));
    ScalesRead(h, AllBooksOf(c.groups), c.entries, 0);
    assert AllBooksOf(c.groups)[0..] == AllBooksOf(c.groups) && c.entries[0..] == c.entries;
  }

  lemma SpectrumListRead(h: Tables, w: Window, lens: seq<nat>, c: Chan)
    requires h.Valid() && WindowFits(w, lens) && ChanFits(h, w, lens, c)
    ensures Reads(h, SpectrumList(w, AllSections(c.groups)), GroupsValues(h, c.groups), GroupsWords(c.groups))
  {
    OpenFits(SEALS, h, w, lens, c);
    OpenSpectrum(SEALS, w, AllSections(c.groups));
    SpectrumRead(h, w, lens, c.groups);
  }

  // A channel in HDC: gain, sections and scales, spectrum.
  function ChanBits(short: bool, c: Chan): seq<bool> { Digits(c.gain, 8) + CodingBits(short, c) + GroupsWords(c.groups) }

  // What was found is what was sent, and the places recorded are where it stands.
  ghost predicate ChanStands(h: Tables, short: bool, s: seq<bool>, c: Chan, placed: Hdc.Placed) {
    && h.Valid() && placed.coding == CodingOf(h, c) && placed.spectrum == GroupsValues(h, c.groups)
    && placed.codingLen == |CodingBits(short, c)| && placed.specLen == |GroupsWords(c.groups)|
    && Stands(s, placed.at, ChanBits(short, c))
  }

  lemma ChanSplit(short: bool, c: Chan, t: seq<bool>, q: nat)
    requires Stands(t, q, ChanBits(short, c))
    ensures Stands(t, q, Digits(c.gain, 8)) && Stands(t, q + 8, CodingBits(short, c))
    ensures Stands(t, q + 8 + |CodingBits(short, c)|, GroupsWords(c.groups))
    ensures |ChanBits(short, c)| == 8 + |CodingBits(short, c)| + |GroupsWords(c.groups)|
  {
    StandsSplit(t, q, Digits(c.gain, 8) + CodingBits(short, c), GroupsWords(c.groups));
    StandsSplit(t, q, Digits(c.gain, 8), CodingBits(short, c));
  }

  lemma ChanRead(h: Tables, w: Window, lens: seq<nat>, c: Chan, t: seq<bool>, q: nat)
    requires h.Valid() && WindowFits(w, lens) && ChanFits(h, w, lens, c) && Stands(t, q, ChanBits(w.Short(), c))
    ensures w.maxSfb <= w.NumSwb()
    ensures var r := Hdc.ChannelData(h, w, t, q); r.Read? && r.n == |ChanBits(w.Short(), c)| && ChanStands(h, w.Short(), t, c, r.value)
  {
    Hdc.OpenChannel(SEALS, h, w, t, q);
    StandsInside(t, q, ChanBits(w.Short(), c));
    ChanSplit(w.Short(), c, t, q);
    CodingRead(h, w, lens, c, t, q + 8);
    SpectrumListRead(h, w, lens, c);
  }

  function ChansBits(short: bool, cs: seq<Chan>): seq<bool> {
    if |cs| == 0 then [] else ChanBits(short, cs[0]) + ChansBits(short, cs[1..])
  }

  ghost predicate ChansFit(h: Tables, w: Window, lens: seq<nat>, cs: seq<Chan>) {
    forall i :: 0 <= i < |cs| ==> ChanFits(h, w, lens, cs[i])
  }

  lemma {:induction false} ChansRead(h: Tables, w: Window, lens: seq<nat>, cs: seq<Chan>, t: seq<bool>, q: nat)
    requires h.Valid() && WindowFits(w, lens) && Stands(t, q, ChansBits(w.Short(), cs)) && ChansFit(h, w, lens, cs)
    ensures w.maxSfb <= w.NumSwb()
    ensures var r := Hdc.AllChannels(h, w, |cs|, t, q);
      r.Read? && r.n == |ChansBits(w.Short(), cs)| && ChansStand(h, w.Short(), t, cs, r.value)
    decreases |cs|
  {
    if |cs| > 0 {
      var n, rest := |ChanBits(w.Short(), cs[0])|, cs[1..];
      assert ChansFit(h, w, lens, rest);
      StandsSplit(t, q, ChanBits(w.Short(), cs[0]), ChansBits(w.Short(), rest));
      ChanRead(h, w, lens, cs[0], t, q);
      ChansRead(h, w, lens, rest, t, q + n);
      ChansFold(h, w, cs, rest, n, |ChansBits(w.Short(), rest)|, t, q);
    }
  }

  ghost predicate ChansStand(h: Tables, short: bool, s: seq<bool>, cs: seq<Chan>, placed: seq<Hdc.Placed>) {
    |cs| == |placed| && forall i :: 0 <= i < |cs| ==> ChanStands(h, short, s, cs[i], placed[i])
  }

  lemma ChansFold(h: Tables, w: Window, cs: seq<Chan>, rest: seq<Chan>, n: nat, m: nat, t: seq<bool>, q: nat)
    requires h.Valid() && w.maxSfb <= w.NumSwb() && |cs| > 0 && rest == cs[1..]
    requires var r := Hdc.ChannelData(h, w, t, q); r.Read? && r.n == n && ChanStands(h, w.Short(), t, cs[0], r.value)
    requires var r := Hdc.AllChannels(h, w, |rest|, t, q + n); r.Read? && r.n == m && ChansStand(h, w.Short(), t, rest, r.value)
    ensures var r := Hdc.AllChannels(h, w, |cs|, t, q); r.Read? && r.n == n + m && ChansStand(h, w.Short(), t, cs, r.value)
  {
    var v, vs := Hdc.ChannelData(h, w, t, q).value, Hdc.AllChannels(h, w, |rest|, t, q + n).value;
    assert |cs| - 1 == |rest|;
    assert Hdc.AllChannels(h, w, |cs|, t, q) == Read([v] + vs, n + m);
    ChansStandMore(h, w.Short(), t, cs, v, vs);
  }

  lemma ChansStandMore(h: Tables, short: bool, t: seq<bool>, cs: seq<Chan>, v: Hdc.Placed, vs: seq<Hdc.Placed>)
    requires |cs| > 0 && ChanStands(h, short, t, cs[0], v) && ChansStand(h, short, t, cs[1..], vs)
    ensures ChansStand(h, short, t, cs, [v] + vs)
  {
    forall i | 0 < i < |cs| ensures ChanStands(h, short, t, cs[i], ([v] + vs)[i]) {
      assert cs[1..][i - 1] == cs[i];
    }
  }

  function AllTnsBits(short: bool, xs: seq<SentTns>): seq<bool> {
    if |xs| == 0 then [] else HdcTnsBits(short, xs[0]) + AllTnsBits(short, xs[1..])
  }

  predicate AllTnsFit(short: bool, xs: seq<SentTns>) { forall i :: 0 <= i < |xs| ==> TnsFits(short, xs[i]) }

  lemma {:induction false} AllTnsRead(h: Tables, w: Window, xs: seq<SentTns>, t: seq<bool>, q: nat)
    requires h.Valid() && Stands(t, q, AllTnsBits(w.Short(), xs)) && AllTnsFit(w.Short(), xs)
    ensures var r := Hdc.AllTns(h, w, |xs|, t, q);
      r.Read? && r.n == |AllTnsBits(w.Short(), xs)| && AllTnsStand(w.Short(), t, xs, r.value)
    decreases |xs|
  {
    if |xs| > 0 {
      var n, rest := |HdcTnsBits(w.Short(), xs[0])|, xs[1..];
      assert AllTnsFit(w.Short(), rest);
      StandsSplit(t, q, HdcTnsBits(w.Short(), xs[0]), AllTnsBits(w.Short(), rest));
      TnsRead(h, w, xs[0], t, q);
      AllTnsRead(h, w, rest, t, q + n);
      TnsFold(h, w, xs, rest, n, |AllTnsBits(w.Short(), rest)|, t, q);
    }
  }

  ghost predicate AllTnsStand(short: bool, s: seq<bool>, xs: seq<SentTns>, tns: seq<Hdc.PlacedTns>) {
    |xs| == |tns| && forall i :: 0 <= i < |xs| ==> TnsStands(short, s, xs[i], tns[i])
  }

  lemma TnsFold(h: Tables, w: Window, xs: seq<SentTns>, rest: seq<SentTns>, n: nat, m: nat, t: seq<bool>, q: nat)
    requires h.Valid() && |xs| > 0 && rest == xs[1..]
    requires var r := Hdc.TnsData(h, w, t, q); r.Read? && r.n == n && TnsStands(w.Short(), t, xs[0], r.value)
    requires var r := Hdc.AllTns(h, w, |rest|, t, q + n); r.Read? && r.n == m && AllTnsStand(w.Short(), t, rest, r.value)
    ensures var r := Hdc.AllTns(h, w, |xs|, t, q); r.Read? && r.n == n + m && AllTnsStand(w.Short(), t, xs, r.value)
  {
    var v, vs := Hdc.TnsData(h, w, t, q).value, Hdc.AllTns(h, w, |rest|, t, q + n).value;
    assert |xs| - 1 == |rest|;
    assert Hdc.AllTns(h, w, |xs|, t, q) == Read([v] + vs, n + m);
    AllTnsStandMore(w.Short(), t, xs, v, vs);
  }

  lemma AllTnsStandMore(short: bool, t: seq<bool>, xs: seq<SentTns>, v: Hdc.PlacedTns, vs: seq<Hdc.PlacedTns>)
    requires |xs| > 0 && TnsStands(short, t, xs[0], v) && AllTnsStand(short, t, xs[1..], vs)
    ensures AllTnsStand(short, t, xs, [v] + vs)
  {
    forall i | 0 < i < |xs| ensures TnsStands(short, t, xs[i], ([v] + vs)[i]) {
      assert xs[1..][i - 1] == xs[i];
    }
  }

  // ---------- frames ----------

  // The kind of HDC block decides the number of channels; lens are the window groups,
  // mask is the stereo mask.
  datatype SentFrame = SentFrame(kind: nat, shape: bool, sequence: nat, maxSfb: nat, lens: seq<nat>,
                                 ms: nat, mask: seq<bool>, tns: seq<SentTns>, channels: seq<Chan>)
  {
    predicate Short() { sequence == 2 }

    predicate Stereo() { kind == 2 || kind == 7 }
  }

  predicate FieldsFit(x: SentFrame) {
    && x.kind < 8 && x.kind != 3 && x.kind != 4 && x.sequence < 4
    && (if x.Short() then x.maxSfb <= 15 && Grouping(x.lens, 8) else x.maxSfb <= 47 && x.lens == [1])
    && (if x.Stereo() then x.ms < 3 else x.ms == 0)
    && |x.mask| == (if x.ms == 1 then |x.lens| * x.maxSfb else 0)
    && |x.tns| == |x.channels| == (if x.Stereo() then 2 else 1)
    && AllTnsFit(x.Short(), x.tns)
  }

  function GroupingField(x: SentFrame): seq<bool> {
    if x.Short() && Grouping(x.lens, 8) then GroupingBits(x.lens) else []
  }

  function WindowOf(x: SentFrame): Window {
    Window(x.sequence, if x.shape then 1 else 0, x.maxSfb, NumOf(GroupingField(x)))
  }

  ghost predicate Sendable(h: Tables, x: SentFrame) {
    h.Valid() && FieldsFit(x) && ChansFit(h, WindowOf(x), x.lens, x.channels)
  }

  function KindBits(kind: nat): seq<bool> {
    [kind >= 4, kind == 2 || kind == 3 || kind == 6 || kind == 7, kind == 1 || kind == 3 || kind == 5 || kind == 7]
  }

  // A reserved bit, shape, sequence, bands, and the grouping of short windows.
  function HdcWindowField(x: SentFrame): seq<bool> {
    [false] + [x.shape] + Digits(x.sequence, 2) + Digits(x.maxSfb, if x.Short() then 4 else 6) + GroupingField(x)
  }

  function MaskBits(x: SentFrame): seq<bool> { if x.Stereo() then Digits(x.ms, 2) + x.mask else [] }

  /** The frame in HDC syntax. */
  function HdcBits(x: SentFrame): seq<bool> {
    KindBits(x.kind) + HdcWindowField(x) + MaskBits(x) + AllTnsBits(x.Short(), x.tns) + ChansBits(x.Short(), x.channels)
  }

  // A reserved bit, sequence, shape, bands, and the grouping or the absence of prediction.
  function AacWindowField(x: SentFrame): seq<bool> {
    [false] + Digits(x.sequence, 2) + [x.shape]
    + if x.Short() then Digits(x.maxSfb, 4) + GroupingField(x) else Digits(x.maxSfb, 6) + [false]
  }

  function AacRest(short: bool, tns: SentTns, c: Chan): seq<bool> {
    CodingBits(short, c) + AacToolBits(short, tns) + GroupsWords(c.groups)
  }

  function AacElement(x: SentFrame): seq<bool>
    requires FieldsFit(x)
  {
    var s, tns, cs := x.Short(), x.tns, x.channels;
    if x.Stereo() then
      [true] + AacWindowField(x) + (Digits(x.ms, 2) + x.mask)
      + (Digits(cs[0].gain, 8) + AacRest(s, tns[0], cs[0]) + (Digits(cs[1].gain, 8) + AacRest(s, tns[1], cs[1])))
    else
      Digits(cs[0].gain, 8) + AacWindowField(x) + AacRest(s, tns[0], cs[0])
  }

  /** The frame as a raw data block: element 0 or 1, tag 0, the element, and the end marker. */
  function AacBits(x: SentFrame): seq<bool>
    requires FieldsFit(x)
  {
    [false, false, x.Stereo()] + [false, false, false, false] + AacElement(x) + [true, true, true]
  }

  // ---------- reading the frame ----------

  lemma WindowOfFits(x: SentFrame)
    requires FieldsFit(x)
    ensures WindowFits(WindowOf(x), x.lens) && WindowOf(x).Short() == x.Short()
    ensures |GroupingField(x)| == (if x.Short() then 7 else 0) && (!x.Short() ==> WindowOf(x).grouping == 0)
  {
    if x.Short() {
      GroupingLength(x.lens, 8);
      var bits := GroupingBits(x.lens);
      assert bits[..7] == bits;
      GroupsAre(x.lens, 8, bits);
    }
  }

  lemma KindRead(kind: nat, s: seq<bool>)
    requires kind < 8 && Stands(s, 0, KindBits(kind))
    ensures Num(s, 0, 3) == kind
  {
    var bits := KindBits(kind);
    OpenHolds(SEALS, s, 0, bits);
    assert bits == s[0..3] && s[0] == bits[0] && s[1] == bits[1] && s[2] == bits[2];
    assert Num(s, 0, 1) == (if bits[0] then 1 else 0);
    assert Num(s, 0, 2) == 2 * Num(s, 0, 1) + if bits[1] then 1 else 0;
    assert Num(s, 0, 3) == 2 * Num(s, 0, 2) + if bits[2] then 1 else 0;
  }

  lemma WindowFieldRead(x: SentFrame, s: seq<bool>, p: nat)
    requires FieldsFit(x) && Stands(s, p, HdcWindowField(x))
    ensures Hdc.WindowInfo(s, p) == Read(WindowOf(x), |HdcWindowField(x)|)
  {
    var bands := Digits(x.maxSfb, if x.Short() then 4 else 6);
    WindowOfFits(x);
    StandsSplit(s, p, [false] + [x.shape] + Digits(x.sequence, 2) + bands, GroupingField(x));
    StandsSplit(s, p, [false] + [x.shape] + Digits(x.sequence, 2), bands);
    StandsSplit(s, p, [false] + [x.shape], Digits(x.sequence, 2));
    StandsSplit(s, p, [false], [x.shape]);
    BitHolds(s, p, false);
    BitHolds(s, p + 1, x.shape);
    assert Pow2(2) == 4 && Pow2(4) == 16 && Pow2(6) == 64;
    NumStands(s, p + 2, x.sequence, 2);
    NumStands(s, p + 4, x.maxSfb, |bands|);
    if x.Short() { NumHolds(s, p + 8, GroupingField(x)); }
  }

  lemma MaskRead(x: SentFrame, s: seq<bool>, p: nat)
    requires FieldsFit(x) && x.Stereo() && Stands(s, p, MaskBits(x))
    ensures Hdc.MsInfo(WindowOf(x), s, p) == Read((x.ms, NumOf(x.mask)), |MaskBits(x)|)
    ensures Stands(s, p + 2, x.mask)
  {
    StandsSplit(s, p, Digits(x.ms, 2), x.mask);
    assert Pow2(2) == 4;
    NumStands(s, p, x.ms, 2);
    WindowOfFits(x);
    if x.ms == 1 { NumHolds(s, p + 2, x.mask); } else { assert NumOf(x.mask) == 0; }
  }

  // What was found is the frame that was sent, and stands where it was found.
  ghost predicate PartsStand(h: Tables, s: seq<bool>, x: SentFrame, f: Hdc.Parsed) {
    && f.window == WindowOf(x) && f.ms == (x.ms, NumOf(x.mask)) && (x.Stereo() ==> Stands(s, f.msAt, x.mask))
    && AllTnsStand(x.Short(), s, x.tns, f.tns) && ChansStand(h, x.Short(), s, x.channels, f.placed)
  }

  ghost predicate FrameStands(h: Tables, s: seq<bool>, x: SentFrame, f: Hdc.Parsed) {
    SealedStands(SEALS, h, s, x, f)
  }

  ghost predicate SealedStands(seals: seq<bool>, h: Tables, s: seq<bool>, x: SentFrame, f: Hdc.Parsed) {
    if |seals| > 0 then SealedStands(seals[1..], h, s, x, f) else PartsStand(h, s, x, f)
  }

  lemma {:induction false} OpenStands(seals: seq<bool>, h: Tables, s: seq<bool>, x: SentFrame, f: Hdc.Parsed)
    ensures SealedStands(seals, h, s, x, f) == PartsStand(h, s, x, f)
  {
    if |seals| > 0 { OpenStands(seals[1..], h, s, x, f); }
  }

  // Shaping data and channels stand from p on.
  ghost predicate BodyStands(x: SentFrame, s: seq<bool>, p: nat) {
    Stands(s, p, AllTnsBits(x.Short(), x.tns)) && Stands(s, p + |AllTnsBits(x.Short(), x.tns)|, ChansBits(x.Short(), x.channels))
  }

  function BodyLen(x: SentFrame): nat { |AllTnsBits(x.Short(), x.tns)| + |ChansBits(x.Short(), x.channels)| }

  lemma FrameSplit(x: SentFrame, s: seq<bool>, n: nat, m: nat)
    requires FieldsFit(x) && Stands(s, 0, HdcBits(x)) && n == |HdcWindowField(x)| && m == |MaskBits(x)|
    ensures Stands(s, 0, KindBits(x.kind)) && Stands(s, 3, HdcWindowField(x)) && Stands(s, 3 + n, MaskBits(x))
    ensures BodyStands(x, s, 3 + n + m) && |HdcBits(x)| == 3 + n + m + BodyLen(x)
  {
    FiveParts(KindBits(x.kind), HdcWindowField(x), MaskBits(x), AllTnsBits(x.Short(), x.tns), ChansBits(x.Short(), x.channels), s);
  }

  lemma FiveParts(a: seq<bool>, b: seq<bool>, c: seq<bool>, d: seq<bool>, e: seq<bool>, s: seq<bool>)
    requires Stands(s, 0, a + b + c + d + e)
    ensures Stands(s, 0, a) && Stands(s, |a|, b) && Stands(s, |a| + |b|, c)
    ensures Stands(s, |a| + |b| + |c|, d) && Stands(s, |a| + |b| + |c| + |d|, e)
    ensures |a + b + c + d + e| == |a| + |b| + |c| + |d| + |e|
  {
    StandsSplit(s, 0, a + b + c + d, e);
    StandsSplit(s, 0, a + b + c, d);
    StandsSplit(s, 0, a + b, c);
    StandsSplit(s, 0, a, b);
  }

  function Ms(x: SentFrame): (nat, nat) { (x.ms, NumOf(x.mask)) }

  // Reading shaping data and channels from p on gives the frame.
  ghost predicate BodyReads(h: Tables, x: SentFrame, msAt: nat, s: seq<bool>, p: nat) {
    && h.Valid() && WindowOf(x).maxSfb <= WindowOf(x).NumSwb()
    && var r := Hdc.Body(h, WindowOf(x), Ms(x), msAt, |x.channels|, s, p);
       r.Read? && r.n == BodyLen(x) && FrameStands(h, s, x, r.value)
  }

  lemma BodyRead(h: Tables, x: SentFrame, msAt: nat, s: seq<bool>, p: nat)
    requires Sendable(h, x) && BodyStands(x, s, p) && (x.Stereo() ==> Stands(s, msAt, x.mask))
    ensures BodyReads(h, x, msAt, s, p)
  {
    WindowOfFits(x);
    AllTnsRead(h, WindowOf(x), x.tns, s, p);
    ChansRead(h, WindowOf(x), x.lens, x.channels, s, p + |AllTnsBits(x.Short(), x.tns)|);
    BodyFold(h, x, msAt, s, p, |AllTnsBits(x.Short(), x.tns)|);
  }

  lemma BodyFold(h: Tables, x: SentFrame, msAt: nat, s: seq<bool>, p: nat, n: nat)
    requires h.Valid() && FieldsFit(x) && WindowOf(x).maxSfb <= WindowOf(x).NumSwb() && n <= BodyLen(x)
    requires x.Stereo() ==> Stands(s, msAt, x.mask)
    requires var r := Hdc.AllTns(h, WindowOf(x), |x.tns|, s, p); r.Read? && r.n == n && AllTnsStand(x.Short(), s, x.tns, r.value)
    requires var r := Hdc.AllChannels(h, WindowOf(x), |x.channels|, s, p + n);
      r.Read? && r.n == BodyLen(x) - n && ChansStand(h, x.Short(), s, x.channels, r.value)
    ensures BodyReads(h, x, msAt, s, p)
  {
    PartsFold(h, WindowOf(x), Ms(x), msAt, |x.channels|, s, p, n);
    OpenStands(SEALS, h, s, x, Hdc.Body(h, WindowOf(x), Ms(x), msAt, |x.channels|, s, p).value);
  }

  lemma PartsFold(h: Tables, w: Window, ms: (nat, nat), msAt: nat, k: nat, s: seq<bool>, p: nat, n: nat)
    requires h.Valid() && w.maxSfb <= w.NumSwb()
    requires var r := Hdc.AllTns(h, w, k, s, p); r.Read? && r.n == n
    requires Hdc.AllChannels(h, w, k, s, p + n).Read?
    ensures var tns, placed := Hdc.AllTns(h, w, k, s, p), Hdc.AllChannels(h, w, k, s, p + n);
      Hdc.Body(h, w, ms, msAt, k, s, p) == Read(Hdc.Parsed(w, ms, msAt, tns.value, placed.value), n + placed.n)
  {
    Hdc.OpenBody(SEALS, h, w, ms, msAt, k, s, p);
  }

  // Reading what stands before them gives its fields.
  ghost predicate HeadReads(x: SentFrame, s: seq<bool>) {
    var n := |HdcWindowField(x)|;
    && Hdc.Channels(s) == |x.channels| && Hdc.WindowInfo(s, 3) == Read(WindowOf(x), n)
    && if x.Stereo() then Hdc.MsInfo(WindowOf(x), s, 3 + n) == Read(Ms(x), |MaskBits(x)|)
       else Ms(x) == (0, 0) && MaskBits(x) == []
  }

  lemma HeadRead(x: SentFrame, s: seq<bool>)
    requires FieldsFit(x) && Stands(s, 0, HdcBits(x))
    ensures HeadReads(x, s)
  {
    var n := |HdcWindowField(x)|;
    FrameSplit(x, s, n, |MaskBits(x)|);
    KindRead(x.kind, s);
    WindowFieldRead(x, s, 3);
    if x.Stereo() { MaskRead(x, s, 3 + n); } else { assert NumOf(x.mask) == 0; }
  }

  lemma RestRead(h: Tables, x: SentFrame, s: seq<bool>, n: nat, m: nat)
    requires Sendable(h, x) && Stands(s, 0, HdcBits(x)) && n == |HdcWindowField(x)| && m == |MaskBits(x)|
    ensures BodyReads(h, x, 3 + n + 2, s, 3 + n + m) && |HdcBits(x)| == 3 + n + m + BodyLen(x)
  {
    FrameSplit(x, s, n, m);
    assert x.Stereo() ==> Stands(s, 3 + n + 2, x.mask) by {
      if x.Stereo() { MaskRead(x, s, 3 + n); }
    }
    BodyRead(h, x, 3 + n + 2, s, 3 + n + m);
  }

  lemma ContentFold(h: Tables, s: seq<bool>, k: nat, w: Window, n: nat, ms: (nat, nat), m: nat)
    requires h.Valid() && 1 <= k == Hdc.Channels(s) && Hdc.WindowInfo(s, 3) == Read(w, n) && w.maxSfb <= w.NumSwb()
    requires if k == 2 then Hdc.MsInfo(w, s, 3 + n) == Read(ms, m) else ms == (0, 0) && m == 0
    requires Hdc.Body(h, w, ms, 3 + n + 2, k, s, 3 + n + m).Read?
    ensures var r := Hdc.Body(h, w, ms, 3 + n + 2, k, s, 3 + n + m); Hdc.Content(h, s) == Read(r.value, 3 + n + m + r.n)
  {
    Hdc.OpenContent(SEALS, h, s);
  }

  /** The HDC reader finds in the bits of a frame, whatever follows them, the frame
      that was sent. */
  lemma ContentRead(h: Tables, x: SentFrame, s: seq<bool>)
    requires Sendable(h, x) && Stands(s, 0, HdcBits(x))
    ensures var r := Hdc.Content(h, s); r.Read? && r.n == |HdcBits(x)| && FrameStands(h, s, x, r.value)
  {
    var n, m := |HdcWindowField(x)|, |MaskBits(x)|;
    HeadRead(x, s);
    RestRead(h, x, s, n, m);
    ContentFold(h, s, |x.channels|, WindowOf(x), n, Ms(x), m);
  }

  // ---------- what the frame says ----------

  ghost function ChannelSent(h: Tables, tns: SentTns, c: Chan): Channel
    requires h.Valid()
  {
    Channel(c.gain, CodingOf(h, c), TnsOf(tns), GroupsValues(h, c.groups))
  }

  // The frame, whatever its syntax.
  ghost function FrameOf(h: Tables, x: SentFrame): Frame
    requires h.Valid() && FieldsFit(x)
  {
    Frame(x.Stereo(), WindowOf(x), x.ms, NumOf(x.mask),
          if x.Stereo() then [ChannelSent(h, x.tns[0], x.channels[0]), ChannelSent(h, x.tns[1], x.channels[1])]
          else [ChannelSent(h, x.tns[0], x.channels[0])])
  }

  lemma ChannelFoundAgain(h: Tables, short: bool, s: seq<bool>, tns: SentTns, c: Chan, found: Hdc.PlacedTns, placed: Hdc.Placed)
    requires TnsStands(short, s, tns, found) && ChanStands(h, short, s, c, placed) && c.gain < 256
    ensures Hdc.ChannelOf(found, placed, s) == ChannelSent(h, tns, c)
  {
    ChanSplit(short, c, s, placed.at);
    assert Pow2(8) == 256;
    NumStands(s, placed.at, c.gain, 8);
  }

  lemma MeaningSent(h: Tables, s: seq<bool>, x: SentFrame, f: Hdc.Parsed)
    requires Sendable(h, x) && FrameStands(h, s, x, f)
    ensures |f.tns| == |f.placed| && Hdc.Meaning(f, s) == FrameOf(h, x)
  {
    OpenStands(SEALS, h, s, x, f);
    OpenFits(SEALS, h, WindowOf(x), x.lens, x.channels[0]);
    ChannelFoundAgain(h, x.Short(), s, x.tns[0], x.channels[0], f.tns[0], f.placed[0]);
    assert Hdc.ChannelsUpTo(f, s, 1) == [] + [Hdc.ChannelOf(f.tns[0], f.placed[0], s)];
    if x.Stereo() {
      OpenFits(SEALS, h, WindowOf(x), x.lens, x.channels[1]);
      ChannelFoundAgain(h, x.Short(), s, x.tns[1], x.channels[1], f.tns[1], f.placed[1]);
      assert Hdc.ChannelsUpTo(f, s, 2) == Hdc.ChannelsUpTo(f, s, 1) + [Hdc.ChannelOf(f.tns[1], f.placed[1], s)];
    }
  }

  /** The HDC reader accepts the bits of a frame, and reads in them what was sent,
      whatever follows them; except that a fill element begun behind them must have
      its four bits. */
  lemma FrameRead(h: Tables, x: SentFrame, rest: seq<bool>)
    requires Sendable(h, x)
    ensures var s := HdcBits(x) + rest; var r := Hdc.Frame(h, s);
      && (r.Read? <==> |rest| >= 4 || !(Bit(rest, 0) && Bit(rest, 1) && !Bit(rest, 2)))
      && (r.Read? ==> r.n == |HdcBits(x)| && FrameStands(h, s, x, r.value) && Hdc.Meaning(r.value, s) == FrameOf(h, x))
  {
    var n, s := |HdcBits(x)|, HdcBits(x) + rest;
    StandsInFront(HdcBits(x), rest);
    ContentRead(h, x, s);
    FillRead(HdcBits(x), rest);
    if Hdc.Frame(h, s).Read? { MeaningSent(h, s, x, Hdc.Frame(h, s).value); }
  }

  lemma StandsInFront(front: seq<bool>, rest: seq<bool>)
    ensures Stands(front + rest, 0, front)
  {
    assert (front + rest)[0..0 + |front|] == front;
    OpenHolds(SEALS, front + rest, 0, front);
  }

  lemma FillRead(front: seq<bool>, rest: seq<bool>)
    ensures Num(front + rest, |front|, 3) == 6 <==> Bit(rest, 0) && Bit(rest, 1) && !Bit(rest, 2)
  {
    var s, n := front + rest, |front|;
    assert Bit(s, n) == Bit(rest, 0) && Bit(s, n + 1) == Bit(rest, 1) && Bit(s, n + 2) == Bit(rest, 2);
    assert Num(s, n, 1) == (if Bit(s, n) then 1 else 0);
    assert Num(s, n, 2) == 2 * Num(s, n, 1) + if Bit(s, n + 1) then 1 else 0;
    assert Num(s, n, 3) == 2 * Num(s, n, 2) + if Bit(s, n + 2) then 1 else 0;
  }

  // ---------- what the remuxer makes of it ----------

  lemma WindowWritten(x: SentFrame)
    requires FieldsFit(x)
    ensures IcsBits(WindowOf(x)) == AacWindowField(x)
  {
    SmallDigits();
    WindowOfFits(x);
    DigitsOf(GroupingField(x));
  }

  lemma MaskWritten(h: Tables, s: seq<bool>, x: SentFrame, f: Hdc.Parsed)
    requires FieldsFit(x) && x.Stereo() && PartsStand(h, s, x, f)
    ensures MsBits(s, f) == Digits(x.ms, 2) + x.mask
  {
    WindowOfFits(x);
    CutIs(s, f.msAt, x.mask);
  }

  lemma RestWritten(h: Tables, w: Window, s: seq<bool>, tns: SentTns, c: Chan, found: Hdc.PlacedTns, placed: Hdc.Placed)
    requires TnsFits(w.Short(), tns) && TnsStands(w.Short(), s, tns, found) && ChanStands(h, w.Short(), s, c, placed)
    ensures RestBits(s, ToolBits(w, s, found), placed) == AacRest(w.Short(), tns, c)
    ensures Cut(s, placed.at, 8) == Digits(c.gain, 8)
  {
    SpansWritten(h, w.Short(), s, c, placed);
    ToolsWritten(w, s, tns, found);
    RestJoined(s, AacToolBits(w.Short(), tns), placed, CodingBits(w.Short(), c), GroupsWords(c.groups));
  }

  lemma RestJoined(s: seq<bool>, tools: seq<bool>, placed: Hdc.Placed, a: seq<bool>, b: seq<bool>)
    requires Cut(s, placed.at + 8, placed.codingLen) == a && Cut(s, placed.at + 8 + placed.codingLen, placed.specLen) == b
    ensures RestBits(s, tools, placed) == a + tools + b
  {
  }

  lemma SpansWritten(h: Tables, short: bool, s: seq<bool>, c: Chan, placed: Hdc.Placed)
    requires ChanStands(h, short, s, c, placed)
    ensures Cut(s, placed.at, 8) == Digits(c.gain, 8)
    ensures Cut(s, placed.at + 8, placed.codingLen) == CodingBits(short, c)
    ensures Cut(s, placed.at + 8 + placed.codingLen, placed.specLen) == GroupsWords(c.groups)
  {
    ThreeCuts(s, placed.at, Digits(c.gain, 8), CodingBits(short, c), GroupsWords(c.groups));
  }

  lemma ThreeCuts(s: seq<bool>, p: nat, a: seq<bool>, b: seq<bool>, c: seq<bool>)
    requires Stands(s, p, a + b + c)
    ensures Cut(s, p, |a|) == a && Cut(s, p + |a|, |b|) == b && Cut(s, p + |a| + |b|, |c|) == c
  {
    StandsSplit(s, p, a + b, c);
    StandsSplit(s, p, a, b);
    CutIs(s, p, a);
    CutIs(s, p + |a|, b);
    CutIs(s, p + |a| + |b|, c);
  }

  lemma ElementWritten(h: Tables, s: seq<bool>, x: SentFrame, f: Hdc.Parsed)
    requires FieldsFit(x) && PartsStand(h, s, x, f)
    ensures 1 <= |f.tns| == |f.placed| <= 2 && ElementBits(s, f) == AacElement(x)
  {
    WindowOfFits(x);
    WindowWritten(x);
    RestWritten(h, f.window, s, x.tns[0], x.channels[0], f.tns[0], f.placed[0]);
    if x.Stereo() {
      RestWritten(h, f.window, s, x.tns[1], x.channels[1], f.tns[1], f.placed[1]);
      MaskWritten(h, s, x, f);
      SmallDigits();
    }
  }

  /** The block the remuxer emits for a frame it found in HDC syntax is, bit for bit,
      that frame in AAC syntax. */
  lemma BlockWritten(h: Tables, s: seq<bool>, x: SentFrame, f: Hdc.Parsed)
    requires FieldsFit(x) && FrameStands(h, s, x, f)
    ensures 1 <= |f.tns| == |f.placed| <= 2 && Block(s, f) == AacBits(x)
  {
    OpenStands(SEALS, h, s, x, f);
    ElementWritten(h, s, x, f);
    OpenBlock(SEALS, s, f);
    SmallDigits();
  }

  /** The standard reader finds the frame in its AAC bits, and in anything that
      starts with them. */
  lemma AacRead(h: Tables, x: SentFrame, t: seq<bool>)
    requires Sendable(h, x) && Holds(t, 0, AacBits(x))
    ensures Aac.RawBlock(h, t) == Read(FrameOf(h, x), |AacBits(x)|)
  {
    var s := HdcBits(x) + [];
    FrameRead(h, x, []);
    BlockWritten(h, s, x, Hdc.Frame(h, s).value);
    Transcode.MeaningPreserved(h, s, t);
  }

  /** Remuxing a frame that was sent in HDC syntax gives that frame in AAC syntax. */
  lemma Remuxed(h: Tables, x: SentFrame, rest: seq<bool>)
    requires Sendable(h, x) && (|rest| >= 4 || !(Bit(rest, 0) && Bit(rest, 1) && !Bit(rest, 2)))
    ensures var s := HdcBits(x) + rest; var r := Hdc.Frame(h, s); r.Read? && Block(s, r.value) == AacBits(x)
  {
    var s := HdcBits(x) + rest;
    FrameRead(h, x, rest);
    BlockWritten(h, s, x, Hdc.Frame(h, s).value);
  }

  function Zeros(n: nat): seq<bool> { if n == 0 then [] else [false] + Zeros(n - 1) }

  lemma {:induction false} ZeroDigits(n: nat)
    ensures Digits(0, n) == Zeros(n)
    decreases n
  {
    if n > 1 {
      ZeroDigits(n - 1);
      ZeroDigits(n - 2);
      assert Digits(0, n) == Digits(0, n - 1) + [false];
      assert Zeros(n - 1) == [false] + Zeros(n - 2) && Digits(0, n - 1) == Digits(0, n - 2) + [false];
    }
  }

  /** So, for whole packets: hdc2aac_remux_frame takes a packet whose bits are those of
      a frame, unless the block is too long for the buffers; */
  lemma PacketTaken(h: Tables, x: SentFrame, rest: seq<bool>, data: seq<BitIo.Byte>, room: nat)
    requires Sendable(h, x) && BitIo.ToBits(data) == HdcBits(x) + rest
    requires |rest| >= 4 || !(Bit(rest, 0) && Bit(rest, 1) && !Bit(rest, 2))
    ensures Remuxer.Accepted(h, data, room) <==> |AacBits(x)| <= 32768 && (|AacBits(x)| + 7) / 8 + 7 <= room
  {
    Remuxed(h, x, rest);
  }

  /** and what it returns, behind the seven header bytes, is that frame in AAC syntax
      and less than a byte of zeros. */
  lemma PacketRemuxed(h: Tables, x: SentFrame, rest: seq<bool>, data: seq<BitIo.Byte>, frame: seq<BitIo.Byte>, room: nat)
    requires Sendable(h, x) && BitIo.ToBits(data) == HdcBits(x) + rest
    requires Remuxer.Accepted(h, data, room) && Remuxer.Output(h, data, frame)
    ensures CarriesBlock(frame, AacBits(x))
  {
    BlockSent(h, x, rest);
    OutputIs(frame, Hdc.Stereo(Hdc.Frame(h, BitIo.ToBits(data)).value), AacBits(x));
  }

  ghost predicate CarriesBlock(frame: seq<BitIo.Byte>, block: seq<bool>) {
    |frame| >= 7 && exists n :: 0 <= n < 8 && BitIo.ToBits(frame[7..]) == block + Zeros(n)
  }

  lemma BlockSent(h: Tables, x: SentFrame, rest: seq<bool>)
    requires Sendable(h, x) && Hdc.Frame(h, HdcBits(x) + rest).Read?
    ensures Block(HdcBits(x) + rest, Hdc.Frame(h, HdcBits(x) + rest).value) == AacBits(x)
  {
    FrameRead(h, x, rest);
    Remuxed(h, x, rest);
  }

  // The header states the channels and the length.
  lemma PacketHeader(h: Tables, x: SentFrame, rest: seq<bool>, data: seq<BitIo.Byte>, frame: seq<BitIo.Byte>, room: nat)
    requires Sendable(h, x) && BitIo.ToBits(data) == HdcBits(x) + rest
    requires Remuxer.Accepted(h, data, room) && Remuxer.Output(h, data, frame)
    ensures Remuxer.ReadAdts(BitIo.ToBits(frame)) == Remuxer.Adts(0xFFF, 0, 0, 1, 1, 7, if x.Stereo() then 2 else 1, |frame|, 0x7FF, 0)
  {
    Remuxer.OutputHeader(h, data, frame, room);
    StandsInFront(HdcBits(x), rest);
    HeadRead(x, HdcBits(x) + rest);
  }

  lemma OutputIs(frame: seq<BitIo.Byte>, stereo: bool, block: seq<bool>)
    requires Remuxer.Framed(frame, stereo, block)
    ensures CarriesBlock(frame, block)
  {
    var n := 8 * (|frame| - 7) - |block|;
    ZeroDigits(n);
    assert BitIo.ToBits(frame[7..]) == block + Zeros(n);
  }

  /** What the reader accepts is of a known kind, has its reserved bit clear, no more
      bands than its windows have, and a stereo mode below three. */
  lemma AcceptedFields(h: Tables, s: seq<bool>)
    requires h.Valid() && Hdc.Frame(h, s).Read?
    ensures var f, kind := Hdc.Frame(h, s).value, Num(s, 0, 3);
      && kind != 3 && kind != 4 && |f.placed| == (if kind == 2 || kind == 7 then 2 else 1)
      && !Bit(s, 3) && f.window.maxSfb <= (if f.window.sequence == 2 then 15 else 47) && f.ms.0 < 3
  {
    Transcode.FrameFound(h, s);
    Hdc.OpenContent(SEALS, h, s);
    assert Pow2(3) == 8;
  }

  // There are such frames: one channel with nothing in it.
  function Silent(gain: nat): SentFrame { SentFrame(0, false, 0, 0, [1], 0, [], [Absent], [Chan(gain, [[]], [])]) }

  lemma SilentChannel(gain: nat)
    ensures var c := Silent(gain).channels[0]; CodingBits(false, c) == [] && GroupsWords(c.groups) == []
    ensures ChansBits(false, Silent(gain).channels) == Digits(gain, 8) && AllTnsBits(false, Silent(gain).tns) == [false]
  {
    var x := Silent(gain);
    var c := x.channels[0];
    assert c.groups[0] == [] && c.groups[1..] == [] && x.channels[1..] == [] && x.tns[1..] == [];
    assert CodingBits(false, c) == [] && GroupsWords(c.groups) == [];
    assert ChanBits(false, c) == Digits(gain, 8);
  }

  lemma SixZeros()
    ensures Digits(0, 6) == [false, false, false, false, false, false]
  {
    SmallDigits();
    assert Digits(0, 5) == Digits(0, 4) + [false];
    assert Digits(0, 6) == Digits(0, 5) + [false];
  }

  lemma SilentSendable(h: Tables, gain: nat)
    requires h.Valid() && gain < 256
    ensures Sendable(h, Silent(gain))
  {
    var x := Silent(gain);
    assert Bands([]) == 0 && AllBooksOf(x.channels[0].groups) == [];
    OpenFits(SEALS, h, WindowOf(x), x.lens, x.channels[0]);
  }

  lemma SilentHdcWindow(gain: nat)
    ensures FieldsFit(Silent(gain))
    ensures HdcWindowField(Silent(gain)) == [false, false, false, false, false, false, false, false, false, false]
  {
    SixZeros();
    SmallDigits();
    assert HdcWindowField(Silent(gain)) == [false] + [false] + Digits(0, 2) + Digits(0, 6) + [];
  }

  lemma SilentAacWindow(gain: nat)
    ensures FieldsFit(Silent(gain))
    ensures AacWindowField(Silent(gain)) == [false, false, false, false, false, false, false, false, false, false, false]
  {
    SixZeros();
    SmallDigits();
    assert AacWindowField(Silent(gain)) == [false] + Digits(0, 2) + [false] + (Digits(0, 6) + [false]);
  }

  /** In HDC its bits are fourteen zeros and the gain; */
  lemma SilentHdc(gain: nat)
    ensures FieldsFit(Silent(gain))
    ensures HdcBits(Silent(gain))
      == [false, false, false, false, false, false, false, false, false, false, false, false, false, false] + Digits(gain, 8)
  {
    SilentChannel(gain);
    SilentHdcWindow(gain);
  }

  lemma SilentRest(gain: nat)
    ensures AacRest(false, Absent, Silent(gain).channels[0]) == [false, false, false]
  {
    SilentChannel(gain);
  }

  /** remuxed, seven zeros, the gain, fourteen zeros and the end marker. */
  lemma SilentAac(gain: nat)
    ensures FieldsFit(Silent(gain))
    ensures AacBits(Silent(gain))
      == [false, false, false, false, false, false, false]
       + (Digits(gain, 8) + [false, false, false, false, false, false, false, false, false, false, false] + [false, false, false])
       + [true, true, true]
  {
    SilentAacWindow(gain);
    SilentRest(gain);
  }
}
