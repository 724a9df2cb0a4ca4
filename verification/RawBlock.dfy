/** The raw data block emitted for an HDC frame (src/hdc2aac_remux.c:533-597),
    and the proof that it says in AAC syntax what the frame said. */
module RawBlock {
  import opened Basics
  import opened Arith
  import opened Bits
  import opened Huffman
  import opened AacSyntax
  import Aac = AacStream
  import Hdc = HdcSyntax

  // ---------- what is emitted ----------

  function IcsBits(w: Window): (r: seq<bool>)
    ensures |r| == if w.Short() then 15 else 11
  {
    Digits(0, 1) + Digits(w.sequence, 2) + Digits(w.shape, 1)
    + if w.Short() then Digits(w.maxSfb, 4) + Digits(w.grouping, 7) else Digits(w.maxSfb, 6) + Digits(0, 1)
  }

  // The number of filters, which HDC leaves out for long windows.
  function CountBits(w: Window): seq<bool> { if w.Short() then [] else Digits(1, 2) }

  function TnsBits(w: Window, s: seq<bool>, tns: Hdc.PlacedTns): seq<bool> {
    if tns.tns.NoTns? then Digits(0, 1) else Digits(1, 1) + (CountBits(w) + Cut(s, tns.at, tns.len))
  }

  // No pulse data, noise shaping, no gain control.
  function ToolBits(w: Window, s: seq<bool>, tns: Hdc.PlacedTns): seq<bool> {
    Digits(0, 1) + TnsBits(w, s, tns) + Digits(0, 1)
  }

  // emit_channel_body after the global gain and the window fields.
  function RestBits(s: seq<bool>, tools: seq<bool>, ch: Hdc.Placed): seq<bool> {
    Cut(s, ch.at + 8, ch.codingLen) + tools + Cut(s, ch.at + 8 + ch.codingLen, ch.specLen)
  }

  function SingleBits(s: seq<bool>, w: Window, tools: seq<bool>, ch: Hdc.Placed): seq<bool> {
    Cut(s, ch.at, 8) + IcsBits(w) + RestBits(s, tools, ch)
  }

  function MsBits(s: seq<bool>, f: Hdc.Parsed): seq<bool> {
    Digits(f.ms.0, 2) + if f.ms.0 == 1 then Cut(s, f.msAt, |f.window.Groups()| * f.window.maxSfb) else []
  }

  function PairBits(s: seq<bool>, tools: seq<bool>, ch: Hdc.Placed, tools': seq<bool>, ch': Hdc.Placed): seq<bool> {
    Cut(s, ch.at, 8) + RestBits(s, tools, ch) + (Cut(s, ch'.at, 8) + RestBits(s, tools', ch'))
  }

  function ElementBits(s: seq<bool>, f: Hdc.Parsed): seq<bool>
    requires 1 <= |f.tns| == |f.placed| <= 2
  {
    var w := f.window;
    if |f.placed| == 1 then SingleBits(s, w, ToolBits(w, s, f.tns[0]), f.placed[0])
    else
      Digits(1, 1) + IcsBits(w) + MsBits(s, f)
      + PairBits(s, ToolBits(w, s, f.tns[0]), f.placed[0], ToolBits(w, s, f.tns[1]), f.placed[1])
  }

  function ElementId(f: Hdc.Parsed): nat { if |f.placed| == 2 then Aac.ID_CPE else Aac.ID_SCE }

  // emit_raw_block, before byte alignment.
  function BlockParts(s: seq<bool>, f: Hdc.Parsed): seq<bool>
    requires 1 <= |f.tns| == |f.placed| <= 2
  {
    Digits(ElementId(f), 3) + Digits(0, 4) + ElementBits(s, f) + Digits(Aac.ID_END, 3)
  }

  function Block(s: seq<bool>, f: Hdc.Parsed): seq<bool>
    requires 1 <= |f.tns| == |f.placed| <= 2
  {
    SealedBlock(SEALS, s, f)
  }

  function SealedBlock(seals: seq<bool>, s: seq<bool>, f: Hdc.Parsed): seq<bool>
    requires 1 <= |f.tns| == |f.placed| <= 2
  {
    if |seals| > 0 then SealedBlock(seals[1..], s, f) else BlockParts(s, f)
  }

  lemma {:induction false} OpenBlock(seals: seq<bool>, s: seq<bool>, f: Hdc.Parsed)
    requires 1 <= |f.tns| == |f.placed| <= 2
    ensures SealedBlock(seals, s, f) == BlockParts(s, f)
  {
    if |seals| > 0 { OpenBlock(seals[1..], s, f); }
  }

  // ---------- sections and scale factors ----------

  lemma {:induction false} LengthTransfers(short: bool, len: nat, s: seq<bool>, p: nat, t: seq<bool>, q: nat)
    requires len <= Hdc.SectLim(short)
    requires var r := Hdc.Length(short, len, s, p); r.Read? && Agree(s, p, t, q, r.n)
    ensures var r := Hdc.Length(short, len, s, p); r.value >= len && Aac.SectionLength(short, t, q) == Read(r.value - len, r.n)
    decreases Hdc.SectLim(short) - len
  {
    var r, b := Hdc.Length(short, len, s, p), Hdc.SectBits(short);
    AgreeSplit(s, p, t, q, b, r.n - b);
    NumAgree(s, p, t, q, b);
    var incr := Num(s, p, b);
    if incr == Hdc.SectEsc(short) {
      LengthTransfers(short, len + incr, s, p + b, t, q + b);
    }
  }

  lemma SectionTransfers(short: bool, maxSfb: nat, k: nat, s: seq<bool>, p: nat, t: seq<bool>, q: nat)
    requires var r := Hdc.OneSection(short, maxSfb, k, s, p); r.Read? && Agree(s, p, t, q, r.n)
    ensures Aac.OneSection(short, maxSfb, k, t, q) == Hdc.OneSection(short, maxSfb, k, s, p)
  {
    Hdc.OpenSection(SEALS, short, maxSfb, k, s, p);
    Aac.OpenSection(SEALS, short, maxSfb, k, t, q);
    AgreeSplit(s, p, t, q, 4, Hdc.Length(short, 0, s, p + 4).n);
    NumAgree(s, p, t, q, 4);
    LengthTransfers(short, 0, s, p + 4, t, q + 4);
  }

  lemma {:induction false} SectionsTransfer(short: bool, maxSfb: nat, k: nat, i: nat, s: seq<bool>, p: nat, t: seq<bool>, q: nat)
    requires k <= maxSfb && i <= Hdc.MAX_SECTIONS
    requires var r := Hdc.Sections(short, maxSfb, k, i, s, p); r.Read? && Agree(s, p, t, q, r.n)
    ensures Aac.Sections(short, maxSfb, k, t, q) == Hdc.Sections(short, maxSfb, k, i, s, p)
    decreases Hdc.MAX_SECTIONS - i
  {
    if k < maxSfb {
      var sec := Hdc.OneSection(short, maxSfb, k, s, p);
      AgreeSplit(s, p, t, q, sec.n, Hdc.Sections(short, maxSfb, sec.value.end, i + 1, s, p + sec.n).n);
      SectionTransfers(short, maxSfb, k, s, p, t, q);
      SectionsTransfer(short, maxSfb, sec.value.end, i + 1, s, p + sec.n, t, q + sec.n);
    }
  }

  lemma GroupTransfers(short: bool, maxSfb: nat, s: seq<bool>, p: nat, t: seq<bool>, q: nat)
    requires var r := Hdc.GroupSections(short, maxSfb, s, p); r.Read? && Agree(s, p, t, q, r.n)
    ensures Aac.GroupSections(short, maxSfb, t, q) == Hdc.GroupSections(short, maxSfb, s, p)
  {
    Hdc.OpenGroup(SEALS, short, maxSfb, s, p);
    Aac.OpenGroup(SEALS, short, maxSfb, t, q);
    SectionsTransfer(short, maxSfb, 0, 0, s, p, t, q);
  }

  lemma {:induction false} SectionDataTransfers(short: bool, maxSfb: nat, groups: nat, s: seq<bool>, p: nat, t: seq<bool>, q: nat)
    requires var r := Hdc.SectionData(short, maxSfb, groups, s, p); r.Read? && Agree(s, p, t, q, r.n)
    ensures Aac.SectionData(short, maxSfb, groups, t, q) == Hdc.SectionData(short, maxSfb, groups, s, p)
    decreases groups
  {
    if groups > 0 {
      var first := Hdc.GroupSections(short, maxSfb, s, p);
      AgreeSplit(s, p, t, q, first.n, Hdc.SectionData(short, maxSfb, groups - 1, s, p + first.n).n);
      GroupTransfers(short, maxSfb, s, p, t, q);
      SectionDataTransfers(short, maxSfb, groups - 1, s, p + first.n, t, q + first.n);
    }
  }

  lemma CodingFold(h: Tables, short: bool, maxSfb: nat, groups: nat, secs: seq<seq<Section>>, n: nat, scales: seq<Value>, m: nat, t: seq<bool>, q: nat)
    requires h.Valid() && Aac.SectionData(short, maxSfb, groups, t, q) == Read(secs, n)
    requires Items(h, ScaleList(secs), t, q + n) == Read(scales, m)
    ensures Aac.CodingData(h, short, maxSfb, groups, t, q) == Read(Coding(secs, scales), n + m)
  {
  }

  lemma CodingTransfers(h: Tables, short: bool, maxSfb: nat, groups: nat, s: seq<bool>, p: nat, t: seq<bool>, q: nat)
    requires h.Valid() && var r := Hdc.CodingData(h, short, maxSfb, groups, s, p); r.Read? && Agree(s, p, t, q, r.n)
    ensures Aac.CodingData(h, short, maxSfb, groups, t, q) == Hdc.CodingData(h, short, maxSfb, groups, s, p)
  {
    var secs := Hdc.SectionData(short, maxSfb, groups, s, p);
    var items := ScaleList(secs.value);
    var scales := Items(h, items, s, p + secs.n);
    AgreeSplit(s, p, t, q, secs.n, scales.n);
    SectionDataTransfers(short, maxSfb, groups, s, p, t, q);
    ItemsLocal(h, items, s, p + secs.n, t, q + secs.n);
    CodingFold(h, short, maxSfb, groups, secs.value, secs.n, scales.value, scales.n, t, q);
  }

  // ---------- noise shaping ----------

  lemma ShortWindowTransfers(h: Tables, s: seq<bool>, p: nat, t: seq<bool>, q: nat)
    requires h.Valid() && var r := Hdc.OneWindow(h, true, s, p); r.Read? && Agree(s, p, t, q, r.n)
    ensures Aac.OneWindow(h, true, t, q) == Hdc.OneWindow(h, true, s, p)
  {
    Hdc.OpenWindow(SEALS, h, true, s, p);
    Aac.OpenWindow(SEALS, h, true, t, q);
    AgreeSplit(s, p, t, q, 1, ShapingData(h, true, Num(s, p, 1), s, p + 1).n);
    NumAgree(s, p, t, q, 1);
    ShapingLocal(h, true, Num(s, p, 1), s, p + 1, t, q + 1);
  }

  lemma {:induction false} ShortTnsTransfers(h: Tables, windows: nat, s: seq<bool>, p: nat, t: seq<bool>, q: nat)
    requires h.Valid() && var r := Hdc.TnsWindows(h, true, windows, s, p); r.Read? && Agree(s, p, t, q, r.n)
    ensures Aac.TnsWindows(h, true, windows, t, q) == Hdc.TnsWindows(h, true, windows, s, p)
    decreases windows
  {
    if windows > 0 {
      var first := Hdc.OneWindow(h, true, s, p);
      AgreeSplit(s, p, t, q, first.n, Hdc.TnsWindows(h, true, windows - 1, s, p + first.n).n);
      ShortWindowTransfers(h, s, p, t, q);
      ShortTnsTransfers(h, windows - 1, s, p + first.n, t, q + first.n);
    }
  }

  // The two bits inserted for long windows state the one filter HDC implies.
  lemma LongTnsTransfers(h: Tables, s: seq<bool>, p: nat, t: seq<bool>, q: nat)
    requires h.Valid() && Num(t, q, 2) == 1
    requires var r := Hdc.TnsWindows(h, false, 1, s, p); r.Read? && Agree(s, p, t, q + 2, r.n)
    ensures var r := Hdc.TnsWindows(h, false, 1, s, p); Aac.TnsWindows(h, false, 1, t, q) == Read(r.value, 2 + r.n)
  {
    var first := Hdc.OneWindow(h, false, s, p);
    assert Hdc.TnsWindows(h, false, 0, s, p + first.n) == Read([], 0);
    Hdc.OpenWindow(SEALS, h, false, s, p);
    Aac.OpenWindow(SEALS, h, false, t, q);
    ShapingLocal(h, false, 1, s, p, t, q + 2);
    assert Aac.TnsWindows(h, false, 0, t, q + 2 + first.n) == Read([], 0);
  }

  function Windows(w: Window): nat { if w.Short() then 8 else 1 }

  ghost predicate TnsFound(h: Tables, w: Window, s: seq<bool>, tns: Hdc.PlacedTns) {
    h.Valid() && (tns.tns.Tns? ==> Hdc.TnsWindows(h, w.Short(), Windows(w), s, tns.at) == Read(tns.tns.windows, tns.len))
  }

  // Inserted filter count and copied fields together are tns_data.
  lemma TnsParses(h: Tables, w: Window, s: seq<bool>, tns: Hdc.PlacedTns, t: seq<bool>, q: nat)
    requires TnsFound(h, w, s, tns) && tns.tns.Tns?
    requires Holds(t, q, CountBits(w) + Cut(s, tns.at, tns.len))
    ensures Aac.TnsWindows(h, w.Short(), Windows(w), t, q) == Read(tns.tns.windows, |CountBits(w)| + tns.len)
  {
    HoldsSplit(t, q, CountBits(w), Cut(s, tns.at, tns.len));
    CutAgrees(s, tns.at, tns.len, t, q + |CountBits(w)|);
    if w.Short() {
      ShortTnsTransfers(h, 8, s, tns.at, t, q);
    } else {
      assert Pow2(2) == 4;
      NumDigits(t, q, 1, 2);
      LongTnsTransfers(h, s, tns.at, t, q);
    }
  }

  lemma ToolsWithTns(h: Tables, w: Window, v: seq<Shaping>, bits: seq<bool>, t: seq<bool>, q: nat)
    requires h.Valid() && Holds(t, q, Digits(0, 1) + (Digits(1, 1) + bits) + Digits(0, 1))
    requires Holds(t, q + 2, bits) ==> Aac.TnsWindows(h, w.Short(), Windows(w), t, q + 2) == Read(v, |bits|)
    ensures Aac.Tools(h, w, t, q) == Read(Tns(v), 3 + |bits|)
  {
    var one := Digits(1, 1);
    HoldsSplit(t, q, Digits(0, 1) + (one + bits), Digits(0, 1));
    HoldsSplit(t, q, Digits(0, 1), one + bits);
    HoldsSplit(t, q + 1, one, bits);
    OneDigit(t, q, 0);
    OneDigit(t, q + 1, 1);
    OneDigit(t, q + 2 + |bits|, 0);
  }

  lemma ToolsWithoutTns(h: Tables, w: Window, t: seq<bool>, q: nat)
    requires h.Valid() && Holds(t, q, Digits(0, 1) + Digits(0, 1) + Digits(0, 1))
    ensures Aac.Tools(h, w, t, q) == Read(NoTns, 3)
  {
    HoldsSplit(t, q, Digits(0, 1) + Digits(0, 1), Digits(0, 1));
    HoldsSplit(t, q, Digits(0, 1), Digits(0, 1));
    OneDigit(t, q, 0);
    OneDigit(t, q + 1, 0);
    OneDigit(t, q + 2, 0);
  }

  lemma ToolsParse(h: Tables, w: Window, s: seq<bool>, tns: Hdc.PlacedTns, t: seq<bool>, q: nat)
    requires TnsFound(h, w, s, tns) && Holds(t, q, ToolBits(w, s, tns))
    ensures Aac.Tools(h, w, t, q) == Read(tns.tns, |ToolBits(w, s, tns)|)
  {
    if tns.tns.NoTns? {
      ToolsWithoutTns(h, w, t, q);
    } else {
      var bits := CountBits(w) + Cut(s, tns.at, tns.len);
      if Holds(t, q + 2, bits) { TnsParses(h, w, s, tns, t, q + 2); }
      ToolsWithTns(h, w, tns.tns.windows, bits, t, q);
    }
  }

  // Wherever the string tools stands, it reads as v.
  ghost predicate ReadsAs(h: Tables, w: Window, v: Tns, tools: seq<bool>) {
    h.Valid() && forall t, q: nat :: Holds(t, q, tools) ==> Aac.Tools(h, w, t, q) == Read(v, |tools|)
  }

  lemma ToolsRead(h: Tables, w: Window, s: seq<bool>, tns: Hdc.PlacedTns)
    requires TnsFound(h, w, s, tns)
    ensures ReadsAs(h, w, tns.tns, ToolBits(w, s, tns))
  {
    forall t, q: nat | Holds(t, q, ToolBits(w, s, tns))
      ensures Aac.Tools(h, w, t, q) == Read(tns.tns, |ToolBits(w, s, tns)|)
    {
      ToolsParse(h, w, s, tns, t, q);
    }
  }

  // ---------- channels ----------

  ghost predicate ChannelFound(h: Tables, w: Window, s: seq<bool>, ch: Hdc.Placed) {
    && h.Valid() && w.maxSfb <= w.NumSwb()
    && Hdc.CodingData(h, w.Short(), w.maxSfb, |w.Groups()|, s, ch.at + 8) == Read(ch.coding, ch.codingLen)
    && Items(h, SpectrumList(w, ch.coding.sections), s, ch.at + 8 + ch.codingLen) == Read(ch.spectrum, ch.specLen)
  }

  lemma RestFold(h: Tables, w: Window, gain: nat, coding: Coding, n: nat, tns: Tns, m: nat, spectrum: seq<Value>, k: nat,
                 t: seq<bool>, q: nat)
    requires h.Valid() && w.maxSfb <= w.NumSwb()
    requires Aac.CodingData(h, w.Short(), w.maxSfb, |w.Groups()|, t, q) == Read(coding, n)
    requires Aac.Tools(h, w, t, q + n) == Read(tns, m)
    requires Items(h, SpectrumList(w, coding.sections), t, q + n + m) == Read(spectrum, k)
    ensures Aac.ChannelRest(h, w, gain, t, q) == Read(Channel(gain, coding, tns, spectrum), n + m + k)
  {
    Aac.OpenRest(SEALS, h, w, gain, t, q);
  }

  lemma RestSplit(s: seq<bool>, tools: seq<bool>, ch: Hdc.Placed, t: seq<bool>, q: nat)
    requires Holds(t, q, RestBits(s, tools, ch))
    ensures |RestBits(s, tools, ch)| == ch.codingLen + |tools| + ch.specLen
    ensures Holds(t, q, Cut(s, ch.at + 8, ch.codingLen))
    ensures Holds(t, q + ch.codingLen, tools)
    ensures Holds(t, q + ch.codingLen + |tools|, Cut(s, ch.at + 8 + ch.codingLen, ch.specLen))
  {
    var a, c := Cut(s, ch.at + 8, ch.codingLen), Cut(s, ch.at + 8 + ch.codingLen, ch.specLen);
    HoldsSplit(t, q, a + tools, c);
    HoldsSplit(t, q, a, tools);
  }

  // The copied spans read the same in their new places, m bits further apart.
  lemma SpansTransfer(h: Tables, short: bool, maxSfb: nat, groups: nat, items: seq<Item>, s: seq<bool>, ch: Hdc.Placed,
                      t: seq<bool>, q: nat, m: nat)
    requires h.Valid() && Hdc.CodingData(h, short, maxSfb, groups, s, ch.at + 8) == Read(ch.coding, ch.codingLen)
    requires Items(h, items, s, ch.at + 8 + ch.codingLen) == Read(ch.spectrum, ch.specLen)
    requires Holds(t, q, Cut(s, ch.at + 8, ch.codingLen))
    requires Holds(t, q + ch.codingLen + m, Cut(s, ch.at + 8 + ch.codingLen, ch.specLen))
    ensures Aac.CodingData(h, short, maxSfb, groups, t, q) == Read(ch.coding, ch.codingLen)
    ensures Items(h, items, t, q + ch.codingLen + m) == Read(ch.spectrum, ch.specLen)
  {
    CutAgrees(s, ch.at + 8, ch.codingLen, t, q);
    CutAgrees(s, ch.at + 8 + ch.codingLen, ch.specLen, t, q + ch.codingLen + m);
    CodingTransfers(h, short, maxSfb, groups, s, ch.at + 8, t, q);
    ItemsLocal(h, items, s, ch.at + 8 + ch.codingLen, t, q + ch.codingLen + m);
  }

  lemma ChannelTransfers(h: Tables, w: Window, s: seq<bool>, gain: nat, tns: Tns, ch: Hdc.Placed, t: seq<bool>, q: nat, m: nat)
    requires ChannelFound(h, w, s, ch) && Aac.Tools(h, w, t, q + ch.codingLen) == Read(tns, m)
    requires Holds(t, q, Cut(s, ch.at + 8, ch.codingLen))
    requires Holds(t, q + ch.codingLen + m, Cut(s, ch.at + 8 + ch.codingLen, ch.specLen))
    ensures Aac.ChannelRest(h, w, gain, t, q)
      == Read(Channel(gain, ch.coding, tns, ch.spectrum), ch.codingLen + m + ch.specLen)
  {
    assert Items(h, SpectrumList(w, ch.coding.sections), s, ch.at + 8 + ch.codingLen) == Read(ch.spectrum, ch.specLen);
    SpansTransfer(h, w.Short(), w.maxSfb, |w.Groups()|, SpectrumList(w, ch.coding.sections), s, ch, t, q, m);
    RestFold(h, w, gain, ch.coding, ch.codingLen, tns, m, ch.spectrum, ch.specLen, t, q);
  }

  lemma RestParses(h: Tables, w: Window, s: seq<bool>, gain: nat, tns: Tns, tools: seq<bool>, ch: Hdc.Placed, t: seq<bool>, q: nat)
    requires ReadsAs(h, w, tns, tools) && ChannelFound(h, w, s, ch) && Holds(t, q, RestBits(s, tools, ch))
    ensures Aac.ChannelRest(h, w, gain, t, q)
      == Read(Channel(gain, ch.coding, tns, ch.spectrum), |RestBits(s, tools, ch)|)
  {
    RestSplit(s, tools, ch, t, q);
    ChannelTransfers(h, w, s, gain, tns, ch, t, q, |tools|);
  }

  // ---------- window fields and stereo mask ----------

  ghost predicate Fits(w: Window) {
    && w.sequence < 4 && w.shape < 2 && w.maxSfb <= w.NumSwb()
    && w.grouping < 128 && (!w.Short() ==> w.grouping == 0)
  }

  lemma LongIcsParses(w: Window, t: seq<bool>, q: nat)
    requires Fits(w) && !w.Short() && Holds(t, q, IcsBits(w))
    ensures Aac.IcsInfo(t, q) == Read(w, 11)
  {
    var a, b, c := Digits(0, 1), Digits(w.sequence, 2), Digits(w.shape, 1);
    var d, e := Digits(w.maxSfb, 6), Digits(0, 1);
    assert IcsBits(w) == a + (b + (c + (d + e)));
    HoldsSplit(t, q, a, b + (c + (d + e)));
    HoldsSplit(t, q + 1, b, c + (d + e));
    HoldsSplit(t, q + 3, c, d + e);
    HoldsSplit(t, q + 4, d, e);
    assert Pow2(1) == 2 && Pow2(2) == 4 && Pow2(6) == 64;
    OneDigit(t, q, 0);
    NumDigits(t, q + 1, w.sequence, 2);
    NumDigits(t, q + 3, w.shape, 1);
    NumDigits(t, q + 4, w.maxSfb, 6);
    OneDigit(t, q + 10, 0);
  }

  lemma ShortIcsParses(w: Window, t: seq<bool>, q: nat)
    requires Fits(w) && w.Short() && Holds(t, q, IcsBits(w))
    ensures Aac.IcsInfo(t, q) == Read(w, 15)
  {
    var a, b, c := Digits(0, 1), Digits(w.sequence, 2), Digits(w.shape, 1);
    var d, e := Digits(w.maxSfb, 4), Digits(w.grouping, 7);
    assert IcsBits(w) == a + (b + (c + (d + e)));
    HoldsSplit(t, q, a, b + (c + (d + e)));
    HoldsSplit(t, q + 1, b, c + (d + e));
    HoldsSplit(t, q + 3, c, d + e);
    HoldsSplit(t, q + 4, d, e);
    assert Pow2(1) == 2 && Pow2(2) == 4 && Pow2(4) == 16 && Pow2(7) == 128;
    OneDigit(t, q, 0);
    NumDigits(t, q + 1, w.sequence, 2);
    NumDigits(t, q + 3, w.shape, 1);
    NumDigits(t, q + 4, w.maxSfb, 4);
    NumDigits(t, q + 8, w.grouping, 7);
  }

  lemma IcsParses(w: Window, t: seq<bool>, q: nat)
    requires Fits(w) && Holds(t, q, IcsBits(w))
    ensures Aac.IcsInfo(t, q) == Read(w, |IcsBits(w)|)
  {
    if w.Short() { ShortIcsParses(w, t, q); } else { LongIcsParses(w, t, q); }
  }

  ghost predicate MsFound(s: seq<bool>, f: Hdc.Parsed) {
    && f.ms.0 < 3
    && f.ms.1 == if f.ms.0 == 1 then Num(s, f.msAt, |f.window.Groups()| * f.window.maxSfb) else 0
  }

  lemma MsParses(s: seq<bool>, f: Hdc.Parsed, t: seq<bool>, q: nat)
    requires MsFound(s, f) && Holds(t, q, MsBits(s, f))
    ensures Aac.MsMask(f.window, t, q) == Read(f.ms, |MsBits(s, f)|)
  {
    var n := |f.window.Groups()| * f.window.maxSfb;
    HoldsSplit(t, q, Digits(f.ms.0, 2), if f.ms.0 == 1 then Cut(s, f.msAt, n) else []);
    assert Pow2(2) == 4;
    NumDigits(t, q, f.ms.0, 2);
    if f.ms.0 == 1 {
      CutAgrees(s, f.msAt, n, t, q + 2);
      NumAgree(s, f.msAt, t, q + 2, n);
    }
  }

  // ---------- elements ----------

  lemma GainParses(s: seq<bool>, p: nat, t: seq<bool>, q: nat)
    requires Holds(t, q, Cut(s, p, 8))
    ensures Num(t, q, 8) == Num(s, p, 8)
  {
    CutAgrees(s, p, 8, t, q);
    NumAgree(s, p, t, q, 8);
  }

  function Channeled(s: seq<bool>, tns: Tns, ch: Hdc.Placed): Channel {
    Channel(Num(s, ch.at, 8), ch.coding, tns, ch.spectrum)
  }

  lemma SingleParses(h: Tables, w: Window, s: seq<bool>, tns: Tns, tools: seq<bool>, ch: Hdc.Placed, t: seq<bool>, q: nat)
    requires ReadsAs(h, w, tns, tools) && ChannelFound(h, w, s, ch) && Fits(w) && Holds(t, q, SingleBits(s, w, tools, ch))
    ensures Aac.SinglePart(h, t, q) == Read(Frame(false, w, 0, 0, [Channeled(s, tns, ch)]), |SingleBits(s, w, tools, ch)|)
  {
    var a, b, c := Cut(s, ch.at, 8), IcsBits(w), RestBits(s, tools, ch);
    HoldsSplit(t, q, a + b, c);
    HoldsSplit(t, q, a, b);
    GainParses(s, ch.at, t, q);
    IcsParses(w, t, q + 8);
    RestParses(h, w, s, Num(s, ch.at, 8), tns, tools, ch, t, q + 8 + |b|);
  }

  lemma GainAndRest(h: Tables, w: Window, s: seq<bool>, tns: Tns, tools: seq<bool>, ch: Hdc.Placed, t: seq<bool>, q: nat)
    requires ReadsAs(h, w, tns, tools) && ChannelFound(h, w, s, ch) && Holds(t, q, Cut(s, ch.at, 8) + RestBits(s, tools, ch))
    ensures Aac.ChannelRest(h, w, Num(t, q, 8), t, q + 8) == Read(Channeled(s, tns, ch), |RestBits(s, tools, ch)|)
  {
    HoldsSplit(t, q, Cut(s, ch.at, 8), RestBits(s, tools, ch));
    GainParses(s, ch.at, t, q);
    RestParses(h, w, s, Num(s, ch.at, 8), tns, tools, ch, t, q + 8);
  }

  // Gain and rest of a channel, wherever they stand.
  ghost predicate ChannelReads(h: Tables, w: Window, v: Channel, bits: seq<bool>) {
    && h.Valid() && w.maxSfb <= w.NumSwb() && |bits| >= 8
    && forall t, q: nat :: Holds(t, q, bits) ==> Aac.ChannelRest(h, w, Num(t, q, 8), t, q + 8) == Read(v, |bits| - 8)
  }

  lemma GainAndRestRead(h: Tables, w: Window, s: seq<bool>, tns: Tns, tools: seq<bool>, ch: Hdc.Placed)
    requires ReadsAs(h, w, tns, tools) && ChannelFound(h, w, s, ch)
    ensures ChannelReads(h, w, Channeled(s, tns, ch), Cut(s, ch.at, 8) + RestBits(s, tools, ch))
  {
    var bits := Cut(s, ch.at, 8) + RestBits(s, tools, ch);
    forall t, q: nat | Holds(t, q, bits)
      ensures Aac.ChannelRest(h, w, Num(t, q, 8), t, q + 8) == Read(Channeled(s, tns, ch), |bits| - 8)
    {
      GainAndRest(h, w, s, tns, tools, ch, t, q);
    }
  }

  lemma PairParses(h: Tables, w: Window, ms: (nat, nat), v: Channel, a: seq<bool>, v': Channel, b: seq<bool>, t: seq<bool>, q: nat)
    requires ChannelReads(h, w, v, a) && ChannelReads(h, w, v', b) && Holds(t, q, a + b)
    ensures Aac.PairPart(h, w, ms, t, q) == Read(Frame(true, w, ms.0, ms.1, [v, v']), |a + b|)
  {
    HoldsSplit(t, q, a, b);
    assert Aac.ChannelRest(h, w, Num(t, q, 8), t, q + 8) == Read(v, |a| - 8);
    assert Aac.ChannelRest(h, w, Num(t, q + |a|, 8), t, q + |a| + 8) == Read(v', |b| - 8);
  }

  // The pair part, wherever it stands.
  ghost predicate PairReads(h: Tables, w: Window, ms: (nat, nat), v: Frame, pair: seq<bool>) {
    && h.Valid() && w.maxSfb <= w.NumSwb()
    && forall t, q: nat :: Holds(t, q, pair) ==> Aac.PairPart(h, w, ms, t, q) == Read(v, |pair|)
  }

  lemma CommonFold(h: Tables, w: Window, n: nat, ms: (nat, nat), m: nat, v: Frame, k: nat, t: seq<bool>, q: nat)
    requires h.Valid() && w.maxSfb <= w.NumSwb() && Bit(t, q)
    requires Aac.IcsInfo(t, q + 1) == Read(w, n)
    requires Aac.MsMask(w, t, q + 1 + n) == Read(ms, m)
    requires Aac.PairPart(h, w, ms, t, q + 1 + n + m) == Read(v, k)
    ensures Aac.CommonPart(h, t, q) == Read(v, 1 + n + m + k)
  {
  }

  // Window fields and mask, wherever they stand.
  ghost predicate HeadReads(w: Window, ms: (nat, nat), b: seq<bool>, c: seq<bool>) {
    && w.maxSfb <= w.NumSwb()
    && (forall t, q: nat :: Holds(t, q, b) ==> Aac.IcsInfo(t, q) == Read(w, |b|))
    && (forall t, q: nat :: Holds(t, q, c) ==> Aac.MsMask(w, t, q) == Read(ms, |c|))
  }

  lemma HeadRead(s: seq<bool>, f: Hdc.Parsed)
    requires Fits(f.window) && MsFound(s, f)
    ensures HeadReads(f.window, f.ms, IcsBits(f.window), MsBits(s, f))
  {
    forall t, q: nat | Holds(t, q, IcsBits(f.window)) ensures Aac.IcsInfo(t, q) == Read(f.window, |IcsBits(f.window)|) {
      IcsParses(f.window, t, q);
    }
    forall t, q: nat | Holds(t, q, MsBits(s, f)) ensures Aac.MsMask(f.window, t, q) == Read(f.ms, |MsBits(s, f)|) {
      MsParses(s, f, t, q);
    }
  }

  lemma CommonParses(h: Tables, w: Window, ms: (nat, nat), v: Frame, b: seq<bool>, c: seq<bool>, pair: seq<bool>, t: seq<bool>, q: nat)
    requires HeadReads(w, ms, b, c) && PairReads(h, w, ms, v, pair) && Holds(t, q, Digits(1, 1) + b + c + pair)
    ensures Aac.CommonPart(h, t, q) == Read(v, |Digits(1, 1) + b + c + pair|)
  {
    CommonSplit(b, c, pair, t, q);
    CommonFold(h, w, |b|, ms, |c|, v, |pair|, t, q);
  }

  lemma CommonSplit(b: seq<bool>, c: seq<bool>, d: seq<bool>, t: seq<bool>, q: nat)
    requires Holds(t, q, Digits(1, 1) + b + c + d)
    ensures Bit(t, q) && Holds(t, q + 1, b) && Holds(t, q + 1 + |b|, c) && Holds(t, q + 1 + |b| + |c|, d)
    ensures |Digits(1, 1) + b + c + d| == 1 + |b| + |c| + |d|
  {
    var a := Digits(1, 1);
    HoldsSplit(t, q, a + b + c, d);
    HoldsSplit(t, q, a + b, c);
    HoldsSplit(t, q, a, b);
    OneDigit(t, q, 1);
  }

  // ---------- the whole block ----------

  ghost predicate Element(h: Tables, id: nat, v: Frame, bits: seq<bool>) {
    && h.Valid() && (id == Aac.ID_SCE || id == Aac.ID_CPE)
    && forall t, q: nat :: Holds(t, q, bits) ==>
         (if id == Aac.ID_SCE then Aac.SinglePart(h, t, q) else Aac.CommonPart(h, t, q)) == Read(v, |bits|)
  }

  lemma BlockParses(h: Tables, id: nat, v: Frame, bits: seq<bool>, t: seq<bool>)
    requires Element(h, id, v, bits) && Holds(t, 0, Digits(id, 3) + Digits(0, 4) + bits + Digits(Aac.ID_END, 3))
    ensures Aac.RawBlock(h, t) == Read(v, 10 + |bits|)
  {
    var a, b, c := Digits(id, 3), Digits(0, 4), Digits(Aac.ID_END, 3);
    HoldsSplit(t, 0, a + b + bits, c);
    HoldsSplit(t, 0, a + b, bits);
    HoldsSplit(t, 0, a, b);
    assert Pow2(3) == 8;
    NumDigits(t, 0, id, 3);
    NumDigits(t, 7 + |bits|, Aac.ID_END, 3);
  }

  // What reading a frame establishes about its parts.
  ghost predicate Found(h: Tables, s: seq<bool>, f: Hdc.Parsed) {
    && 1 <= |f.tns| == |f.placed| <= 2 && Fits(f.window) && MsFound(s, f)
    && (|f.placed| == 1 ==> f.ms == (0, 0))
    && forall c :: 0 <= c < |f.tns| ==> TnsFound(h, f.window, s, f.tns[c]) && ChannelFound(h, f.window, s, f.placed[c])
  }

  lemma ElementReads(h: Tables, s: seq<bool>, f: Hdc.Parsed)
    requires Found(h, s, f)
    ensures Element(h, ElementId(f), Hdc.Meaning(f, s), ElementBits(s, f))
  {
    if |f.placed| == 1 { SingleReads(h, s, f); } else { CommonReads(h, s, f); }
  }

  lemma SingleReads(h: Tables, s: seq<bool>, f: Hdc.Parsed)
    requires Found(h, s, f) && |f.placed| == 1
    ensures Element(h, Aac.ID_SCE, Hdc.Meaning(f, s), ElementBits(s, f))
  {
    var w, tools := f.window, ToolBits(f.window, s, f.tns[0]);
    ToolsRead(h, w, s, f.tns[0]);
    MonoMeaning(s, f);
    forall t, q: nat | Holds(t, q, ElementBits(s, f))
      ensures Aac.SinglePart(h, t, q) == Read(Hdc.Meaning(f, s), |ElementBits(s, f)|)
    {
      SingleParses(h, w, s, f.tns[0].tns, tools, f.placed[0], t, q);
    }
  }

  lemma MonoMeaning(s: seq<bool>, f: Hdc.Parsed)
    requires |f.tns| == |f.placed| == 1 && f.ms == (0, 0)
    ensures Hdc.Meaning(f, s) == Frame(false, f.window, 0, 0, [Channeled(s, f.tns[0].tns, f.placed[0])])
  {
    assert Hdc.ChannelsUpTo(f, s, 1) == [] + [Hdc.ChannelOf(f.tns[0], f.placed[0], s)];
  }

  lemma StereoMeaning(s: seq<bool>, f: Hdc.Parsed)
    requires |f.tns| == |f.placed| == 2
    ensures Hdc.Meaning(f, s) == Frame(true, f.window, f.ms.0, f.ms.1,
      [Channeled(s, f.tns[0].tns, f.placed[0]), Channeled(s, f.tns[1].tns, f.placed[1])])
  {
    assert Hdc.ChannelsUpTo(f, s, 1) == [] + [Hdc.ChannelOf(f.tns[0], f.placed[0], s)];
    assert Hdc.ChannelsUpTo(f, s, 2) == Hdc.ChannelsUpTo(f, s, 1) + [Hdc.ChannelOf(f.tns[1], f.placed[1], s)];
  }

  lemma CommonReads(h: Tables, s: seq<bool>, f: Hdc.Parsed)
    requires Found(h, s, f) && |f.placed| == 2
    ensures Element(h, Aac.ID_CPE, Hdc.Meaning(f, s), ElementBits(s, f))
  {
    var w, v := f.window, Hdc.Meaning(f, s);
    var tools, tools' := ToolBits(w, s, f.tns[0]), ToolBits(w, s, f.tns[1]);
    var pair := PairBits(s, tools, f.placed[0], tools', f.placed[1]);
    ToolsRead(h, w, s, f.tns[0]);
    ToolsRead(h, w, s, f.tns[1]);
    StereoMeaning(s, f);
    HeadRead(s, f);
    GainAndRestRead(h, w, s, f.tns[0].tns, tools, f.placed[0]);
    GainAndRestRead(h, w, s, f.tns[1].tns, tools', f.placed[1]);
    forall t, q: nat | Holds(t, q, pair) ensures Aac.PairPart(h, w, f.ms, t, q) == Read(v, |pair|) {
      PairParses(h, w, f.ms, Channeled(s, f.tns[0].tns, f.placed[0]), Cut(s, f.placed[0].at, 8) + RestBits(s, tools, f.placed[0]),
                 Channeled(s, f.tns[1].tns, f.placed[1]), Cut(s, f.placed[1].at, 8) + RestBits(s, tools', f.placed[1]), t, q);
    }
    forall t, q: nat | Holds(t, q, ElementBits(s, f)) ensures Aac.CommonPart(h, t, q) == Read(v, |ElementBits(s, f)|) {
      CommonParses(h, w, f.ms, v, IcsBits(w), MsBits(s, f), pair, t, q);
    }
  }
}
