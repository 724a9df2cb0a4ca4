/** The HDC frame syntax as src/hdc2aac_remux.c:213-531 reads it: the fields come
    in another order than in AAC, the block ends without a marker, bits past the
    end read as zero, and section data has limits of its own. */
module HdcSyntax {
  import opened Basics
  import opened Bits
  import opened Huffman
  import opened AacSyntax

  const MAX_SECTIONS := 60
  const ID_FIL := 6

  function SectBits(short: bool): nat { if short then 3 else 5 }

  function SectEsc(short: bool): nat { if short then 7 else 31 }

  function SectLim(short: bool): nat { if short then 120 else 51 }

  // The inner loop over escape values, len so far.
  function Length(short: bool, len: nat, s: seq<bool>, p: nat): Parse<nat>
    requires len <= SectLim(short)
    decreases SectLim(short) - len, short, s, p
  {
    var incr := Num(s, p, SectBits(short));
    if incr != SectEsc(short) then Read(len + incr, SectBits(short))
    else if len + incr > SectLim(short) then Fail
    else
      match Length(short, len + incr, s, p + SectBits(short))
      case Fail => Fail
      case Read(v, n) => Read(v, SectBits(short) + n)
  }

  // Codebook and length of the section that starts at band k.
  function SectionParts(short: bool, maxSfb: nat, k: nat, s: seq<bool>, p: nat): (r: Parse<Section>)
    ensures r.Read? ==> r.value.start == k <= r.value.end <= maxSfb
  {
    if Num(s, p, 4) == 12 then Fail
    else
      match Length(short, 0, s, p + 4)
      case Fail => Fail
      case Read(len, n) =>
        if len > SectLim(short) || k + len > maxSfb then Fail else Read(Section(Num(s, p, 4), k, k + len), 4 + n)
  }

  function OneSection(short: bool, maxSfb: nat, k: nat, s: seq<bool>, p: nat): (r: Parse<Section>)
    ensures r.Read? ==> r.value.start == k <= r.value.end <= maxSfb
  {
    SealedSection(SEALS, short, maxSfb, k, s, p)
  }

  function SealedSection(seals: seq<bool>, short: bool, maxSfb: nat, k: nat, s: seq<bool>, p: nat): (r: Parse<Section>)
    ensures r.Read? ==> r.value.start == k <= r.value.end <= maxSfb
  {
    if |seals| > 0 then SealedSection(seals[1..], short, maxSfb, k, s, p) else SectionParts(short, maxSfb, k, s, p)
  }

  lemma {:induction false} OpenSection(seals: seq<bool>, short: bool, maxSfb: nat, k: nat, s: seq<bool>, p: nat)
    ensures SealedSection(seals, short, maxSfb, k, s, p) == SectionParts(short, maxSfb, k, s, p)
  {
    if |seals| > 0 { OpenSection(seals[1..], short, maxSfb, k, s, p); }
  }

  // The sections of one group from band k on, i of them already read.
  function Sections(short: bool, maxSfb: nat, k: nat, i: nat, s: seq<bool>, p: nat): Parse<seq<Section>>
    requires k <= maxSfb && i <= MAX_SECTIONS
    decreases MAX_SECTIONS - i, short, maxSfb, k, s, p
  {
    if k == maxSfb then Read([], 0)
    else if i == MAX_SECTIONS || i >= SectLim(short) then Fail
    else
      match OneSection(short, maxSfb, k, s, p)
      case Fail => Fail
      case Read(sec, n) => Prepend([sec], n, Sections(short, maxSfb, sec.end, i + 1, s, p + n))
  }

  // All sections of one group.
  function GroupParts(short: bool, maxSfb: nat, s: seq<bool>, p: nat): Parse<seq<Section>> {
    Sections(short, maxSfb, 0, 0, s, p)
  }

  function GroupSections(short: bool, maxSfb: nat, s: seq<bool>, p: nat): Parse<seq<Section>>
  {
    SealedGroup(SEALS, short, maxSfb, s, p)
  }

  function SealedGroup(seals: seq<bool>, short: bool, maxSfb: nat, s: seq<bool>, p: nat): Parse<seq<Section>>
  {
    if |seals| > 0 then SealedGroup(seals[1..], short, maxSfb, s, p) else GroupParts(short, maxSfb, s, p)
  }

  lemma {:induction false} OpenGroup(seals: seq<bool>, short: bool, maxSfb: nat, s: seq<bool>, p: nat)
    ensures SealedGroup(seals, short, maxSfb, s, p) == GroupParts(short, maxSfb, s, p)
  {
    if |seals| > 0 { OpenGroup(seals[1..], short, maxSfb, s, p); }
  }

  function SectionData(short: bool, maxSfb: nat, groups: nat, s: seq<bool>, p: nat): Parse<seq<seq<Section>>>
    decreases groups, short, maxSfb, s, p
  {
    if groups == 0 then Read([], 0)
    else
      match GroupSections(short, maxSfb, s, p)
      case Fail => Fail
      case Read(secs, n) => Prepend([secs], n, SectionData(short, maxSfb, groups - 1, s, p + n))
  }

  function CodingData(h: Tables, short: bool, maxSfb: nat, groups: nat, s: seq<bool>, p: nat): Parse<Coding>
    requires h.Valid()
  {
    match SectionData(short, maxSfb, groups, s, p)
    case Fail => Fail
    case Read(secs, n) =>
      match Items(h, ScaleList(secs), s, p + n)
      case Fail => Fail
      case Read(scales, m) => Read(Coding(secs, scales), n + m)
  }

  // A long window always has one filter; short windows state their number.
  function WindowParts(h: Tables, short: bool, s: seq<bool>, p: nat): Parse<Shaping>
    requires h.Valid()
  {
    var bits := if short then 1 else 0;
    match ShapingData(h, short, if short then Num(s, p, 1) else 1, s, p + bits)
    case Fail => Fail
    case Read(shaping, n) => if p + bits + n > |s| then Fail else Read(shaping, bits + n)
  }

  function OneWindow(h: Tables, short: bool, s: seq<bool>, p: nat): Parse<Shaping>
    requires h.Valid()
  {
    SealedWindow(SEALS, h, short, s, p)
  }

  function SealedWindow(seals: seq<bool>, h: Tables, short: bool, s: seq<bool>, p: nat): Parse<Shaping>
    requires h.Valid()
  {
    if |seals| > 0 then SealedWindow(seals[1..], h, short, s, p) else WindowParts(h, short, s, p)
  }

  lemma {:induction false} OpenWindow(seals: seq<bool>, h: Tables, short: bool, s: seq<bool>, p: nat)
    requires h.Valid()
    ensures SealedWindow(seals, h, short, s, p) == WindowParts(h, short, s, p)
  {
    if |seals| > 0 { OpenWindow(seals[1..], h, short, s, p); }
  }

  function TnsWindows(h: Tables, short: bool, windows: nat, s: seq<bool>, p: nat): Parse<seq<Shaping>>
    requires h.Valid()
    decreases windows, h, short, s, p
  {
    if windows == 0 then Read([], 0)
    else
      match OneWindow(h, short, s, p)
      case Fail => Fail
      case Read(shaping, n) => Prepend([shaping], n, TnsWindows(h, short, windows - 1, s, p + n))
  }

  // Noise shaping, with the place of what follows the presence bit.
  datatype PlacedTns = PlacedTns(tns: Tns, at: nat, len: nat)

  function TnsData(h: Tables, w: Window, s: seq<bool>, p: nat): Parse<PlacedTns>
    requires h.Valid()
  {
    if !Bit(s, p) then Read(PlacedTns(NoTns, 0, 0), 1)
    else
      match TnsWindows(h, w.Short(), if w.Short() then 8 else 1, s, p + 1)
      case Fail => Fail
      case Read(windows, n) => Read(PlacedTns(Tns(windows), p + 1, n), 1 + n)
  }

  // A channel, with the places its parts were found at.
  datatype Placed = Placed(at: nat, codingLen: nat, specLen: nat, coding: Coding, spectrum: seq<Value>)

  function ChannelParts(h: Tables, w: Window, s: seq<bool>, p: nat): Parse<Placed>
    requires h.Valid() && w.maxSfb <= w.NumSwb()
  {
    match CodingData(h, w.Short(), w.maxSfb, |w.Groups()|, s, p + 8)
    case Fail => Fail
    case Read(coding, n) =>
      var items := SpectrumList(w, coding.sections);
      match Items(h, items, s, p + 8 + n)
      case Fail => Fail
      case Read(spectrum, m) =>
        if |items| > 0 && p + 8 + n + m > |s| then Fail
        else Read(Placed(p, n, m, coding, spectrum), 8 + n + m)
  }

  // parse_channel, behind a counter as in AacSyntax.
  function ChannelData(h: Tables, w: Window, s: seq<bool>, p: nat): Parse<Placed>
    requires h.Valid() && w.maxSfb <= w.NumSwb()
  {
    SealedChannel(SEALS, h, w, s, p)
  }

  function SealedChannel(seals: seq<bool>, h: Tables, w: Window, s: seq<bool>, p: nat): Parse<Placed>
    requires h.Valid() && w.maxSfb <= w.NumSwb()
  {
    if |seals| > 0 then SealedChannel(seals[1..], h, w, s, p) else ChannelParts(h, w, s, p)
  }

  lemma {:induction false} OpenChannel(seals: seq<bool>, h: Tables, w: Window, s: seq<bool>, p: nat)
    requires h.Valid() && w.maxSfb <= w.NumSwb()
    ensures SealedChannel(seals, h, w, s, p) == ChannelParts(h, w, s, p)
  {
    if |seals| > 0 { OpenChannel(seals[1..], h, w, s, p); }
  }

  // The block type: one channel, two, or none this receiver knows.
  function Channels(s: seq<bool>): nat {
    var kind := Num(s, 0, 3);
    if kind == 0 || kind == 1 || kind == 5 || kind == 6 then 1
    else if kind == 2 || kind == 7 then 2
    else 0
  }

  function WindowInfo(s: seq<bool>, p: nat): (r: Parse<Window>)
    ensures r.Read? ==> r.value.maxSfb <= r.value.NumSwb()
  {
    var shape, sequence := Num(s, p + 1, 1), Num(s, p + 2, 2);
    var short := sequence == EIGHT_SHORT;
    var w := Window(sequence, shape, Num(s, p + 4, if short then 4 else 6), if short then Num(s, p + 8, 7) else 0);
    if Bit(s, p) || w.maxSfb > w.NumSwb() then Fail else Read(w, if short then 15 else 10)
  }

  function MsInfo(w: Window, s: seq<bool>, p: nat): Parse<(nat, nat)> {
    var ms := Num(s, p, 2);
    if ms == 3 then Fail
    else if ms != 1 then Read((ms, 0), 2)
    else Read((ms, Num(s, p + 2, |w.Groups()| * w.maxSfb)), 2 + |w.Groups()| * w.maxSfb)
  }

  // The shaping data of k channels, then the channels themselves.
  function AllTns(h: Tables, w: Window, k: nat, s: seq<bool>, p: nat): (r: Parse<seq<PlacedTns>>)
    requires h.Valid()
    ensures r.Read? ==> |r.value| == k
    decreases k, h, w, s, p
  {
    if k == 0 then Read([], 0)
    else
      match TnsData(h, w, s, p)
      case Fail => Fail
      case Read(tns, n) => Prepend([tns], n, AllTns(h, w, k - 1, s, p + n))
  }

  function AllChannels(h: Tables, w: Window, k: nat, s: seq<bool>, p: nat): (r: Parse<seq<Placed>>)
    requires h.Valid() && w.maxSfb <= w.NumSwb()
    ensures r.Read? ==> |r.value| == k
    decreases k, h, w, s, p
  {
    if k == 0 then Read([], 0)
    else
      match ChannelData(h, w, s, p)
      case Fail => Fail
      case Read(placed, n) => Prepend([placed], n, AllChannels(h, w, k - 1, s, p + n))
  }

  // What parse_hdc_frame finds.
  datatype Parsed = Parsed(window: Window, ms: (nat, nat), msAt: nat, tns: seq<PlacedTns>, placed: seq<Placed>)

  predicate Stereo(f: Parsed) { |f.placed| == 2 }

  function BodyParts(h: Tables, w: Window, ms: (nat, nat), msAt: nat, k: nat, s: seq<bool>, p: nat): (r: Parse<Parsed>)
    requires h.Valid() && w.maxSfb <= w.NumSwb()
    ensures r.Read? ==> |r.value.tns| == |r.value.placed| == k && r.value.window == w
  {
    match AllTns(h, w, k, s, p)
    case Fail => Fail
    case Read(tns, n) =>
      match AllChannels(h, w, k, s, p + n)
      case Fail => Fail
      case Read(placed, m) => Read(Parsed(w, ms, msAt, tns, placed), n + m)
  }

  function Body(h: Tables, w: Window, ms: (nat, nat), msAt: nat, k: nat, s: seq<bool>, p: nat): (r: Parse<Parsed>)
    requires h.Valid() && w.maxSfb <= w.NumSwb()
    ensures r.Read? ==> |r.value.tns| == |r.value.placed| == k && r.value.window == w
  {
    SealedBody(SEALS, h, w, ms, msAt, k, s, p)
  }

  function SealedBody(seals: seq<bool>, h: Tables, w: Window, ms: (nat, nat), msAt: nat, k: nat, s: seq<bool>, p: nat): (r: Parse<Parsed>)
    requires h.Valid() && w.maxSfb <= w.NumSwb()
    ensures r.Read? ==> |r.value.tns| == |r.value.placed| == k && r.value.window == w
  {
    if |seals| > 0 then SealedBody(seals[1..], h, w, ms, msAt, k, s, p) else BodyParts(h, w, ms, msAt, k, s, p)
  }

  lemma {:induction false} OpenBody(seals: seq<bool>, h: Tables, w: Window, ms: (nat, nat), msAt: nat, k: nat, s: seq<bool>, p: nat)
    requires h.Valid() && w.maxSfb <= w.NumSwb()
    ensures SealedBody(seals, h, w, ms, msAt, k, s, p) == BodyParts(h, w, ms, msAt, k, s, p)
  {
    if |seals| > 0 { OpenBody(seals[1..], h, w, ms, msAt, k, s, p); }
  }

  function ContentParts(h: Tables, s: seq<bool>): (r: Parse<Parsed>)
    requires h.Valid()
    ensures r.Read? ==> |r.value.tns| == |r.value.placed| == Channels(s) && 1 <= Channels(s) <= 2
    ensures r.Read? ==> r.value.window.maxSfb <= r.value.window.NumSwb()
  {
    var k := Channels(s);
    if k == 0 then Fail
    else
      match WindowInfo(s, 3)
      case Fail => Fail
      case Read(w, n) =>
        match if k == 2 then MsInfo(w, s, 3 + n) else Read((0, 0), 0)
        case Fail => Fail
        case Read(ms, m) =>
          match Body(h, w, ms, 3 + n + 2, k, s, 3 + n + m)
          case Fail => Fail
          case Read(f, l) => Read(f, 3 + n + m + l)
  }

  function Content(h: Tables, s: seq<bool>): (r: Parse<Parsed>)
    requires h.Valid()
    ensures r.Read? ==> |r.value.tns| == |r.value.placed| == Channels(s) && 1 <= Channels(s) <= 2
    ensures r.Read? ==> r.value.window.maxSfb <= r.value.window.NumSwb()
  {
    SealedContent(SEALS, h, s)
  }

  function SealedContent(seals: seq<bool>, h: Tables, s: seq<bool>): (r: Parse<Parsed>)
    requires h.Valid()
    ensures r.Read? ==> |r.value.tns| == |r.value.placed| == Channels(s) && 1 <= Channels(s) <= 2
    ensures r.Read? ==> r.value.window.maxSfb <= r.value.window.NumSwb()
  {
    if |seals| > 0 then SealedContent(seals[1..], h, s) else ContentParts(h, s)
  }

  lemma {:induction false} OpenContent(seals: seq<bool>, h: Tables, s: seq<bool>)
    requires h.Valid()
    ensures SealedContent(seals, h, s) == ContentParts(h, s)
  {
    if |seals| > 0 { OpenContent(seals[1..], h, s); }
  }

  // Where reading stops: a fill element is looked for after the channels.
  function Stop(s: seq<bool>, p: nat): nat {
    if p <= |s| && Num(s, p, 3) == ID_FIL then p + 4 else p
  }

  /** parse_hdc_frame: the content, unless reading ran past the end. */
  function Frame(h: Tables, s: seq<bool>): (r: Parse<Parsed>)
    requires h.Valid()
    ensures r.Read? ==> |r.value.tns| == |r.value.placed| == Channels(s) && 1 <= Channels(s) <= 2
    ensures r.Read? ==> r.value.window.maxSfb <= r.value.window.NumSwb() && r.n <= |s|
  {
    match Content(h, s)
    case Fail => Fail
    case Read(f, n) => if Stop(s, n) > |s| then Fail else Read(f, n)
  }

  // What the frame says.
  function Meaning(f: Parsed, s: seq<bool>): AacSyntax.Frame
    requires |f.tns| == |f.placed|
  {
    AacSyntax.Frame(|f.placed| == 2, f.window, f.ms.0, f.ms.1, ChannelsUpTo(f, s, |f.placed|))
  }

  function ChannelsUpTo(f: Parsed, s: seq<bool>, n: nat): seq<Channel>
    requires n <= |f.tns| == |f.placed|
  {
    if n == 0 then [] else ChannelsUpTo(f, s, n - 1) + [ChannelOf(f.tns[n - 1], f.placed[n - 1], s)]
  }

  function ChannelOf(tns: PlacedTns, placed: Placed, s: seq<bool>): Channel {
    Channel(Num(s, placed.at, 8), placed.coding, tns.tns, placed.spectrum)
  }
}
