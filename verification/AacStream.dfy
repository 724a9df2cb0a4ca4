/** The standard syntax of a raw data block with one single or one channel pair
    element (ISO/IEC 14496-3, subpart 4, section 4.4.2), read strictly: every
    element lies inside the block. */
module AacStream {
  import opened Basics
  import opened Bits
  import opened Huffman
  import opened AacSyntax

  const ID_SCE := 0
  const ID_CPE := 1
  const ID_END := 7

  function LenBits(short: bool): nat { if short then 3 else 5 }

  function EscLen(short: bool): nat { if short then 7 else 31 }

  // sect_len: increments until one is not the escape value.
  function SectionLength(short: bool, t: seq<bool>, q: nat): (r: Parse<nat>)
    ensures r.Read? ==> q + r.n <= |t|
    decreases |t| - q
  {
    var incr := Num(t, q, LenBits(short));
    if q + LenBits(short) > |t| then Fail
    else if incr != EscLen(short) then Read(incr, LenBits(short))
    else
      match SectionLength(short, t, q + LenBits(short))
      case Fail => Fail
      case Read(len, n) => Read(incr + len, LenBits(short) + n)
  }

  // Codebook and length of the section that starts at band k.
  function SectionParts(short: bool, maxSfb: nat, k: nat, t: seq<bool>, q: nat): (r: Parse<Section>)
    ensures r.Read? ==> r.value.start == k <= r.value.end <= maxSfb && r.n > 0 && q + r.n <= |t|
  {
    if q + 4 > |t| || Num(t, q, 4) == 12 then Fail
    else
      match SectionLength(short, t, q + 4)
      case Fail => Fail
      case Read(len, n) => if k + len > maxSfb then Fail else Read(Section(Num(t, q, 4), k, k + len), 4 + n)
  }

  function OneSection(short: bool, maxSfb: nat, k: nat, t: seq<bool>, q: nat): (r: Parse<Section>)
    ensures r.Read? ==> r.value.start == k <= r.value.end <= maxSfb && r.n > 0 && q + r.n <= |t|
  {
    SealedSection(SEALS, short, maxSfb, k, t, q)
  }

  function SealedSection(seals: seq<bool>, short: bool, maxSfb: nat, k: nat, t: seq<bool>, q: nat): (r: Parse<Section>)
    ensures r.Read? ==> r.value.start == k <= r.value.end <= maxSfb && r.n > 0 && q + r.n <= |t|
  {
    if |seals| > 0 then SealedSection(seals[1..], short, maxSfb, k, t, q) else SectionParts(short, maxSfb, k, t, q)
  }

  lemma {:induction false} OpenSection(seals: seq<bool>, short: bool, maxSfb: nat, k: nat, t: seq<bool>, q: nat)
    ensures SealedSection(seals, short, maxSfb, k, t, q) == SectionParts(short, maxSfb, k, t, q)
  {
    if |seals| > 0 { OpenSection(seals[1..], short, maxSfb, k, t, q); }
  }

  // section_data of one group, from band k on.
  function Sections(short: bool, maxSfb: nat, k: nat, t: seq<bool>, q: nat): Parse<seq<Section>>
    requires k <= maxSfb
    decreases |t| - q
  {
    if k == maxSfb then Read([], 0)
    else
      match OneSection(short, maxSfb, k, t, q)
      case Fail => Fail
      case Read(sec, n) => Prepend([sec], n, Sections(short, maxSfb, sec.end, t, q + n))
  }

  // All sections of one group.
  function GroupParts(short: bool, maxSfb: nat, t: seq<bool>, q: nat): Parse<seq<Section>> {
    Sections(short, maxSfb, 0, t, q)
  }

  function GroupSections(short: bool, maxSfb: nat, t: seq<bool>, q: nat): Parse<seq<Section>>
  {
    SealedGroup(SEALS, short, maxSfb, t, q)
  }

  function SealedGroup(seals: seq<bool>, short: bool, maxSfb: nat, t: seq<bool>, q: nat): Parse<seq<Section>>
  {
    if |seals| > 0 then SealedGroup(seals[1..], short, maxSfb, t, q) else GroupParts(short, maxSfb, t, q)
  }

  lemma {:induction false} OpenGroup(seals: seq<bool>, short: bool, maxSfb: nat, t: seq<bool>, q: nat)
    ensures SealedGroup(seals, short, maxSfb, t, q) == GroupParts(short, maxSfb, t, q)
  {
    if |seals| > 0 { OpenGroup(seals[1..], short, maxSfb, t, q); }
  }

  function SectionData(short: bool, maxSfb: nat, groups: nat, t: seq<bool>, q: nat): Parse<seq<seq<Section>>>
    decreases groups, short, maxSfb, t, q
  {
    if groups == 0 then Read([], 0)
    else
      match GroupSections(short, maxSfb, t, q)
      case Fail => Fail
      case Read(secs, n) => Prepend([secs], n, SectionData(short, maxSfb, groups - 1, t, q + n))
  }

  function CodingData(h: Tables, short: bool, maxSfb: nat, groups: nat, t: seq<bool>, q: nat): Parse<Coding>
    requires h.Valid()
  {
    match SectionData(short, maxSfb, groups, t, q)
    case Fail => Fail
    case Read(secs, n) =>
      match Items(h, ScaleList(secs), t, q + n)
      case Fail => Fail
      case Read(scales, m) => Read(Coding(secs, scales), n + m)
  }

  // tns_data: the number of filters precedes each window.
  function WindowParts(h: Tables, short: bool, t: seq<bool>, q: nat): Parse<Shaping>
    requires h.Valid()
  {
    var bits := if short then 1 else 2;
    match ShapingData(h, short, Num(t, q, bits), t, q + bits)
    case Fail => Fail
    case Read(shaping, n) => Read(shaping, bits + n)
  }

  function OneWindow(h: Tables, short: bool, t: seq<bool>, q: nat): Parse<Shaping>
    requires h.Valid()
  {
    SealedWindow(SEALS, h, short, t, q)
  }

  function SealedWindow(seals: seq<bool>, h: Tables, short: bool, t: seq<bool>, q: nat): Parse<Shaping>
    requires h.Valid()
  {
    if |seals| > 0 then SealedWindow(seals[1..], h, short, t, q) else WindowParts(h, short, t, q)
  }

  lemma {:induction false} OpenWindow(seals: seq<bool>, h: Tables, short: bool, t: seq<bool>, q: nat)
    requires h.Valid()
    ensures SealedWindow(seals, h, short, t, q) == WindowParts(h, short, t, q)
  {
    if |seals| > 0 { OpenWindow(seals[1..], h, short, t, q); }
  }

  function TnsWindows(h: Tables, short: bool, windows: nat, t: seq<bool>, q: nat): Parse<seq<Shaping>>
    requires h.Valid()
    decreases windows, h, short, t, q
  {
    if windows == 0 then Read([], 0)
    else
      match OneWindow(h, short, t, q)
      case Fail => Fail
      case Read(shaping, n) => Prepend([shaping], n, TnsWindows(h, short, windows - 1, t, q + n))
  }

  // Pulse data (absent), noise shaping, gain control (absent).
  function Tools(h: Tables, w: Window, t: seq<bool>, q: nat): Parse<Tns>
    requires h.Valid()
  {
    if Bit(t, q) then Fail
    else if !Bit(t, q + 1) then (if Bit(t, q + 2) then Fail else Read(NoTns, 3))
    else
      match TnsWindows(h, w.Short(), if w.Short() then 8 else 1, t, q + 2)
      case Fail => Fail
      case Read(windows, n) => if Bit(t, q + 2 + n) then Fail else Read(Tns(windows), n + 3)
  }

  // individual_channel_stream after the global gain and the window fields.
  function RestParts(h: Tables, w: Window, gain: nat, t: seq<bool>, q: nat): Parse<Channel>
    requires h.Valid() && w.maxSfb <= w.NumSwb()
  {
    match CodingData(h, w.Short(), w.maxSfb, |w.Groups()|, t, q)
    case Fail => Fail
    case Read(coding, n) =>
      match Tools(h, w, t, q + n)
      case Fail => Fail
      case Read(tns, m) =>
        match Items(h, SpectrumList(w, coding.sections), t, q + n + m)
        case Fail => Fail
        case Read(spectrum, k) => Read(Channel(gain, coding, tns, spectrum), n + m + k)
  }

  function ChannelRest(h: Tables, w: Window, gain: nat, t: seq<bool>, q: nat): Parse<Channel>
    requires h.Valid() && w.maxSfb <= w.NumSwb()
  {
    SealedRest(SEALS, h, w, gain, t, q)
  }

  function SealedRest(seals: seq<bool>, h: Tables, w: Window, gain: nat, t: seq<bool>, q: nat): Parse<Channel>
    requires h.Valid() && w.maxSfb <= w.NumSwb()
  {
    if |seals| > 0 then SealedRest(seals[1..], h, w, gain, t, q) else RestParts(h, w, gain, t, q)
  }

  lemma {:induction false} OpenRest(seals: seq<bool>, h: Tables, w: Window, gain: nat, t: seq<bool>, q: nat)
    requires h.Valid() && w.maxSfb <= w.NumSwb()
    ensures SealedRest(seals, h, w, gain, t, q) == RestParts(h, w, gain, t, q)
  {
    if |seals| > 0 { OpenRest(seals[1..], h, w, gain, t, q); }
  }

  // ics_info without prediction.
  function IcsInfo(t: seq<bool>, q: nat): (r: Parse<Window>)
    ensures r.Read? ==> r.value.maxSfb <= r.value.NumSwb()
  {
    var sequence, shape := Num(t, q + 1, 2), Num(t, q + 3, 1);
    if Bit(t, q) then Fail
    else if sequence == EIGHT_SHORT then
      var w := Window(sequence, shape, Num(t, q + 4, 4), Num(t, q + 8, 7));
      if w.maxSfb > w.NumSwb() then Fail else Read(w, 15)
    else
      var w := Window(sequence, shape, Num(t, q + 4, 6), 0);
      if w.maxSfb > w.NumSwb() || Bit(t, q + 10) then Fail else Read(w, 11)
  }

  // ms_mask_present and, if it is 1, one bit per band.
  function MsMask(w: Window, t: seq<bool>, q: nat): Parse<(nat, nat)> {
    var ms := Num(t, q, 2);
    if ms == 3 then Fail
    else if ms != 1 then Read((ms, 0), 2)
    else Read((ms, Num(t, q + 2, |w.Groups()| * w.maxSfb)), 2 + |w.Groups()| * w.maxSfb)
  }

  function SinglePart(h: Tables, t: seq<bool>, q: nat): Parse<Frame>
    requires h.Valid()
  {
    match IcsInfo(t, q + 8)
    case Fail => Fail
    case Read(w, n) =>
      match ChannelRest(h, w, Num(t, q, 8), t, q + 8 + n)
      case Fail => Fail
      case Read(channel, m) => Read(Frame(false, w, 0, 0, [channel]), 8 + n + m)
  }

  function PairPart(h: Tables, w: Window, ms: (nat, nat), t: seq<bool>, q: nat): Parse<Frame>
    requires h.Valid() && w.maxSfb <= w.NumSwb()
  {
    match ChannelRest(h, w, Num(t, q, 8), t, q + 8)
    case Fail => Fail
    case Read(first, n) =>
      match ChannelRest(h, w, Num(t, q + 8 + n, 8), t, q + 8 + n + 8)
      case Fail => Fail
      case Read(second, m) => Read(Frame(true, w, ms.0, ms.1, [first, second]), 8 + n + 8 + m)
  }

  // channel_pair_element with a common window.
  function CommonPart(h: Tables, t: seq<bool>, q: nat): Parse<Frame>
    requires h.Valid()
  {
    if !Bit(t, q) then Fail
    else
      match IcsInfo(t, q + 1)
      case Fail => Fail
      case Read(w, n) =>
        match MsMask(w, t, q + 1 + n)
        case Fail => Fail
        case Read(ms, m) =>
          match PairPart(h, w, ms, t, q + 1 + n + m)
          case Fail => Fail
          case Read(frame, k) => Read(frame, 1 + n + m + k)
  }

  /** raw_data_block: one element, the end marker, and nothing past the end. */
  function RawBlock(h: Tables, t: seq<bool>): Parse<Frame>
    requires h.Valid()
  {
    var id := Num(t, 0, 3);
    var element := if id == ID_SCE then SinglePart(h, t, 7) else if id == ID_CPE then CommonPart(h, t, 7) else Fail;
    match element
    case Fail => Fail
    case Read(frame, n) =>
      if Num(t, 7 + n, 3) != ID_END || 7 + n + 3 > |t| then Fail else Read(frame, 7 + n + 3)
  }
}
