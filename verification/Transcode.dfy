/** Main results about the remuxer: the emitted block means what the frame meant,
    and is at most three bytes longer. */
module Transcode {
  import opened Basics
  import opened Arith
  import opened Bits
  import opened Huffman
  import opened AacSyntax
  import opened RawBlock
  import Aac = AacStream
  import Hdc = HdcSyntax

  // ---------- what reading a frame establishes ----------

  function TnsLen(tns: Hdc.PlacedTns): nat { if tns.tns.NoTns? then 1 else 1 + tns.len }

  function TnsLens(all: seq<Hdc.PlacedTns>): nat { if |all| == 0 then 0 else TnsLen(all[0]) + TnsLens(all[1..]) }

  function ChannelLen(ch: Hdc.Placed): nat { 8 + ch.codingLen + ch.specLen }

  function ChannelLens(all: seq<Hdc.Placed>): nat { if |all| == 0 then 0 else ChannelLen(all[0]) + ChannelLens(all[1..]) }

  ghost predicate AllTnsFound(h: Tables, w: Window, s: seq<bool>, all: seq<Hdc.PlacedTns>) {
    forall c :: 0 <= c < |all| ==> TnsFound(h, w, s, all[c])
  }

  lemma {:induction false} TnsList(h: Tables, w: Window, k: nat, s: seq<bool>, p: nat)
    requires h.Valid() && Hdc.AllTns(h, w, k, s, p).Read?
    ensures var r := Hdc.AllTns(h, w, k, s, p); AllTnsFound(h, w, s, r.value) && r.n == TnsLens(r.value)
    decreases k
  {
    if k > 0 {
      var one := Hdc.TnsData(h, w, s, p);
      TnsList(h, w, k - 1, s, p + one.n);
      var rest := Hdc.AllTns(h, w, k - 1, s, p + one.n);
      assert Hdc.AllTns(h, w, k, s, p).value == [one.value] + rest.value;
      assert ([one.value] + rest.value)[1..] == rest.value;
      assert TnsFound(h, w, s, one.value) && one.n == TnsLen(one.value);
    }
  }

  ghost predicate AllChannelsFound(h: Tables, w: Window, s: seq<bool>, all: seq<Hdc.Placed>) {
    forall c :: 0 <= c < |all| ==> ChannelFound(h, w, s, all[c])
  }

  lemma OneChannel(h: Tables, w: Window, s: seq<bool>, p: nat)
    requires h.Valid() && w.maxSfb <= w.NumSwb() && Hdc.ChannelData(h, w, s, p).Read?
    ensures var r := Hdc.ChannelData(h, w, s, p); ChannelFound(h, w, s, r.value) && r.n == ChannelLen(r.value)
  {
    Hdc.OpenChannel(SEALS, h, w, s, p);
  }

  lemma {:induction false} ChannelList(h: Tables, w: Window, k: nat, s: seq<bool>, p: nat)
    requires h.Valid() && w.maxSfb <= w.NumSwb() && Hdc.AllChannels(h, w, k, s, p).Read?
    ensures var r := Hdc.AllChannels(h, w, k, s, p); AllChannelsFound(h, w, s, r.value) && r.n == ChannelLens(r.value)
    decreases k
  {
    if k > 0 {
      var one := Hdc.ChannelData(h, w, s, p);
      OneChannel(h, w, s, p);
      ChannelList(h, w, k - 1, s, p + one.n);
      var rest := Hdc.AllChannels(h, w, k - 1, s, p + one.n);
      assert Hdc.AllChannels(h, w, k, s, p).value == [one.value] + rest.value;
      assert ([one.value] + rest.value)[1..] == rest.value;
    }
  }

  lemma WindowFits(s: seq<bool>, p: nat)
    requires Hdc.WindowInfo(s, p).Read?
    ensures Fits(Hdc.WindowInfo(s, p).value)
  {
    assert Pow2(1) == 2 && Pow2(2) == 4 && Pow2(7) == 128;
  }

  lemma BodyFound(h: Tables, w: Window, ms: (nat, nat), msAt: nat, k: nat, s: seq<bool>, p: nat)
    requires h.Valid() && w.maxSfb <= w.NumSwb() && Hdc.Body(h, w, ms, msAt, k, s, p).Read?
    ensures var r := Hdc.Body(h, w, ms, msAt, k, s, p);
      && AllTnsFound(h, w, s, r.value.tns) && AllChannelsFound(h, w, s, r.value.placed)
      && r.n == TnsLens(r.value.tns) + ChannelLens(r.value.placed)
      && r.value.ms == ms && r.value.msAt == msAt && r.value.window == w
  {
    Hdc.OpenBody(SEALS, h, w, ms, msAt, k, s, p);
    TnsList(h, w, k, s, p);
    ChannelList(h, w, k, s, p + Hdc.AllTns(h, w, k, s, p).n);
  }

  function MsLen(f: Hdc.Parsed): nat {
    if |f.placed| == 1 then 0
    else 2 + if f.ms.0 == 1 then |f.window.Groups()| * f.window.maxSfb else 0
  }

  function ContentLen(f: Hdc.Parsed): nat {
    3 + (if f.window.Short() then 15 else 10) + MsLen(f) + (TnsLens(f.tns) + ChannelLens(f.placed))
  }

  // The two bits of ms are a number below four.
  lemma MsRead(w: Window, s: seq<bool>, p: nat)
    requires Hdc.MsInfo(w, s, p).Read?
    ensures var r := Hdc.MsInfo(w, s, p);
      && r.value.0 < 3
      && r.value.1 == (if r.value.0 == 1 then Num(s, p + 2, |w.Groups()| * w.maxSfb) else 0)
      && r.n == 2 + if r.value.0 == 1 then |w.Groups()| * w.maxSfb else 0
  {
    assert Pow2(2) == 4;
  }

  lemma BodyIsFound(h: Tables, w: Window, ms: (nat, nat), msAt: nat, k: nat, s: seq<bool>, p: nat)
    requires h.Valid() && Fits(w) && 1 <= k <= 2 && Hdc.Body(h, w, ms, msAt, k, s, p).Read?
    requires ms.0 < 3 && ms.1 == (if ms.0 == 1 then Num(s, msAt, |w.Groups()| * w.maxSfb) else 0)
    requires k == 1 ==> ms == (0, 0)
    ensures var r := Hdc.Body(h, w, ms, msAt, k, s, p);
      && Found(h, s, r.value) && r.n == TnsLens(r.value.tns) + ChannelLens(r.value.placed)
      && r.value.window == w && r.value.ms == ms && |r.value.placed| == k
  {
    BodyFound(h, w, ms, msAt, k, s, p);
  }

  lemma FrameFound(h: Tables, s: seq<bool>)
    requires h.Valid() && Hdc.Content(h, s).Read?
    ensures var r := Hdc.Content(h, s); Found(h, s, r.value) && r.n == ContentLen(r.value)
  {
    Hdc.OpenContent(SEALS, h, s);
    var k, win := Hdc.Channels(s), Hdc.WindowInfo(s, 3);
    WindowFits(s, 3);
    if k == 2 {
      MsRead(win.value, s, 3 + win.n);
      var ms := Hdc.MsInfo(win.value, s, 3 + win.n);
      BodyIsFound(h, win.value, ms.value, 3 + win.n + 2, 2, s, 3 + win.n + ms.n);
    } else {
      BodyIsFound(h, win.value, (0, 0), 3 + win.n + 2, 1, s, 3 + win.n);
    }
  }

  // ---------- main results ----------

  /** Meaning is preserved: for every frame the HDC reader accepts, the standard
      reader finds in the emitted block, and in anything that starts with it, the
      same channels, window, grouping, stereo mask, noise shaping, gains,
      sections, scale factor codewords and spectral codewords. */
  lemma MeaningPreserved(h: Tables, s: seq<bool>, t: seq<bool>)
    requires h.Valid() && Hdc.Frame(h, s).Read? && Holds(t, 0, Block(s, Hdc.Frame(h, s).value))
    ensures var f := Hdc.Frame(h, s).value; Aac.RawBlock(h, t) == Read(Hdc.Meaning(f, s), |Block(s, f)|)
  {
    var f := Hdc.Frame(h, s).value;
    FrameFound(h, s);
    ElementReads(h, s, f);
    OpenBlock(SEALS, s, f);
    BlockParses(h, ElementId(f), Hdc.Meaning(f, s), ElementBits(s, f), t);
  }

  lemma ToolLen(w: Window, s: seq<bool>, tns: Hdc.PlacedTns)
    ensures |ToolBits(w, s, tns)| <= TnsLen(tns) + if w.Short() then 2 else 4
  {
  }

  lemma ElementLen(s: seq<bool>, f: Hdc.Parsed)
    requires 1 <= |f.tns| == |f.placed| <= 2
    ensures |ElementBits(s, f)| <= ContentLen(f) + 7
  {
    var w := f.window;
    ToolLen(w, s, f.tns[0]);
    if |f.placed| == 1 {
      assert TnsLens(f.tns) == TnsLen(f.tns[0]) + TnsLens(f.tns[1..]);
      assert ChannelLens(f.placed) == ChannelLen(f.placed[0]) + ChannelLens(f.placed[1..]);
    } else {
      ToolLen(w, s, f.tns[1]);
      assert f.tns[1..][1..] == [] && f.placed[1..][1..] == [];
      assert TnsLens(f.tns[1..]) == TnsLen(f.tns[1]);
      assert ChannelLens(f.placed[1..]) == ChannelLen(f.placed[1]);
    }
  }

  /** The block is at most 17 bits longer than the bits read, so its bytes are at
      most three more than the packet's. */
  lemma BlockGrowth(h: Tables, s: seq<bool>)
    requires h.Valid() && Hdc.Frame(h, s).Read?
    ensures |Block(s, Hdc.Frame(h, s).value)| <= Hdc.Frame(h, s).n + 17 <= |s| + 17
  {
    FrameFound(h, s);
    OpenBlock(SEALS, s, Hdc.Frame(h, s).value);
    ElementLen(s, Hdc.Frame(h, s).value);
  }

  // ---------- the copied spans ----------

  // Wherever a channel part stands, its two spans carry the bits of the source.
  lemma SpansStand(s: seq<bool>, tools: seq<bool>, ch: Hdc.Placed, t: seq<bool>, q: nat)
    requires Holds(t, q, RestBits(s, tools, ch))
    ensures Agree(s, ch.at + 8, t, q, ch.codingLen)
    ensures Agree(s, ch.at + 8 + ch.codingLen, t, q + ch.codingLen + |tools|, ch.specLen)
  {
    RestSplit(s, tools, ch, t, q);
    CutAgrees(s, ch.at + 8, ch.codingLen, t, q);
    CutAgrees(s, ch.at + 8 + ch.codingLen, ch.specLen, t, q + ch.codingLen + |tools|);
  }

  // The two spans of a channel stand in t from q on, m bits apart.
  ghost predicate Copied(s: seq<bool>, ch: Hdc.Placed, t: seq<bool>, q: nat, m: nat) {
    && Agree(s, ch.at + 8, t, q, ch.codingLen)
    && Agree(s, ch.at + 8 + ch.codingLen, t, q + ch.codingLen + m, ch.specLen)
  }

  lemma FourPlaces(g: seq<bool>, r: seq<bool>, g': seq<bool>, r': seq<bool>, t: seq<bool>, q: nat)
    requires |g| == |g'| == 8 && Holds(t, q, g + r + (g' + r'))
    ensures Holds(t, q + 8, r) && Holds(t, q + 16 + |r|, r')
  {
    HoldsSplit(t, q, g + r, g' + r');
    HoldsSplit(t, q, g, r);
    HoldsSplit(t, q + 8 + |r|, g', r');
  }

  lemma PairSpans(s: seq<bool>, tools: seq<bool>, ch: Hdc.Placed, tools': seq<bool>, ch': Hdc.Placed, t: seq<bool>, q: nat)
    requires Holds(t, q, PairBits(s, tools, ch, tools', ch'))
    ensures Copied(s, ch, t, q + 8, |tools|)
    ensures Copied(s, ch', t, q + 16 + |RestBits(s, tools, ch)|, |tools'|)
  {
    var r, r' := RestBits(s, tools, ch), RestBits(s, tools', ch');
    FourPlaces(Cut(s, ch.at, 8), r, Cut(s, ch'.at, 8), r', t, q);
    SpansStand(s, tools, ch, t, q + 8);
    SpansStand(s, tools', ch', t, q + 16 + |r|);
  }

  lemma ElementStands(start: seq<bool>, element: seq<bool>, end: seq<bool>, t: seq<bool>)
    requires |start| == 7 && Holds(t, 0, start + element + end)
    ensures Holds(t, 7, element)
  {
    HoldsSplit(t, 0, start + element, end);
    HoldsSplit(t, 0, start, element);
  }

  lemma LastPlace(g: seq<bool>, b: seq<bool>, r: seq<bool>, t: seq<bool>, q: nat)
    requires Holds(t, q, g + b + r)
    ensures Holds(t, q + |g| + |b|, r)
  {
    HoldsSplit(t, q, g + b, r);
  }

  lemma SingleSpans(s: seq<bool>, w: Window, tools: seq<bool>, ch: Hdc.Placed, t: seq<bool>, q: nat)
    requires Holds(t, q, SingleBits(s, w, tools, ch))
    ensures Copied(s, ch, t, q + 8 + |IcsBits(w)|, |tools|)
  {
    LastPlace(Cut(s, ch.at, 8), IcsBits(w), RestBits(s, tools, ch), t, q);
    SpansStand(s, tools, ch, t, q + 8 + |IcsBits(w)|);
  }

  // Where the spans of channel c start in the block.
  function SpansAt(s: seq<bool>, f: Hdc.Parsed, c: nat): nat
    requires c < |f.tns| == |f.placed| <= 2
  {
    var b := |IcsBits(f.window)|;
    if |f.placed| == 1 then 15 + b
    else 16 + b + |MsBits(s, f)| + if c == 0 then 0 else 8 + |RestBits(s, ToolBits(f.window, s, f.tns[0]), f.placed[0])|
  }

  lemma CommonSpans(s: seq<bool>, b: seq<bool>, c: seq<bool>, tools: seq<bool>, ch: Hdc.Placed, tools': seq<bool>, ch': Hdc.Placed,
                    t: seq<bool>, q: nat, at: nat, at': nat)
    requires Holds(t, q, Digits(1, 1) + b + c + PairBits(s, tools, ch, tools', ch'))
    requires at == q + 9 + |b| + |c| && at' == at + 8 + |RestBits(s, tools, ch)|
    ensures Copied(s, ch, t, at, |tools|)
    ensures Copied(s, ch', t, at', |tools'|)
  {
    CommonSplit(b, c, PairBits(s, tools, ch, tools', ch'), t, q);
    PairSpans(s, tools, ch, tools', ch', t, q + 1 + |b| + |c|);
  }

  lemma PairElementSpans(s: seq<bool>, f: Hdc.Parsed, t: seq<bool>)
    requires |f.tns| == |f.placed| == 2 && Holds(t, 7, ElementBits(s, f))
    ensures Copied(s, f.placed[0], t, SpansAt(s, f, 0), |ToolBits(f.window, s, f.tns[0])|)
    ensures Copied(s, f.placed[1], t, SpansAt(s, f, 1), |ToolBits(f.window, s, f.tns[1])|)
  {
    CommonSpans(s, IcsBits(f.window), MsBits(s, f), ToolBits(f.window, s, f.tns[0]), f.placed[0],
                ToolBits(f.window, s, f.tns[1]), f.placed[1], t, 7, SpansAt(s, f, 0), SpansAt(s, f, 1));
  }

  lemma SingleElementSpans(s: seq<bool>, f: Hdc.Parsed, t: seq<bool>)
    requires |f.tns| == |f.placed| == 1 && Holds(t, 7, ElementBits(s, f))
    ensures Copied(s, f.placed[0], t, SpansAt(s, f, 0), |ToolBits(f.window, s, f.tns[0])|)
  {
    SingleSpans(s, f.window, ToolBits(f.window, s, f.tns[0]), f.placed[0], t, 7);
  }

  lemma BlockElement(s: seq<bool>, f: Hdc.Parsed, t: seq<bool>)
    requires 1 <= |f.tns| == |f.placed| <= 2 && Holds(t, 0, Block(s, f))
    ensures Holds(t, 7, ElementBits(s, f))
  {
    OpenBlock(SEALS, s, f);
    ElementStands(Digits(ElementId(f), 3) + Digits(0, 4), ElementBits(s, f), Digits(Aac.ID_END, 3), t);
  }

  /** The section and scale factor span and the spectral span of every channel
      stand in the block bit for bit as they stood in the frame. */
  lemma SpansCopied(s: seq<bool>, f: Hdc.Parsed, t: seq<bool>, c: nat)
    requires c < |f.tns| == |f.placed| <= 2 && Holds(t, 0, Block(s, f))
    ensures Copied(s, f.placed[c], t, SpansAt(s, f, c), |ToolBits(f.window, s, f.tns[c])|)
  {
    BlockElement(s, f, t);
    if |f.placed| == 1 {
      SingleElementSpans(s, f, t);
    } else {
      PairElementSpans(s, f, t);
    }
  }
}
