/** hdc2aac_remux_frame (src/hdc2aac_remux.c:424-657): parse, emit, and frame the
    block with an ADTS header. */
module Remuxer {
  import opened Basics
  import opened Arith
  import opened Bits
  import opened Huffman
  import opened AacSyntax
  import opened BitIo
  import opened RawBlock
  import opened HdcParser
  import Hdc = HdcSyntax
  import Aac = AacStream
  import Transcode

  // ---------- parse_hdc_frame ----------

  datatype TnsSpan = TnsSpan(present: bool, longSkip: bool, from: nat, to: nat)

  ghost predicate TnsOf(span: TnsSpan, tns: Hdc.PlacedTns, short: bool) {
    && (span.present <==> tns.tns.Tns?)
    && (span.present ==> span.from == tns.at && span.to == tns.at + tns.len && span.longSkip == !short)
  }

  // parsed_frame_t
  class ParsedFrame {
    const ics: Ics
    var stereo: bool
    var msPresent: nat
    var msFrom: nat
    var msLen: nat
    var tns: seq<TnsSpan>
    var ch: seq<ChannelSpan>
    var hasFil: bool

    constructor ()
      ensures fresh(ics)
    {
      ics := new Ics();
      stereo, hasFil := false, false;
      msPresent, msFrom, msLen := 0, 0, 0;
      tns, ch := [], [];
    }

    ghost predicate Matches(f: Hdc.Parsed)
      reads this, ics
    {
      && stereo == (|f.placed| == 2) && ics.Fields() == f.window && msPresent == f.ms.0
      && (msPresent == 1 ==> msFrom == f.msAt && msLen == |f.window.Groups()| * f.window.maxSfb)
      && TnsMatch(tns, f.tns, f.window.Short()) && SpansMatch(ch, f.placed)
    }
  }

  ghost predicate TnsMatch(spans: seq<TnsSpan>, tns: seq<Hdc.PlacedTns>, short: bool) {
    |spans| == |tns| && forall c :: 0 <= c < |tns| ==> TnsOf(spans[c], tns[c], short)
  }

  ghost predicate SpansMatch(spans: seq<ChannelSpan>, placed: seq<Hdc.Placed>) {
    |spans| == |placed| && forall c :: 0 <= c < |placed| ==> SpanOf(spans[c], placed[c])
  }

  // The window fields and the grouping they imply.
  method ParseWindow(br: BitReader, ics: Ics) returns (rc: int)
    modifies br, ics
    ensures var r := Hdc.WindowInfo(br.S(), old(br.pos));
      && (rc == 0 <==> r.Read?) && (rc == 0 || rc == -1)
      && (rc == 0 ==> ics.Grouped(r.value) && br.pos == old(br.pos) + r.n)
  {
    var reserved := br.ReadBit();
    if reserved != 0 {
      return -1;
    }
    ics.windowShape := br.ReadBits(1);
    ics.windowSequence := br.ReadBits(2);
    ics.sfg := 0;
    if ics.windowSequence == EIGHT_SHORT {
      ics.maxSfb := br.ReadBits(4);
      ics.sfg := br.ReadBits(7);
    } else {
      ics.maxSfb := br.ReadBits(6);
    }
    rc := WindowGrouping(ics);
  }

  // The stereo mask: its two-bit mode, and where its bits are.
  method ParseMs(br: BitReader, ics: Ics) returns (rc: int, ms: nat, from: nat, len: nat)
    requires ics.Grouped(ics.Fields())
    modifies br
    ensures var r := Hdc.MsInfo(ics.Fields(), br.S(), old(br.pos));
      && (rc == 0 <==> r.Read?) && (rc == 0 || rc == -1)
      && (rc == 0 ==> ms == r.value.0 && br.pos == old(br.pos) + r.n)
      && (rc == 0 && ms == 1 ==> from == old(br.pos) + 2 && len == |ics.Fields().Groups()| * ics.maxSfb)
  {
    from, len := 0, 0;
    ms := br.ReadBits(2);
    if ms == 3 {
      return -1, ms, from, len;
    }
    if ms == 1 {
      from := br.pos;
      len := |ics.groupLen| * ics.maxSfb;
      br.Skip(len);
    }
    rc := 0;
  }

  // The presence bit of a channel's noise shaping, and the shaping.
  method ParseOneTns(h: Tables, br: BitReader, ics: Ics) returns (rc: int, span: TnsSpan)
    requires h.Valid() && ics.Grouped(ics.Fields())
    modifies br
    ensures var r := Hdc.TnsData(h, ics.Fields(), br.S(), old(br.pos));
      && (rc == 0 <==> r.Read?) && (rc == 0 || rc == -1)
      && (rc == 0 ==> TnsOf(span, r.value, ics.Fields().Short()) && br.pos == old(br.pos) + r.n)
  {
    span := TnsSpan(false, false, 0, 0);
    var present := br.ReadBit();
    if present == 0 {
      return 0, span;
    }
    var from, to, longSkip;
    rc, from, to, longSkip := ParseTns(h, br, ics);
    span := TnsSpan(true, longSkip, from, to);
  }

  method ParseAllTns(h: Tables, br: BitReader, ics: Ics, n: nat) returns (rc: int, spans: seq<TnsSpan>)
    requires h.Valid() && ics.Grouped(ics.Fields())
    modifies br
    ensures var r := Hdc.AllTns(h, ics.Fields(), n, br.S(), old(br.pos));
      && (rc == 0 <==> r.Read?) && (rc == 0 || rc == -1)
      && (rc == 0 ==> TnsMatch(spans, r.value, ics.Fields().Short()) && br.pos == old(br.pos) + r.n)
  {
    ghost var s, p, w := br.S(), br.pos, ics.Fields();
    ghost var done: seq<Hdc.PlacedTns> := [];
    PrependNothing(Hdc.AllTns(h, w, n, s, p));
    spans := [];
    var c := 0;
    while c < n
      invariant 0 <= c <= n && br.pos >= p && TnsMatch(spans, done, w.Short())
      invariant Hdc.AllTns(h, w, n, s, p) == Prepend(done, br.pos - p, Hdc.AllTns(h, w, n - c, s, br.pos))
    {
      ghost var q, one := br.pos, Hdc.TnsData(h, w, s, br.pos);
      var span;
      rc, span := ParseOneTns(h, br, ics);
      if rc < 0 {
        return -1, spans;
      }
      PrependTwice(done, q - p, one.value, one.n, Hdc.AllTns(h, w, n - c - 1, s, br.pos));
      done := done + [one.value];
      spans := spans + [span];
      c := c + 1;
    }
    rc := 0;
  }

  method ParseAllChannels(h: Tables, br: BitReader, ics: Ics, n: nat) returns (rc: int, spans: seq<ChannelSpan>)
    requires h.Valid() && ics.Grouped(ics.Fields())
    modifies br, ics`sections, ics`books
    ensures ics.Grouped(old(ics.Fields()))
    ensures var r := Hdc.AllChannels(h, ics.Fields(), n, br.S(), old(br.pos));
      && (rc == 0 <==> r.Read?) && (rc == 0 || rc == -1)
      && (rc == 0 ==> SpansMatch(spans, r.value) && br.pos == old(br.pos) + r.n)
  {
    ghost var s, p, w := br.S(), br.pos, ics.Fields();
    ghost var done: seq<Hdc.Placed> := [];
    PrependNothing(Hdc.AllChannels(h, w, n, s, p));
    spans := [];
    var c := 0;
    while c < n
      invariant 0 <= c <= n && br.pos >= p && SpansMatch(spans, done) && ics.Grouped(w)
      invariant Hdc.AllChannels(h, w, n, s, p) == Prepend(done, br.pos - p, Hdc.AllChannels(h, w, n - c, s, br.pos))
    {
      ghost var q, one := br.pos, Hdc.ChannelData(h, w, s, br.pos);
      var span;
      rc, span := ParseChannel(h, br, ics);
      if rc < 0 {
        return -1, spans;
      }
      PrependTwice(done, q - p, one.value, one.n, Hdc.AllChannels(h, w, n - c - 1, s, br.pos));
      done := done + [one.value];
      spans := spans + [span];
      c := c + 1;
    }
    rc := 0;
  }

  // The two loops over the channels.
  method ParseBody(h: Tables, br: BitReader, pf: ParsedFrame, numCh: nat, ghost ms: (nat, nat), ghost msAt: nat) returns (rc: int)
    requires h.Valid() && pf.ics.Grouped(pf.ics.Fields())
    modifies br, pf`tns, pf`ch, pf.ics`sections, pf.ics`books
    ensures pf.ics.Fields() == old(pf.ics.Fields())
    ensures var r := Hdc.Body(h, pf.ics.Fields(), ms, msAt, numCh, br.S(), old(br.pos));
      && (rc == 0 <==> r.Read?) && (rc == 0 || rc == -1)
      && (rc == 0 ==>
           && br.pos == old(br.pos) + r.n && r.value.ms == ms && r.value.msAt == msAt
           && TnsMatch(pf.tns, r.value.tns, pf.ics.Fields().Short()) && SpansMatch(pf.ch, r.value.placed))
  {
    Hdc.OpenBody(SEALS, h, pf.ics.Fields(), ms, msAt, numCh, br.S(), br.pos);
    var tns, ch;
    rc, tns := ParseAllTns(h, br, pf.ics, numCh);
    if rc < 0 {
      return -1;
    }
    pf.tns := tns;
    rc, ch := ParseAllChannels(h, br, pf.ics, numCh);
    if rc < 0 {
      return -1;
    }
    pf.ch := ch;
  }

  // The stereo fields, if there are two channels.
  method ParseStereo(br: BitReader, pf: ParsedFrame) returns (rc: int)
    requires pf.ics.Grouped(pf.ics.Fields())
    modifies br, pf`msPresent, pf`msFrom, pf`msLen
    ensures var r := if pf.stereo then Hdc.MsInfo(pf.ics.Fields(), br.S(), old(br.pos)) else Read((0, 0), 0);
      && (rc == 0 <==> r.Read?) && (rc == 0 || rc == -1)
      && (rc == 0 ==> br.pos == old(br.pos) + r.n && pf.msPresent == r.value.0)
      && (rc == 0 && pf.msPresent == 1 ==>
           pf.msFrom == old(br.pos) + 2 && pf.msLen == |pf.ics.Fields().Groups()| * pf.ics.maxSfb)
  {
    pf.msPresent := 0;
    rc := 0;
    if pf.stereo {
      var ms, from, len;
      rc, ms, from, len := ParseMs(br, pf.ics);
      pf.msPresent, pf.msFrom, pf.msLen := ms, from, len;
    }
  }

  // The three bits that say whether the frame is mono, stereo or not supported.
  method ParseBlockType(br: BitReader, pf: ParsedFrame) returns (rc: int)
    requires br.pos == 0
    modifies br, pf`stereo
    ensures (rc == 0 <==> Hdc.Channels(br.S()) != 0) && (rc == 0 || rc == -1)
    ensures rc == 0 ==> br.pos == 3 && pf.stereo == (Hdc.Channels(br.S()) == 2)
  {
    var blockType := br.ReadBits(3);
    if blockType == 0 || blockType == 1 || blockType == 5 || blockType == 6 {
      pf.stereo := false;
    } else if blockType == 2 || blockType == 7 {
      pf.stereo := true;
    } else {
      return -1;
    }
    rc := 0;
  }

  // Everything up to the last channel.
  method ParseContent(h: Tables, br: BitReader, pf: ParsedFrame) returns (rc: int)
    requires h.Valid() && br.pos == 0
    modifies br, pf, pf.ics
    ensures var r := Hdc.Content(h, br.S());
      && (rc == 0 <==> r.Read?) && (rc == 0 || rc == -1)
      && (rc == 0 ==> pf.Matches(r.value) && br.pos == r.n)
  {
    Hdc.OpenContent(SEALS, h, br.S());
    rc := ParseBlockType(br, pf);
    if rc < 0 {
      return -1;
    }
    rc := ParseWindow(br, pf.ics);
    if rc < 0 {
      return -1;
    }
    ghost var at := br.pos;
    rc := ParseStereo(br, pf);
    if rc < 0 {
      return -1;
    }
    ghost var ms := if pf.stereo then Hdc.MsInfo(pf.ics.Fields(), br.S(), at).value else (0, 0);
    rc := ParseBody(h, br, pf, if pf.stereo then 2 else 1, ms, at + 2);
  }

  /** parse_hdc_frame accepts exactly the frames of the HDC syntax. */
  method ParseHdcFrame(h: Tables, buf: seq<Byte>, pf: ParsedFrame) returns (rc: int)
    requires h.Valid()
    modifies pf, pf.ics
    ensures var r := Hdc.Frame(h, ToBits(buf));
      (rc == 0 <==> r.Read?) && (rc == 0 || rc == -1) && (rc == 0 ==> pf.Matches(r.value))
  {
    var br := new BitReader(buf, 0);
    rc := ParseContent(h, br, pf);
    if rc < 0 {
      return -1;
    }
    if !br.Overrun() {
      var id := br.Peek(3);
      if id == Hdc.ID_FIL {
        br.Skip(3);
        var fil := br.ReadBit();
        if fil == 1 {
          pf.hasFil := true;
        }
      }
    }
    if br.Overrun() {
      return -1;
    }
  }

  // ---------- emit_raw_block ----------

  // emit_ics_info
  method EmitIcsInfo(bw: BitWriter, ics: Ics)
    requires bw.Valid()
    modifies bw, bw.buf
    ensures bw.Valid() && bw.wanted == old(bw.wanted) + IcsBits(ics.Fields())
  {
    ghost var was, w := bw.wanted, ics.Fields();
    bw.WriteBits(0, 1);
    bw.WriteBits(ics.windowSequence, 2);
    bw.WriteBits(ics.windowShape, 1);
    if ics.windowSequence == EIGHT_SHORT {
      bw.WriteBits(ics.maxSfb, 4);
      bw.WriteBits(ics.sfg, 7);
      Five(was, Digits(0, 1), Digits(w.sequence, 2), Digits(w.shape, 1), Digits(w.maxSfb, 4), Digits(w.grouping, 7));
    } else {
      bw.WriteBits(ics.maxSfb, 6);
      bw.WriteBits(0, 1);
      Five(was, Digits(0, 1), Digits(w.sequence, 2), Digits(w.shape, 1), Digits(w.maxSfb, 6), Digits(0, 1));
    }
  }

  lemma Five(z: seq<bool>, a: seq<bool>, b: seq<bool>, c: seq<bool>, d: seq<bool>, e: seq<bool>)
    ensures z + a + b + c + d + e == z + (a + b + c + (d + e))
  {
  }

  lemma Three(z: seq<bool>, a: seq<bool>, b: seq<bool>, c: seq<bool>)
    ensures z + a + b + c == z + (a + b + c)
  {
  }

  // Presence bit, inserted count, and the copied fields.
  method EmitTns(bw: BitWriter, src: seq<Byte>, tns: TnsSpan, ghost w: Window, ghost placed: Hdc.PlacedTns)
    requires bw.Valid() && TnsOf(tns, placed, w.Short())
    modifies bw, bw.buf
    ensures bw.Valid() && bw.wanted == old(bw.wanted) + TnsBits(w, ToBits(src), placed)
  {
    ghost var was := bw.wanted;
    if !tns.present {
      bw.WriteBits(0, 1);
      return;
    }
    bw.WriteBits(1, 1);
    EmitCount(bw, tns.longSkip, w);
    bw.CopyBits(src, tns.from, tns.to - tns.from);
    TwoInside(was, Digits(1, 1), CountBits(w), Cut(ToBits(src), placed.at, placed.len));
  }

  // The number of filters, for long windows.
  method EmitCount(bw: BitWriter, longSkip: bool, ghost w: Window)
    requires bw.Valid() && longSkip == !w.Short()
    modifies bw, bw.buf
    ensures bw.Valid() && bw.wanted == old(bw.wanted) + CountBits(w)
  {
    if longSkip {
      bw.WriteBits(1, 2);
    } else {
      assert bw.wanted + [] == bw.wanted;
    }
  }

  lemma TwoInside(z: seq<bool>, a: seq<bool>, b: seq<bool>, c: seq<bool>)
    ensures z + a + b + c == z + (a + (b + c))
  {
  }

  // Pulse data absent, noise shaping, gain control absent.
  method EmitTools(bw: BitWriter, src: seq<Byte>, tns: TnsSpan, ghost w: Window, ghost placed: Hdc.PlacedTns)
    requires bw.Valid() && TnsOf(tns, placed, w.Short())
    modifies bw, bw.buf
    ensures bw.Valid() && bw.wanted == old(bw.wanted) + ToolBits(w, ToBits(src), placed)
  {
    ghost var was := bw.wanted;
    bw.WriteBits(0, 1);
    EmitTns(bw, src, tns, w, placed);
    bw.WriteBits(0, 1);
    Three(was, Digits(0, 1), TnsBits(w, ToBits(src), placed), Digits(0, 1));
  }

  // emit_channel_body after the global gain and the window fields.
  method EmitRest(bw: BitWriter, src: seq<Byte>, tns: TnsSpan, ch: ChannelSpan,
                  ghost w: Window, ghost placedTns: Hdc.PlacedTns, ghost placed: Hdc.Placed)
    requires bw.Valid() && TnsOf(tns, placedTns, w.Short()) && SpanOf(ch, placed)
    modifies bw, bw.buf
    ensures bw.Valid() && bw.wanted == old(bw.wanted) + RestBits(ToBits(src), ToolBits(w, ToBits(src), placedTns), placed)
  {
    ghost var was := bw.wanted;
    bw.CopyBits(src, ch.secsfFrom, ch.secsfTo - ch.secsfFrom);
    EmitTools(bw, src, tns, w, placedTns);
    bw.CopyBits(src, ch.specFrom, ch.specTo - ch.specFrom);
    RestJoin(was, ToBits(src), ToolBits(w, ToBits(src), placedTns), placed);
  }

  lemma RestJoin(z: seq<bool>, s: seq<bool>, tools: seq<bool>, placed: Hdc.Placed)
    ensures z + Cut(s, placed.at + 8, placed.codingLen) + tools + Cut(s, placed.at + 8 + placed.codingLen, placed.specLen)
      == z + RestBits(s, tools, placed)
  {
    Three(z, Cut(s, placed.at + 8, placed.codingLen), tools, Cut(s, placed.at + 8 + placed.codingLen, placed.specLen));
  }

  // The single channel element after its tag.
  method EmitSingle(bw: BitWriter, src: seq<Byte>, pf: ParsedFrame, ghost f: Hdc.Parsed)
    requires bw.Valid() && pf.Matches(f) && |f.tns| == |f.placed| == 1
    modifies bw, bw.buf
    ensures bw.Valid() && bw.wanted == old(bw.wanted) + ElementBits(ToBits(src), f)
  {
    ghost var was, s, w := bw.wanted, ToBits(src), f.window;
    assert TnsOf(pf.tns[0], f.tns[0], w.Short()) && SpanOf(pf.ch[0], f.placed[0]);
    bw.CopyBits(src, pf.ch[0].ggPos, 8);
    EmitIcsInfo(bw, pf.ics);
    EmitRest(bw, src, pf.tns[0], pf.ch[0], w, f.tns[0], f.placed[0]);
    Three(was, Cut(s, f.placed[0].at, 8), IcsBits(w), RestBits(s, ToolBits(w, s, f.tns[0]), f.placed[0]));
  }

  // Global gain and rest of one channel of a pair.
  method EmitPaired(bw: BitWriter, src: seq<Byte>, tns: TnsSpan, ch: ChannelSpan,
                    ghost w: Window, ghost placedTns: Hdc.PlacedTns, ghost placed: Hdc.Placed)
    requires bw.Valid() && TnsOf(tns, placedTns, w.Short()) && SpanOf(ch, placed)
    modifies bw, bw.buf
    ensures bw.Valid() && bw.wanted == old(bw.wanted)
      + (Cut(ToBits(src), placed.at, 8) + RestBits(ToBits(src), ToolBits(w, ToBits(src), placedTns), placed))
  {
    ghost var was := bw.wanted;
    bw.CopyBits(src, ch.ggPos, 8);
    EmitRest(bw, src, tns, ch, w, placedTns, placed);
    assert was + Cut(ToBits(src), placed.at, 8) + RestBits(ToBits(src), ToolBits(w, ToBits(src), placedTns), placed)
        == was + (Cut(ToBits(src), placed.at, 8) + RestBits(ToBits(src), ToolBits(w, ToBits(src), placedTns), placed));
  }

  // The stereo mask.
  method EmitMs(bw: BitWriter, src: seq<Byte>, pf: ParsedFrame, ghost f: Hdc.Parsed)
    requires bw.Valid() && pf.Matches(f)
    modifies bw, bw.buf
    ensures bw.Valid() && bw.wanted == old(bw.wanted) + MsBits(ToBits(src), f)
  {
    ghost var was := bw.wanted;
    bw.WriteBits(pf.msPresent, 2);
    if pf.msPresent == 1 {
      bw.CopyBits(src, pf.msFrom, pf.msLen);
      assert was + Digits(f.ms.0, 2) + Cut(ToBits(src), f.msAt, pf.msLen) == was + (Digits(f.ms.0, 2) + Cut(ToBits(src), f.msAt, pf.msLen));
    } else {
      assert was + Digits(f.ms.0, 2) == was + (Digits(f.ms.0, 2) + []);
    }
  }

  // The channel pair element after its tag.
  method EmitPair(bw: BitWriter, src: seq<Byte>, pf: ParsedFrame, ghost f: Hdc.Parsed)
    requires bw.Valid() && pf.Matches(f) && |f.tns| == |f.placed| == 2
    modifies bw, bw.buf
    ensures bw.Valid() && bw.wanted == old(bw.wanted) + ElementBits(ToBits(src), f)
  {
    ghost var was, s, w := bw.wanted, ToBits(src), f.window;
    assert TnsOf(pf.tns[0], f.tns[0], w.Short()) && SpanOf(pf.ch[0], f.placed[0]);
    assert TnsOf(pf.tns[1], f.tns[1], w.Short()) && SpanOf(pf.ch[1], f.placed[1]);
    bw.WriteBits(1, 1);
    EmitIcsInfo(bw, pf.ics);
    EmitMs(bw, src, pf, f);
    ghost var head := bw.wanted;
    EmitPaired(bw, src, pf.tns[0], pf.ch[0], w, f.tns[0], f.placed[0]);
    EmitPaired(bw, src, pf.tns[1], pf.ch[1], w, f.tns[1], f.placed[1]);
    ghost var a := Cut(s, f.placed[0].at, 8) + RestBits(s, ToolBits(w, s, f.tns[0]), f.placed[0]);
    ghost var b := Cut(s, f.placed[1].at, 8) + RestBits(s, ToolBits(w, s, f.tns[1]), f.placed[1]);
    PairJoin(was, Digits(1, 1), IcsBits(w), MsBits(s, f), a, b);
  }

  lemma PairJoin(z: seq<bool>, a: seq<bool>, b: seq<bool>, c: seq<bool>, d: seq<bool>, e: seq<bool>)
    ensures z + a + b + c + d + e == z + (a + b + c + (d + e))
  {
    Five(z, a, b, c, d, e);
  }

  // The element and the end marker.
  method EmitBlock(bw: BitWriter, src: seq<Byte>, pf: ParsedFrame, ghost f: Hdc.Parsed)
    requires bw.buf.Length == MAX_FRAME_BYTES && pf.Matches(f) && 1 <= |f.tns| == |f.placed| <= 2
    modifies bw, bw.buf
    ensures bw.Valid() && bw.wanted == Block(ToBits(src), f)
  {
    bw.Reset();
    if pf.stereo {
      bw.WriteBits(Aac.ID_CPE, 3);
      bw.WriteBits(0, 4);
      EmitPair(bw, src, pf, f);
    } else {
      bw.WriteBits(Aac.ID_SCE, 3);
      bw.WriteBits(0, 4);
      EmitSingle(bw, src, pf, f);
    }
    bw.WriteBits(Aac.ID_END, 3);
    OpenBlock(SEALS, ToBits(src), f);
    assert [] + Digits(ElementId(f), 3) == Digits(ElementId(f), 3);
  }

  // wb_align, the overflow check, and the length in bytes.
  method FinishBlock(bw: BitWriter, ghost block: seq<bool>) returns (n: nat)
    requires bw.Valid() && bw.wanted == block && |block| > 0
    modifies bw, bw.buf
    ensures if |block| > 8 * MAX_FRAME_BYTES then n == 0
      else
        && bw.buf.Length == MAX_FRAME_BYTES && 0 < n <= MAX_FRAME_BYTES && n == (|block| + 7) / 8
        && ToBits(bw.buf[..n]) == block + Digits(0, 8 * n - |block|)
  {
    bw.Align();
    if bw.overflow {
      return 0;
    }
    n := bw.nbits / 8;
    Padded(|block|, n);
    assert bw.wanted[..bw.nbits] == bw.wanted;
    StoredIsBits(bw.buf[..], bw.wanted, n);
    assert bw.buf[..][..n] == bw.buf[..n];
  }

  /** emit_raw_block: the block of module RawBlock, padded to a byte, unless it
      does not fit the buffer. */
  method EmitRawBlock(bw: BitWriter, src: seq<Byte>, pf: ParsedFrame, ghost f: Hdc.Parsed) returns (n: nat)
    requires bw.buf.Length == MAX_FRAME_BYTES && pf.Matches(f) && 1 <= |f.tns| == |f.placed| <= 2
    modifies bw, bw.buf
    ensures var block := Block(ToBits(src), f);
      if |block| > 8 * MAX_FRAME_BYTES then n == 0
      else
        && 0 < n <= MAX_FRAME_BYTES && n == (|block| + 7) / 8
        && ToBits(bw.buf[..n]) == block + Digits(0, 8 * n - |block|)
  {
    EmitBlock(bw, src, pf, f);
    BlockNonempty(ToBits(src), f);
    n := FinishBlock(bw, Block(ToBits(src), f));
  }

  lemma BlockNonempty(s: seq<bool>, f: Hdc.Parsed)
    requires 1 <= |f.tns| == |f.placed| <= 2
    ensures |Block(s, f)| >= 10
  {
    OpenBlock(SEALS, s, f);
  }

  lemma Padded(len: nat, n: nat)
    requires (len + Padding(len)) / 8 == n && (len + Padding(len)) % 8 == 0
    ensures n == (len + 7) / 8 && 8 * n - len == Padding(len)
  {
  }

  // ---------- the ADTS header ----------

  const HEADER := 7

  // write_adts_header: the seven bytes before the block.
  method WriteAdtsHeader(h: array<Byte>, lenTotal: nat, stereo: bool)
    requires h.Length >= HEADER && lenTotal < 8192
    modifies h
    ensures h[..HEADER] == AdtsBytes(lenTotal, stereo)
    ensures forall i :: HEADER <= i < h.Length ==> h[i] == old(h[i])
  {
    var chan := if stereo then 2 else 1;
    var fullness := 0x7FF;
    h[0] := 0xFF;
    h[1] := 0xF1;
    h[2] := 1 * 64 + 7 * 4 + 0 * 2 + (chan / 4) % 2;
    h[3] := (chan % 4) * 64 + (lenTotal / 2048) % 4;
    h[4] := (lenTotal / 8) % 256;
    h[5] := (lenTotal % 8) * 32 + fullness / 64;
    h[6] := (fullness % 64) * 4 + 0;
  }

  function AdtsBytes(lenTotal: nat, stereo: bool): (r: seq<Byte>)
    ensures |r| == HEADER
  {
    [0xFF, 0xF1, 92, (if stereo then 128 else 64) + (lenTotal / 2048) % 4, (lenTotal / 8) % 256, (lenTotal % 8) * 32 + 31, 252]
  }

  // The fields of an ADTS fixed and variable header (ISO/IEC 13818-7, section 6.2).
  datatype Adts = Adts(sync: nat, id: nat, layer: nat, noCrc: nat, profile: nat, rate: nat, channels: nat, length: nat,
                       fullness: nat, blocks: nat)

  function ReadAdts(t: seq<bool>): Adts {
    Adts(Num(t, 0, 12), Num(t, 12, 1), Num(t, 13, 2), Num(t, 15, 1), Num(t, 16, 2), Num(t, 18, 4), Num(t, 23, 3), Num(t, 30, 13),
         Num(t, 43, 11), Num(t, 54, 2))
  }

  lemma Double(x: nat, y: nat)
    ensures 2 * (x * y) == (2 * x) * y
  {
  }

  lemma {:induction false} NumJoin(t: seq<bool>, p: nat, a: nat, b: nat)
    ensures Num(t, p, a + b) == Pow2(b) * Num(t, p, a) + Num(t, p + a, b)
    decreases b
  {
    if b > 0 {
      NumJoin(t, p, a, b - 1);
      Double(Pow2(b - 1), Num(t, p, a));
      assert Num(t, p, a + b) == 2 * Num(t, p, a + (b - 1)) + if Bit(t, p + a + (b - 1)) then 1 else 0;
    }
  }

  // The leading bits of a number are its quotient, the others its remainder.
  lemma NumParts(t: seq<bool>, p: nat, a: nat, b: nat)
    ensures Num(t, p, a) == Num(t, p, a + b) / Pow2(b) && Num(t, p + a, b) == Num(t, p, a + b) % Pow2(b)
  {
    NumJoin(t, p, a, b);
    DivUnique(Num(t, p, a + b), Pow2(b), Num(t, p, a), Num(t, p + a, b));
  }

  lemma {:induction false} ByteAt(bytes: seq<Byte>, i: nat)
    requires i < |bytes|
    ensures Num(ToBits(bytes), 8 * i, 8) == bytes[i]
  {
    var n := |bytes| - 1;
    var t := ToBits(bytes);
    if i == n {
      assert t[8 * i..8 * i + 8] == Digits(bytes[n], 8);
      Small();
      NumDigits(t, 8 * i, bytes[n], 8);
    } else {
      ByteAt(bytes[..n], i);
      AgreePrefix(ToBits(bytes[..n]), Digits(bytes[n], 8), 8 * i, 8);
      NumAgree(ToBits(bytes[..n]), 8 * i, t, 8 * i, 8);
    }
  }

  lemma {:induction false} AgreePrefix(s: seq<bool>, more: seq<bool>, p: nat, n: nat)
    requires p + n <= |s|
    ensures Agree(s, p, s + more, p, n)
    decreases n
  {
    if n > 0 { AgreePrefix(s, more, p, n - 1); }
  }

  lemma HeaderByte(bytes: seq<Byte>, lenTotal: nat, stereo: bool, i: nat)
    requires |bytes| >= HEADER && bytes[..HEADER] == AdtsBytes(lenTotal, stereo) && i < HEADER
    ensures Num(ToBits(bytes), 8 * i, 8) == AdtsBytes(lenTotal, stereo)[i]
  {
    assert bytes[..HEADER][i] == bytes[i];
    ByteAt(bytes, i);
  }

  /** The header says MPEG-4, no checksum, AAC-LC at 22050 Hz, the channel count,
      the length of the whole frame, and one raw data block. */
  lemma HeaderDecodes(bytes: seq<Byte>, lenTotal: nat, stereo: bool)
    requires |bytes| >= HEADER && bytes[..HEADER] == AdtsBytes(lenTotal, stereo) && lenTotal < 8192
    ensures ReadAdts(ToBits(bytes)) == Adts(0xFFF, 0, 0, 1, 1, 7, if stereo then 2 else 1, lenTotal, 0x7FF, 0)
  {
    var t := ToBits(bytes);
    HeaderByte(bytes, lenTotal, stereo, 0); HeaderByte(bytes, lenTotal, stereo, 1); HeaderByte(bytes, lenTotal, stereo, 2);
    HeaderByte(bytes, lenTotal, stereo, 3); HeaderByte(bytes, lenTotal, stereo, 4); HeaderByte(bytes, lenTotal, stereo, 5);
    HeaderByte(bytes, lenTotal, stereo, 6);
    FixedFields(t);
    ChannelField(t, lenTotal, stereo);
    LengthField(t, lenTotal);
    TailFields(t, lenTotal);
  }

  lemma SmallPowers()
    ensures Pow2(1) == 2 && Pow2(2) == 4 && Pow2(3) == 8 && Pow2(4) == 16 && Pow2(5) == 32 && Pow2(6) == 64 && Pow2(8) == 256
  {
    assert Pow2(3) == 8;
    assert Pow2(6) == 64;
  }

  lemma FixedFields(t: seq<bool>)
    requires Num(t, 0, 8) == 0xFF && Num(t, 8, 8) == 0xF1 && Num(t, 16, 8) == 92
    ensures Num(t, 0, 12) == 0xFFF && Num(t, 12, 1) == 0 && Num(t, 13, 2) == 0 && Num(t, 15, 1) == 1
    ensures Num(t, 16, 2) == 1 && Num(t, 18, 4) == 7 && Num(t, 23, 1) == 0
  {
    SmallPowers();
    NumParts(t, 8, 4, 4);
    NumJoin(t, 0, 8, 4);
    NumParts(t, 12, 1, 3);
    NumParts(t, 13, 2, 1);
    NumParts(t, 16, 2, 6);
    NumParts(t, 18, 4, 2);
    NumParts(t, 22, 1, 1);
  }

  lemma ChannelField(t: seq<bool>, lenTotal: nat, stereo: bool)
    requires Num(t, 23, 1) == 0 && Num(t, 24, 8) == (if stereo then 128 else 64) + (lenTotal / 2048) % 4
    ensures Num(t, 23, 3) == if stereo then 2 else 1
    ensures Num(t, 30, 2) == (lenTotal / 2048) % 4
  {
    SmallPowers();
    NumParts(t, 24, 2, 6);
    NumJoin(t, 23, 1, 2);
    NumParts(t, 26, 4, 2);
  }

  lemma LengthField(t: seq<bool>, lenTotal: nat)
    requires Num(t, 30, 2) == (lenTotal / 2048) % 4 && Num(t, 32, 8) == (lenTotal / 8) % 256 && Num(t, 40, 8) == (lenTotal % 8) * 32 + 31
    requires lenTotal < 8192
    ensures Num(t, 30, 13) == lenTotal
  {
    SmallPowers();
    NumParts(t, 40, 3, 5);
    NumJoin(t, 30, 2, 8);
    NumJoin(t, 30, 10, 3);
    LengthSplits(lenTotal);
  }

  lemma LengthSplits(n: nat)
    requires n < 8192
    ensures n == 8 * (256 * ((n / 2048) % 4) + (n / 8) % 256) + n % 8
  {
    assert n / 2048 == (n / 8) / 256;
  }

  lemma TailFields(t: seq<bool>, lenTotal: nat)
    requires Num(t, 40, 8) == (lenTotal % 8) * 32 + 31 && Num(t, 48, 8) == 252
    ensures Num(t, 43, 11) == 0x7FF && Num(t, 54, 2) == 0
  {
    SmallPowers();
    NumParts(t, 40, 3, 5);
    NumParts(t, 48, 6, 2);
    NumJoin(t, 43, 5, 6);
  }

  // ---------- hdc2aac_remux_frame ----------

  // The bytes of the padded block, for a frame the parser accepts.
  ghost function RawLength(h: Tables, s: seq<bool>): nat
    requires h.Valid() && Hdc.Frame(h, s).Read?
  {
    (|Block(s, Hdc.Frame(h, s).value)| + 7) / 8
  }

  // When a packet is turned into a frame.
  ghost predicate Accepted(h: Tables, data: seq<Byte>, room: nat)
    requires h.Valid()
  {
    && |data| > 0 && Hdc.Frame(h, ToBits(data)).Read?
    && RawLength(h, ToBits(data)) <= MAX_FRAME_BYTES && RawLength(h, ToBits(data)) + HEADER <= room
  }

  // The bytes of the frame for a block: header, block, padding.
  ghost predicate Framed(frame: seq<Byte>, stereo: bool, block: seq<bool>) {
    var raw := (|block| + 7) / 8;
    && |frame| == raw + HEADER && frame[..HEADER] == AdtsBytes(raw + HEADER, stereo)
    && ToBits(frame[HEADER..]) == block + Digits(0, 8 * raw - |block|)
  }

  ghost predicate Output(h: Tables, data: seq<Byte>, frame: seq<Byte>)
    requires h.Valid() && Hdc.Frame(h, ToBits(data)).Read?
  {
    var f := Hdc.Frame(h, ToBits(data)).value;
    Framed(frame, Hdc.Stereo(f), Block(ToBits(data), f))
  }

  lemma PaddedMeaning(h: Tables, s: seq<bool>, t: seq<bool>, pad: seq<bool>)
    requires h.Valid() && Hdc.Frame(h, s).Read? && t == Block(s, Hdc.Frame(h, s).value) + pad
    ensures Aac.RawBlock(h, t) == Read(Hdc.Meaning(Hdc.Frame(h, s).value, s), |Block(s, Hdc.Frame(h, s).value)|)
  {
    var block := Block(s, Hdc.Frame(h, s).value);
    assert t[0..0 + |block|] == block;
    Transcode.MeaningPreserved(h, s, t);
  }

  lemma FramedHeader(frame: seq<Byte>, stereo: bool, block: seq<bool>)
    requires Framed(frame, stereo, block) && |frame| < 8192
    ensures ReadAdts(ToBits(frame)) == Adts(0xFFF, 0, 0, 1, 1, 7, if stereo then 2 else 1, |frame|, 0x7FF, 0)
  {
    HeaderDecodes(frame, |frame|, stereo);
  }

  /** A delivered frame starts with a header that states the frame's own length
      and the packet's channel count, */
  lemma OutputHeader(h: Tables, data: seq<Byte>, frame: seq<Byte>, room: nat)
    requires h.Valid() && Accepted(h, data, room) && Output(h, data, frame)
    ensures ReadAdts(ToBits(frame)) == Adts(0xFFF, 0, 0, 1, 1, 7, Hdc.Channels(ToBits(data)), |frame|, 0x7FF, 0)
  {
    var f := Hdc.Frame(h, ToBits(data)).value;
    FramedHeader(frame, Hdc.Stereo(f), Block(ToBits(data), f));
  }

  /** followed by a raw data block that says what the packet said, */
  lemma OutputMeaning(h: Tables, data: seq<Byte>, frame: seq<Byte>)
    requires h.Valid() && Hdc.Frame(h, ToBits(data)).Read? && Output(h, data, frame)
    ensures var f := Hdc.Frame(h, ToBits(data)).value;
      Aac.RawBlock(h, ToBits(frame[HEADER..])) == Read(Hdc.Meaning(f, ToBits(data)), |Block(ToBits(data), f)|)
  {
    var len := |Block(ToBits(data), Hdc.Frame(h, ToBits(data)).value)|;
    PaddedMeaning(h, ToBits(data), ToBits(frame[HEADER..]), Digits(0, 8 * ((len + 7) / 8) - len));
  }

  /** and is at most three bytes longer than the packet and the header. */
  lemma OutputGrowth(h: Tables, data: seq<Byte>, frame: seq<Byte>)
    requires h.Valid() && Hdc.Frame(h, ToBits(data)).Read? && Output(h, data, frame)
    ensures |frame| <= |data| + 3 + HEADER
  {
    Transcode.BlockGrowth(h, ToBits(data));
  }

  // memcpy of the block behind the header.
  method CopyBlock(out: array<Byte>, buf: array<Byte>, n: nat)
    requires n <= buf.Length && n + HEADER <= out.Length && out != buf
    modifies out
    ensures out[HEADER..HEADER + n] == buf[..n] && out[..HEADER] == old(out[..HEADER])
    ensures forall i :: HEADER + n <= i < out.Length ==> out[i] == old(out[i])
  {
    var i := 0;
    while i < n
      invariant 0 <= i <= n && out[HEADER..HEADER + i] == buf[..i] && out[..HEADER] == old(out[..HEADER])
      invariant forall j :: HEADER + i <= j < out.Length ==> out[j] == old(out[j])
    {
      out[HEADER + i] := buf[i];
      i := i + 1;
    }
  }

  // Header and block, once both are known to fit.
  method Deliver(stereo: bool, buf: array<Byte>, raw: nat, out: array<Byte>, ghost block: seq<bool>)
    requires raw == (|block| + 7) / 8 && raw <= MAX_FRAME_BYTES && raw <= buf.Length && raw + HEADER <= out.Length
    requires ToBits(buf[..raw]) == block + Digits(0, 8 * raw - |block|) && buf != out
    modifies out
    ensures Framed(out[..raw + HEADER], stereo, block)
    ensures forall i :: raw + HEADER <= i < out.Length ==> out[i] == old(out[i])
  {
    WriteAdtsHeader(out, raw + HEADER, stereo);
    CopyBlock(out, buf, raw);
    ghost var frame := out[..raw + HEADER];
    assert frame[..HEADER] == out[..HEADER] && frame[HEADER..] == buf[..raw];
  }

  // The two size checks, and delivery.
  method CheckAndDeliver(stereo: bool, bw: BitWriter, raw: nat, out: array<Byte>, ghost block: seq<bool>) returns (n: nat)
    requires bw.buf.Length == MAX_FRAME_BYTES && bw.buf != out && |block| > 0
    requires if |block| > 8 * MAX_FRAME_BYTES then raw == 0
      else
        && raw == (|block| + 7) / 8 && raw <= MAX_FRAME_BYTES
        && ToBits(bw.buf[..raw]) == block + Digits(0, 8 * raw - |block|)
    modifies out
    ensures n > 0 <==> (|block| + 7) / 8 <= MAX_FRAME_BYTES && (|block| + 7) / 8 + HEADER <= out.Length
    ensures n > 0 ==> n <= out.Length && Framed(out[..n], stereo, block)
    ensures forall i :: n <= i < out.Length ==> out[i] == old(out[i])
  {
    if raw == 0 || raw + HEADER > out.Length {
      return 0;
    }
    Deliver(stereo, bw.buf, raw, out, block);
    n := raw + HEADER;
  }

  // Emission and delivery of a parsed frame.
  method EmitFrame(bw: BitWriter, data: seq<Byte>, pf: ParsedFrame, out: array<Byte>, ghost f: Hdc.Parsed, ghost block: seq<bool>)
    returns (n: nat)
    requires bw.buf.Length == MAX_FRAME_BYTES && bw.buf != out && pf.Matches(f) && 1 <= |f.tns| == |f.placed| <= 2
    requires block == Block(ToBits(data), f)
    modifies bw, bw.buf, out
    ensures n > 0 <==> (|block| + 7) / 8 <= MAX_FRAME_BYTES && (|block| + 7) / 8 + HEADER <= out.Length
    ensures n > 0 ==> n <= out.Length && Framed(out[..n], Hdc.Stereo(f), block)
    ensures forall i :: n <= i < out.Length ==> out[i] == old(out[i])
  {
    BlockNonempty(ToBits(data), f);
    var raw := EmitRawBlock(bw, data, pf, f);
    n := CheckAndDeliver(pf.stereo, bw, raw, out, block);
  }

  /** hdc2aac_remux_frame */
  method RemuxFrame(h: Tables, pf: ParsedFrame, bw: BitWriter, data: seq<Byte>, out: array<Byte>) returns (n: nat)
    requires h.Valid() && bw.buf.Length == MAX_FRAME_BYTES && bw.buf != out
    modifies pf, pf.ics, bw, bw.buf, out
    ensures n > 0 <==> Accepted(h, data, out.Length)
    ensures n > 0 ==> n <= out.Length && Output(h, data, out[..n])
    ensures forall i :: n <= i < out.Length ==> out[i] == old(out[i])
  {
    if |data| == 0 {
      return 0;
    }
    var rc := ParseHdcFrame(h, data, pf);
    if rc < 0 {
      return 0;
    }
    ghost var f := Hdc.Frame(h, ToBits(data)).value;
    n := EmitFrame(bw, data, pf, out, f, Block(ToBits(data), f));
  }

  /** A packet of at most 4093 bytes never overflows the block buffer: given room
      for a full frame, it is refused only if the parser refuses it. */
  lemma SmallPacketsFit(h: Tables, data: seq<Byte>, room: nat)
    requires h.Valid() && 0 < |data| <= MAX_FRAME_BYTES - 3 && room >= MAX_FRAME_BYTES + HEADER
    ensures Accepted(h, data, room) <==> Hdc.Frame(h, ToBits(data)).Read?
  {
    if Hdc.Frame(h, ToBits(data)).Read? { Transcode.BlockGrowth(h, ToBits(data)); }
  }
}
