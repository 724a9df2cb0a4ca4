/** The audio part of a layer-2 PDU: frame_process of src/frame.c:535-657 splits it
    into audio PDUs, each a header protected by the Reed-Solomon code, a table of
    packet locations, programme data and the packets themselves. */
module AudioPdu {
  import opened Basics
  import opened Field
  import opened Crc
  import opened RsTables
  import RsCodec

  const CODEWORD := 96
  const MAX_STREAMS := 2
  const SLOTS := 64

  // ---------- the header ----------

  datatype Header = Header(codecMode: nat, streamId: nat, pduSeq: nat, latency: nat, pfirst: bool, plast: bool,
                           seqno: nat, nop: nat, hef: bool, la: nat)

  function Value(x: GF): (v: nat)
    ensures v < 256
  {
    x.bits as int
  }

  // parse_header, for a header at s.
  function HeaderAt(d: seq<GF>, s: nat): (h: Header)
    requires s + 14 <= |d|
    ensures h.streamId < 4 && h.pduSeq < 8 && h.latency < 8 && h.seqno < 64 && h.nop < 64 && h.la < 256
  {
    var b8, b9, b10, b11, b12 := Value(d[s + 8]), Value(d[s + 9]), Value(d[s + 10]), Value(d[s + 11]), Value(d[s + 12]);
    Header(b8 % 16, b8 / 16 % 4, b8 / 64 + 4 * (b9 % 2), b10 / 64 + 4 * (b11 % 2), b11 / 2 % 2 == 1,
           b11 / 4 % 2 == 1, b11 / 8 + 32 * (b12 % 2), b12 / 2 % 64, b12 >= 128, Value(d[s + 13]))
  }

  // calc_lc_bits
  function LcBits(h: Header): nat {
    if (h.codecMode in {1, 2, 3} && h.streamId == 0) || h.codecMode in {10, 13} then 12 else 16
  }

  // calc_avg_packets
  function AveragePackets(h: Header): nat {
    if h.codecMode in {1, 2, 3} then (if h.streamId == 0 then 4 else 32)
    else if h.codecMode == 10 then (if h.streamId == 0 then 32 else 4)
    else if h.codecMode == 13 then 4
    else 32
  }

  // ---------- packet locations ----------

  function LocationBytes(lcBits: nat, n: nat): nat { (lcBits * n + 4) / 8 }

  // parse_location, over byte values.
  function Location(b: seq<nat>, lcBits: nat, i: nat): nat
    requires lcBits == 12 || lcBits == 16
    requires LocationBytes(lcBits, i + 1) <= |b|
  {
    if lcBits == 16 then b[2 * i + 1] * 256 + b[2 * i]
    else if i % 2 == 0 then b[i / 2 * 3 + 1] % 16 * 256 + b[i / 2 * 3]
    else b[i / 2 * 3 + 2] * 16 + b[i / 2 * 3 + 1] / 16
  }

  // The bytes that hold locations ls, each of lcBits bits, low bits first.
  function Packed(ls: seq<nat>, lcBits: nat): seq<nat>
    requires lcBits == 12 || lcBits == 16
  {
    if |ls| == 0 then []
    else if lcBits == 16 then [ls[0] % 256, ls[0] / 256] + Packed(ls[1..], 16)
    else if |ls| == 1 then [ls[0] % 256, ls[0] / 256]
    else [ls[0] % 256, ls[0] / 256 + 16 * (ls[1] % 16), ls[1] / 16] + Packed(ls[2..], 12)
  }

  lemma {:induction false} Packed16(ls: seq<nat>, i: nat)
    requires i < |ls|
    ensures var b := Packed(ls, 16); |b| == 2 * |ls| && b[2 * i] == ls[i] % 256 && b[2 * i + 1] == ls[i] / 256
  {
    if |ls| > 1 {
      Packed16(ls[1..], if i == 0 then 0 else i - 1);
    }
  }

  // The three bytes of pair j; a last single location leaves out the third.
  lemma {:induction false} Packed12(ls: seq<nat>, j: nat)
    requires 2 * j < |ls|
    ensures var b := Packed(ls, 12);
            && |b| == |ls| + (|ls| + 1) / 2
            && 3 * j + 1 < |b|
            && b[3 * j] == ls[2 * j] % 256
            && (2 * j + 1 < |ls| ==>
                  && 3 * j + 2 < |b|
                  && b[3 * j + 1] == ls[2 * j] / 256 + 16 * (ls[2 * j + 1] % 16)
                  && b[3 * j + 2] == ls[2 * j + 1] / 16)
            && (2 * j + 1 == |ls| ==> b[3 * j + 1] == ls[2 * j] / 256)
  {
    if |ls| > 2 {
      Packed12(ls[2..], if j == 0 then 0 else j - 1);
    }
  }

  lemma LowHigh(x: nat, m: nat)
    requires m > 0
    ensures x / m * m + x % m == x
  {
  }

  // Two locations of 12 bits in three bytes.
  lemma Halves(a: nat, c: nat)
    requires a < 4096 && c < 4096
    ensures (a / 256 + 16 * (c % 16)) % 16 * 256 + a % 256 == a
    ensures c / 16 * 16 + (a / 256 + 16 * (c % 16)) / 16 == c
  {
    assert a / 256 < 16;
  }

  lemma PairAt(b: seq<nat>, i: nat, j: nat)
    requires LocationBytes(12, i + 1) <= |b| && (i == 2 * j || i == 2 * j + 1)
    ensures i == 2 * j ==> 3 * j + 1 < |b| && Location(b, 12, i) == b[3 * j + 1] % 16 * 256 + b[3 * j]
    ensures i == 2 * j + 1 ==> 3 * j + 2 < |b| && Location(b, 12, i) == b[3 * j + 2] * 16 + b[3 * j + 1] / 16
  {
    assert i / 2 == j;
    assert j * 3 == 3 * j;
  }

  lemma Even(b: seq<nat>, j: nat, a: nat, c: nat)
    requires a < 4096 && c < 4096 && LocationBytes(12, 2 * j + 1) <= |b| && 3 * j + 1 < |b|
    requires b[3 * j] == a % 256 && b[3 * j + 1] == a / 256 + 16 * (c % 16)
    ensures Location(b, 12, 2 * j) == a
  {
    PairAt(b, 2 * j, j);
    Halves(a, c);
  }

  lemma Odd(b: seq<nat>, j: nat, a: nat, c: nat)
    requires a < 4096 && c < 4096 && LocationBytes(12, 2 * j + 2) <= |b| && 3 * j + 2 < |b|
    requires b[3 * j + 1] == a / 256 + 16 * (c % 16) && b[3 * j + 2] == c / 16
    ensures Location(b, 12, 2 * j + 1) == c
  {
    PairAt(b, 2 * j + 1, j);
    Halves(a, c);
  }

  lemma Pair(ls: seq<nat>, i: nat, j: nat)
    requires forall k :: 0 <= k < |ls| ==> ls[k] < 4096
    requires i < |ls| && (i == 2 * j || i == 2 * j + 1)
    ensures |Packed(ls, 12)| == LocationBytes(12, |ls|)
    ensures LocationBytes(12, i + 1) <= LocationBytes(12, |ls|)
    ensures Location(Packed(ls, 12), 12, i) == ls[i]
  {
    Packed12(ls, j);
    var b := Packed(ls, 12);
    if i == 2 * j {
      Even(b, j, ls[i], if i + 1 < |ls| then ls[i + 1] else 0);
    } else {
      Odd(b, j, ls[i - 1], ls[i]);
    }
  }

  lemma Single(ls: seq<nat>, i: nat)
    requires i < |ls|
    ensures |Packed(ls, 16)| == LocationBytes(16, |ls|)
    ensures LocationBytes(16, i + 1) <= LocationBytes(16, |ls|)
    ensures Location(Packed(ls, 16), 16, i) == ls[i]
  {
    Packed16(ls, i);
    LowHigh(ls[i], 256);
    assert LocationBytes(16, |ls|) == 2 * |ls| && LocationBytes(16, i + 1) == 2 * (i + 1);
  }

  /** Every location is read back from its packing. */
  lemma LocationsRoundTrip(ls: seq<nat>, lcBits: nat, i: nat)
    requires lcBits == 12 || lcBits == 16
    requires forall k :: 0 <= k < |ls| ==> ls[k] < if lcBits == 12 then 4096 else 65536
    requires i < |ls|
    ensures |Packed(ls, lcBits)| == LocationBytes(lcBits, |ls|)
    ensures LocationBytes(lcBits, i + 1) <= LocationBytes(lcBits, |ls|)
    ensures Location(Packed(ls, lcBits), lcBits, i) == ls[i]
  {
    if lcBits == 16 { Single(ls, i); } else { Pair(ls, i, i / 2); }
  }

  // ---------- locations in the buffer ----------

  // The values of n bytes from p on.
  function Values(d: seq<GF>, p: nat, n: nat): (b: seq<nat>)
    requires p + n <= |d|
    ensures |b| == n
  {
    seq(n, k requires 0 <= k < n => d[p + k].bits as int)
  }

  function Table(d: seq<GF>, s: nat, h: Header): seq<nat>
    requires s + 14 + LocationBytes(LcBits(h), h.nop) <= |d|
  {
    Values(d, s + 14, LocationBytes(LcBits(h), h.nop))
  }

  lemma BytesGrow(lcBits: nat, i: nat, n: nat)
    requires (lcBits == 12 || lcBits == 16) && i < n
    ensures LocationBytes(lcBits, i + 1) <= LocationBytes(lcBits, n)
    ensures lcBits == 16 ==> 2 * i + 1 < LocationBytes(lcBits, n)
    ensures lcBits == 12 ==> i / 2 * 3 + (if i % 2 == 0 then 1 else 2) < LocationBytes(lcBits, n)
  {
    var j := i / 2;
    assert i == 2 * j || i == 2 * j + 1;
  }

  // Location i of the audio PDU at s, with header h.
  function LocationAt(d: seq<GF>, s: nat, h: Header, i: nat): nat
    requires s + 14 + LocationBytes(LcBits(h), h.nop) <= |d| && i < h.nop
  {
    BytesGrow(LcBits(h), i, h.nop);
    Location(Table(d, s, h), LcBits(h), i)
  }

  // Where packet i starts when all its predecessors have been taken.
  function PacketStart(s: nat, h: Header, ls: seq<nat>, i: nat): nat
    requires i <= |ls|
  {
    s + Before(h.la, ls, i) + 1
  }

  // The locations grow from la on, and the last lies inside the audio.
  predicate Ascending(s: nat, la: nat, ls: seq<nat>, audioEnd: nat) {
    forall i {:trigger Before(la, ls, i)} :: 0 <= i < |ls| ==> Before(la, ls, i) < ls[i] && s + ls[i] < audioEnd
  }

  // What location i must exceed.
  function Before(la: nat, ls: seq<nat>, i: nat): nat
    requires i <= |ls|
  {
    if i == 0 then la else ls[i - 1]
  }

  // The location table lies before la, and la inside the audio.
  predicate TableFits(s: nat, h: Header, audioEnd: nat) {
    s + 14 + LocationBytes(LcBits(h), h.nop) <= s + h.la + 1 && s + h.la < audioEnd
  }

  lemma BeforeSame(la: nat, ls: seq<nat>, l: nat, i: nat)
    requires i <= |ls|
    ensures Before(la, ls + [l], i) == Before(la, ls, i)
    ensures (ls + [l])[i] == if i < |ls| then ls[i] else l
  {
  }

  lemma AscendingNext(s: nat, la: nat, ls: seq<nat>, l: nat, audioEnd: nat)
    ensures Ascending(s, la, ls + [l], audioEnd) <==>
            Ascending(s, la, ls, audioEnd) && Before(la, ls, |ls|) < l && s + l < audioEnd
  {
    var t := ls + [l];
    if Ascending(s, la, t, audioEnd) {
      BeforeSame(la, ls, l, |ls|);
      forall i | 0 <= i < |ls| ensures Before(la, ls, i) < ls[i] && s + ls[i] < audioEnd {
        BeforeSame(la, ls, l, i);
      }
    } else if Ascending(s, la, ls, audioEnd) {
      var i :| 0 <= i < |t| && !(Before(la, t, i) < t[i] && s + t[i] < audioEnd);
      BeforeSame(la, ls, l, i);
    }
  }

  // The first |ls| locations of the audio PDU at s are ls.
  predicate Located(d: seq<GF>, s: nat, h: Header, ls: seq<nat>) {
    && s + 14 + LocationBytes(LcBits(h), h.nop) <= |d|
    && |ls| <= h.nop
    && forall i :: 0 <= i < |ls| ==> ls[i] == LocationAt(d, s, h, i)
  }

  /** The location loop of frame_process. */
  method ReadLocations(buf: array<GF>, s: nat, h: Header, audioEnd: nat) returns (ok: bool, ls: seq<nat>)
    requires audioEnd <= buf.Length && TableFits(s, h, audioEnd)
    ensures Located(buf[..], s, h, ls)
    ensures ok <==> |ls| == h.nop && Ascending(s, h.la, ls, audioEnd)
    ensures !ok ==> !Ascending(s, h.la, ls, audioEnd)
  {
    ghost var d := buf[..];
    ls := [];
    while |ls| < h.nop
      invariant Located(d, s, h, ls) && Ascending(s, h.la, ls, audioEnd)
      decreases h.nop - |ls|
    {
      var l := ParseLocation(buf, s, h, |ls|);
      var last := Before(h.la, ls, |ls|);
      AscendingNext(s, h.la, ls, l, audioEnd);
      LocatedNext(d, s, h, ls, l);
      ls := ls + [l];
      if l <= last || s + l >= audioEnd { return false, ls; }
    }
    return true, ls;
  }

  lemma LocatedNext(d: seq<GF>, s: nat, h: Header, ls: seq<nat>, l: nat)
    requires Located(d, s, h, ls) && |ls| < h.nop && l == LocationAt(d, s, h, |ls|)
    ensures Located(d, s, h, ls + [l])
  {
  }

  /** parse_location */
  method ParseLocation(buf: array<GF>, s: nat, h: Header, i: nat) returns (l: nat)
    requires s + 14 + LocationBytes(LcBits(h), h.nop) <= buf.Length && i < h.nop
    ensures l == LocationAt(buf[..], s, h, i)
  {
    BytesGrow(LcBits(h), i, h.nop);
    var p := s + 14;
    if LcBits(h) == 16 {
      l := Value(buf[p + 2 * i + 1]) * 256 + Value(buf[p + 2 * i]);
    } else if i % 2 == 0 {
      l := Value(buf[p + i / 2 * 3 + 1]) % 16 * 256 + Value(buf[p + i / 2 * 3]);
    } else {
      l := Value(buf[p + i / 2 * 3 + 2]) * 16 + Value(buf[p + i / 2 * 3 + 1]) / 16;
    }
  }

  // ---------- header expansion ----------

  // Bytes a header expansion field takes after its first.
  function ExtraBytes(v: nat): nat {
    var kind := v / 16 % 8;
    if kind == 1 then (if v % 2 == 1 then 2 else 0)
    else if kind == 2 then 1
    else if kind == 3 then (if v / 8 % 2 == 1 then 4 else 3)
    else if kind == 4 then (if v / 8 % 2 == 1 then 3 else 1)
    else 0
  }

  datatype Expansion = Expansion(used: nat, program: nat)

  // The expansion fields of b from k on: how many bytes of b they use up, and the
  // last program number among them.
  function Expand(b: seq<GF>, k: nat, program: nat): (x: Expansion)
    requires k <= |b| && program < 8
    ensures k <= x.used <= |b| && x.program < 8
    decreases |b| - k
  {
    if k == |b| then Expansion(|b|, program)
    else
      var v := Value(b[k]);
      var last := k + ExtraBytes(v);
      var p := if v / 16 % 8 == 1 then v / 2 % 8 else program;
      if last >= |b| then Expansion(|b|, p)
      else if Value(b[last]) >= 128 then Expand(b, last + 1, p)
      else Expansion(last + 1, p)
  }

  /** parse_hef */
  method ParseHef(buf: array<GF>, at: nat, length: nat) returns (used: nat, program: nat)
    requires at + length <= buf.Length
    ensures Expansion(used, program) == Expand(buf[at..at + length], 0, 0)
  {
    ghost var b := buf[at..at + length];
    var k := 0;
    program := 0;
    while true
      invariant 0 <= k <= length && program < 8
      invariant Expand(b, 0, 0) == Expand(b, k, program)
      decreases length - k
    {
      if k >= length { return length, program; }
      var v := Value(buf[at + k]);
      assert buf[at + k] == b[k];
      if v / 16 % 8 == 1 { program := v / 2 % 8; }
      k := k + ExtraBytes(v);
      if k >= length { return length, program; }
      assert buf[at + k] == b[k];
      var more := Value(buf[at + k]) >= 128;
      k := k + 1;
      if !more { return k, program; }
    }
  }

  // ---------- packets ----------

  datatype Shape = Full | HalfFront | HalfBack

  // A packet of the output: its bytes, then one checksum byte.
  datatype Packet = Packet(start: nat, size: nat, seqno: nat, shape: Shape, crcError: bool)

  function Octets(d: seq<GF>): (b: seq<bv8>)
    ensures |b| == |d|
  {
    seq(|d|, k requires 0 <= k < |d| => d[k].bits)
  }

  function Checksum(d: seq<GF>, from: nat, to: nat): bv8
    requires from <= to <= |d|
  {
    Crc8(Octets(d[from..to]))
  }

  function FirstSlot(h: Header): nat
    requires h.seqno < 64
  {
    (SLOTS + h.seqno - if h.pfirst then 1 else 0) % SLOTS
  }

  function ShapeOf(h: Header, i: nat): Shape {
    if i == 0 && h.pfirst then HalfBack else if i + 1 == h.nop && h.plast then HalfFront else Full
  }

  // p is what lies in d from the end of packet i - 1 to location i, the checksum byte.
  ghost predicate IsPacket(d: seq<GF>, s: nat, h: Header, ls: seq<nat>, i: nat, p: Packet)
    requires i < |ls| && h.seqno < 64
  {
    && p.start == PacketStart(s, h, ls, i)
    && p.start + p.size == s + ls[i] < |d|
    && p.seqno == (FirstSlot(h) + i) % SLOTS
    && p.shape == ShapeOf(h, i)
    && (p.crcError <==> Checksum(d, p.start, p.start + p.size + 1) != 0)
  }

  ghost predicate ArePackets(d: seq<GF>, s: nat, h: Header, ls: seq<nat>, ps: seq<Packet>) {
    |ps| <= |ls| && h.seqno < 64 && forall i :: 0 <= i < |ps| ==> IsPacket(d, s, h, ls, i, ps[i])
  }

  lemma PacketsNext(d: seq<GF>, s: nat, h: Header, ls: seq<nat>, ps: seq<Packet>, p: Packet)
    requires ArePackets(d, s, h, ls, ps) && |ps| < |ls| && IsPacket(d, s, h, ls, |ps|, p)
    ensures ArePackets(d, s, h, ls, ps + [p])
  {
  }

  lemma NextSlot(a: nat, j: nat)
    ensures ((a + j) % SLOTS + 1) % SLOTS == (a + j + 1) % SLOTS
  {
  }

  /** One pass of the packet loop of frame_process. */
  method TakePacket(buf: array<GF>, s: nat, h: Header, ls: seq<nat>, audioEnd: nat, j: nat, offset: nat, slot: nat)
    returns (p: Packet)
    requires audioEnd <= buf.Length && h.seqno < 64
    requires j < |ls| == h.nop && Ascending(s, h.la, ls, audioEnd)
    requires offset == PacketStart(s, h, ls, j) && slot == (FirstSlot(h) + j) % SLOTS
    ensures IsPacket(buf[..], s, h, ls, j, p)
  {
    assert Before(h.la, ls, j) < ls[j] && s + ls[j] < audioEnd;
    var cnt := s + ls[j] - offset;
    var crc := PacketCrc(Octets(buf[offset..offset + cnt + 1]));
    var shape := if j == 0 && h.pfirst then HalfBack else if j == h.nop - 1 && h.plast then HalfFront else Full;
    p := Packet(offset, cnt, slot, shape, crc != 0);
    assert buf[..][offset..offset + cnt + 1] == buf[offset..offset + cnt + 1];
  }

  /** The packet loop of frame_process. */
  method TakePackets(buf: array<GF>, s: nat, h: Header, ls: seq<nat>, audioEnd: nat)
    returns (ps: seq<Packet>, offset: nat)
    requires audioEnd <= buf.Length && h.seqno < 64
    requires |ls| == h.nop && Ascending(s, h.la, ls, audioEnd)
    ensures |ps| == |ls| && ArePackets(buf[..], s, h, ls, ps)
    ensures offset == PacketStart(s, h, ls, |ls|)
  {
    ps := [];
    offset := s + h.la + 1;
    var slot := (SLOTS + h.seqno - if h.pfirst then 1 else 0) % SLOTS;
    var j := 0;
    NextSlot(FirstSlot(h), 0);
    while j < h.nop
      invariant 0 <= j <= h.nop && |ps| == j
      invariant offset == PacketStart(s, h, ls, j)
      invariant slot == (FirstSlot(h) + j) % SLOTS
      invariant ArePackets(buf[..], s, h, ls, ps)
    {
      var p := TakePacket(buf, s, h, ls, audioEnd, j, offset, slot);
      PacketsNext(buf[..], s, h, ls, ps, p);
      NextSlot(FirstSlot(h), j);
      ps := ps + [p];
      offset := offset + p.size + 1;
      slot := (slot + 1) % SLOTS;
      j := j + 1;
    }
  }

  // ---------- alignment ----------

  // frame.c:616-621: where the output is to read next, when sequence number and
  // latency give slot.
  function Nearest(slot: nat, first: nat): nat {
    if Ahead(slot, first) >= SLOTS / 2 then (slot + SLOTS / 2) % SLOTS else slot
  }

  // How far slot b lies ahead of slot a.
  function Ahead(a: nat, b: nat): nat { (SLOTS + b - a) % SLOTS }

  lemma AheadIs(a: nat, b: nat)
    requires a < SLOTS && b < SLOTS
    ensures Ahead(a, b) == if b >= a then b - a else 64 + b - a
  {
  }

  lemma HalfAway(a: nat)
    requires a < SLOTS
    ensures (a + SLOTS / 2) % SLOTS == if a < 32 then a + 32 else a - 32
    ensures a % 32 == if a < 32 then a else a - 32
  {
  }

  /** Reading starts 0 to 31 slots before the first packet, at the place that
      sequence number and latency give or half a buffer away from it. */
  lemma FirstPacketAhead(slot: nat, first: nat)
    requires first < SLOTS && slot < SLOTS
    ensures var r := Nearest(slot, first); r < SLOTS && Ahead(r, first) < 32 && r % 32 == slot % 32
  {
    HalfAway(slot);
    AheadIs(slot, first);
    var other := if slot < 32 then slot + 32 else slot - 32;
    AheadIs(other, first);
    HalfAway(other);
  }

  /** No other place does. */
  lemma NearestIsOnly(slot: nat, first: nat, r: nat)
    requires first < SLOTS && slot < SLOTS
    requires r < SLOTS && Ahead(r, first) < 32 && r % 32 == slot % 32
    ensures r == Nearest(slot, first)
  {
    FirstPacketAhead(slot, first);
    AheadIs(r, first);
    AheadIs(Nearest(slot, first), first);
    HalfAway(r);
    HalfAway(Nearest(slot, first));
  }

  // Reading from slot on, the first packet is 0 to 31 slots away, and slot is where
  // sequence number and latency put it, half the buffer more or less.
  predicate Aligned(h: Header, slot: nat)
    requires h.seqno < 64
  {
    && slot < SLOTS && Ahead(slot, FirstSlot(h)) < SLOTS / 2
    && slot % 32 == (SLOTS + h.pduSeq * AveragePackets(h) - h.latency * 2) % 32
  }

  lemma Halved(t: nat)
    ensures t % 64 % 32 == t % 32
  {
  }

  method ReadSlot(h: Header) returns (slot: nat)
    requires h.pduSeq < 8 && h.latency < 8 && h.seqno < 64
    ensures Aligned(h, slot)
    ensures forall r: nat :: Aligned(h, r) ==> r == slot
  {
    ghost var t := SLOTS + h.pduSeq * AveragePackets(h) - h.latency * 2;
    slot := (SLOTS + h.pduSeq * AveragePackets(h) - h.latency * 2) % SLOTS;
    Halved(t);
    FirstPacketAhead(t % SLOTS, FirstSlot(h));
    forall r: nat | Aligned(h, r) ensures r == Nearest(t % SLOTS, FirstSlot(h)) {
      NearestIsOnly(t % SLOTS, FirstSlot(h), r);
    }
    if (SLOTS + FirstSlot(h) - slot) % SLOTS >= SLOTS / 2 {
      slot := (slot + SLOTS / 2) % SLOTS;
    }
  }

  // ---------- one audio PDU ----------

  // What frame_process takes from one audio PDU: bytes [psd, end of header area)
  // go to the HDLC receiver of the program, the packets to the output, which is told
  // to read from readSlot on.
  datatype Pdu = Pdu(start: nat, header: Header, locations: seq<nat>, program: nat, psd: nat, readSlot: nat,
                     packets: seq<Packet>, end: nat)

  datatype Outcome = Taken | NotCorrectable | BadLocations | OutOfContract

  // Where the programme data of an audio PDU begins, behind any header expansion.
  function AfterTable(s: nat, h: Header): nat { s + 14 + LocationBytes(LcBits(h), h.nop) }

  function ExpansionOf(d: seq<GF>, s: nat, h: Header, audioEnd: nat): (x: Expansion)
    requires AfterTable(s, h) <= audioEnd <= |d|
    ensures x.used <= audioEnd - AfterTable(s, h) && x.program < 8
  {
    if h.hef then Expand(d[AfterTable(s, h)..audioEnd], 0, 0) else Expansion(0, 0)
  }

  // The audio PDUs that the code takes for granted: one of an enhanced stream has
  // a packet, and a header expansion ends before the packets do.
  predicate InContract(d: seq<GF>, s: nat, h: Header, audioEnd: nat)
    requires AfterTable(s, h) <= audioEnd <= |d|
  {
    if h.streamId >= MAX_STREAMS then h.nop > 0
    else AfterTable(s, h) + ExpansionOf(d, s, h, audioEnd).used <= s + h.la + 1
  }

  // u is what lies at u.start in d.
  ghost predicate PduParts(d: seq<GF>, u: Pdu, audioEnd: nat) {
    && audioEnd <= |d|
    && u.start + CODEWORD < audioEnd
    && u.header == HeaderAt(d, u.start)
    && TableFits(u.start, u.header, audioEnd)
    && |u.locations| == u.header.nop
    && Located(d, u.start, u.header, u.locations)
    && Ascending(u.start, u.header.la, u.locations, audioEnd)
    && InContract(d, u.start, u.header, audioEnd)
    && u.end == PacketStart(u.start, u.header, u.locations, u.header.nop)
    && if u.header.streamId >= MAX_STREAMS then u.packets == []
       else
         && u.program == ExpansionOf(d, u.start, u.header, audioEnd).program
         && u.psd == AfterTable(u.start, u.header) + ExpansionOf(d, u.start, u.header, audioEnd).used
         && Aligned(u.header, u.readSlot)
         && |u.packets| == u.header.nop
         && ArePackets(d, u.start, u.header, u.locations, u.packets)
  }

  ghost predicate IsPdu(d: seq<GF>, u: Pdu, audioEnd: nat) { SealedPdu(SEALS, d, u, audioEnd) }

  ghost predicate SealedPdu(seals: seq<bool>, d: seq<GF>, u: Pdu, audioEnd: nat) {
    if |seals| > 0 then SealedPdu(seals[1..], d, u, audioEnd) else PduParts(d, u, audioEnd)
  }

  lemma {:induction false} OpenPdu(seals: seq<bool>, d: seq<GF>, u: Pdu, audioEnd: nat)
    ensures SealedPdu(seals, d, u, audioEnd) == PduParts(d, u, audioEnd)
  {
    if |seals| > 0 { OpenPdu(seals[1..], d, u, audioEnd); }
  }

  lemma {:induction false} LocationsClimb(s: nat, la: nat, ls: seq<nat>, audioEnd: nat, i: nat)
    requires Ascending(s, la, ls, audioEnd) && i <= |ls|
    ensures la + i <= Before(la, ls, i)
  {
    if i > 0 {
      LocationsClimb(s, la, ls, audioEnd, i - 1);
      assert Before(la, ls, i - 1) < ls[i - 1];
    }
  }

  /** An audio PDU ends beyond its header and inside the audio. */
  lemma PduEnds(s: nat, h: Header, ls: seq<nat>, audioEnd: nat)
    requires TableFits(s, h, audioEnd) && |ls| == h.nop && Ascending(s, h.la, ls, audioEnd)
    ensures s + 14 <= AfterTable(s, h) <= s + h.la + 1 <= PacketStart(s, h, ls, h.nop) <= audioEnd
  {
    LocationsClimb(s, h.la, ls, audioEnd, h.nop);
    if h.nop > 0 { assert Before(h.la, ls, h.nop - 1) < ls[h.nop - 1]; }
  }

  lemma PduSpans(d: seq<GF>, u: Pdu, audioEnd: nat)
    requires IsPdu(d, u, audioEnd)
    ensures u.start + 14 <= u.end <= audioEnd <= |d|
  {
    OpenPdu(SEALS, d, u, audioEnd);
    PduEnds(u.start, u.header, u.locations, audioEnd);
  }

  /** One pass of the loop of frame_process, behind the header correction. */
  method ReadPdu(buf: array<GF>, s: nat, audioEnd: nat) returns (outcome: Outcome, u: Pdu)
    requires s + CODEWORD < audioEnd <= buf.Length
    ensures outcome == Taken ==> IsPdu(buf[..], u, audioEnd) && u.start == s
    ensures outcome == BadLocations <==> !Acceptable(buf[..], s, audioEnd)
    ensures outcome == OutOfContract ==> !InContract(buf[..], s, HeaderAt(buf[..], s), audioEnd)
    ensures outcome != NotCorrectable
  {
    var h := HeaderAt(buf[..], s);
    u := Pdu(s, h, [], 0, 0, 0, [], s);
    if !TableFits(s, h, audioEnd) { return BadLocations, u; }
    var good, ls := ReadLocations(buf, s, h, audioEnd);
    if !good {
      LocatedOnly(buf[..], s, h, ls, audioEnd);
      return BadLocations, u;
    }
    AllLocations(buf[..], s, h, ls, audioEnd);
    PduEnds(s, h, ls, audioEnd);
    if h.streamId >= MAX_STREAMS {
      if h.nop == 0 { return OutOfContract, u; }
      u := Pdu(s, h, ls, 0, 0, 0, [], s + ls[h.nop - 1] + 1);
      OpenPdu(SEALS, buf[..], u, audioEnd);
      return Taken, u;
    }
    var used, program := ReadExpansion(buf, s, h, audioEnd);
    if AfterTable(s, h) + used > s + h.la + 1 { return OutOfContract, u; }
    var ps, end := TakePackets(buf, s, h, ls, audioEnd);
    var slot := ReadSlot(h);
    u := Pdu(s, h, ls, program, AfterTable(s, h) + used, slot, ps, end);
    OpenPdu(SEALS, buf[..], u, audioEnd);
    return Taken, u;
  }

  method ReadExpansion(buf: array<GF>, s: nat, h: Header, audioEnd: nat) returns (used: nat, program: nat)
    requires AfterTable(s, h) <= audioEnd <= buf.Length
    ensures Expansion(used, program) == ExpansionOf(buf[..], s, h, audioEnd)
  {
    used, program := 0, 0;
    if h.hef {
      var offset := AfterTable(s, h);
      used, program := ParseHef(buf, offset, audioEnd - offset);
      assert buf[offset..offset + (audioEnd - offset)] == buf[..][offset..audioEnd];
    }
  }

  /** One pass of the loop of frame_process: a header within four bytes of a valid
      one is restored, and what the restored header describes is taken. */
  method TakePdu(rs: Rs, buf: array<GF>, s: nat, audioEnd: nat) returns (outcome: Outcome, u: Pdu)
    requires rs.Valid() && s + CODEWORD < audioEnd <= buf.Length
    modifies buf
    ensures buf[..s] == old(buf[..s]) && buf[s + CODEWORD..] == old(buf[s + CODEWORD..])
    ensures forall h: RsCodec.Header :: RsCodec.Near(RsCodec.Block(h), RsCodec.Block(old(buf[s..s + CODEWORD]))) ==>
      outcome != NotCorrectable && buf[s..s + CODEWORD] == h
    ensures outcome == NotCorrectable ==> buf[..] == old(buf[..])
    ensures outcome == Taken ==> IsPdu(buf[..], u, audioEnd) && u.start == s
    ensures outcome == BadLocations ==> !Acceptable(buf[..], s, audioEnd)
    ensures outcome == OutOfContract ==>
      Acceptable(buf[..], s, audioEnd) && !InContract(buf[..], s, HeaderAt(buf[..], s), audioEnd)
  {
    var ok, _, _, _, _ := RsCodec.FixHeader(rs, buf, s);
    if ok {
      outcome, u := ReadPdu(buf, s, audioEnd);
    } else {
      outcome, u := NotCorrectable, Pdu(s, HeaderAt(buf[..], s), [], 0, 0, 0, [], s);
    }
  }

  // The header at s describes locations that the code accepts.
  ghost predicate Acceptable(d: seq<GF>, s: nat, audioEnd: nat)
    requires s + 14 <= |d| && audioEnd <= |d|
  {
    var h := HeaderAt(d, s);
    TableFits(s, h, audioEnd) && exists ls :: |ls| == h.nop && Located(d, s, h, ls) && Ascending(s, h.la, ls, audioEnd)
  }

  lemma AllLocations(d: seq<GF>, s: nat, h: Header, ls: seq<nat>, audioEnd: nat)
    requires s + 14 <= |d| && audioEnd <= |d| && h == HeaderAt(d, s) && TableFits(s, h, audioEnd)
    requires |ls| == h.nop && Located(d, s, h, ls) && Ascending(s, h.la, ls, audioEnd)
    ensures Acceptable(d, s, audioEnd)
  {
  }

  // One bad location spoils every table that starts with it.
  lemma LocatedOnly(d: seq<GF>, s: nat, h: Header, ls: seq<nat>, audioEnd: nat)
    requires s + 14 <= |d| && audioEnd <= |d| && h == HeaderAt(d, s)
    requires Located(d, s, h, ls) && !Ascending(s, h.la, ls, audioEnd)
    ensures !Acceptable(d, s, audioEnd)
  {
    var i :| 0 <= i < |ls| && !(Before(h.la, ls, i) < ls[i] && s + ls[i] < audioEnd);
    forall t: seq<nat> | |t| == h.nop && Located(d, s, h, t) ensures !Ascending(s, h.la, t, audioEnd) {
      assert t[i] == LocationAt(d, s, h, i) == ls[i];
      if i > 0 { assert t[i - 1] == LocationAt(d, s, h, i - 1) == ls[i - 1]; }
      assert Before(h.la, t, i) == Before(h.la, ls, i);
    }
  }

  // ---------- the whole run ----------

  // The audio PDUs us follow each other from 0 to end.
  ghost predicate Chain(us: seq<Pdu>, end: nat) {
    && (forall k {:trigger StartOf(us, k)} :: 0 <= k < |us| ==> us[k].start == StartOf(us, k))
    && end == StartOf(us, |us|)
  }

  function StartOf(us: seq<Pdu>, k: nat): nat
    requires k <= |us|
  {
    if k == 0 then 0 else us[k - 1].end
  }

  ghost predicate ArePdus(d: seq<GF>, us: seq<Pdu>, audioEnd: nat) {
    forall k :: 0 <= k < |us| ==> IsPdu(d, us[k], audioEnd)
  }

  // ---------- later corrections leave an audio PDU alone ----------

  // d and e carry the same bytes before n.
  ghost predicate SameBefore(d: seq<GF>, e: seq<GF>, n: nat) {
    |d| == |e| && n <= |d| && forall k :: 0 <= k < n ==> d[k] == e[k]
  }

  lemma {:induction false} ExpandLocal(b: seq<GF>, c: seq<GF>, k: nat, program: nat, n: nat)
    requires k <= |b| && program < 8 && SameBefore(b, c, n)
    requires Expand(b, k, program).used <= n
    ensures Expand(c, k, program) == Expand(b, k, program)
    decreases |b| - k
  {
    if k < |b| {
      var last := k + ExtraBytes(Value(b[k]));
      assert k < n;
      if last < |b| && Value(b[last]) >= 128 {
        ExpandLocal(b, c, last + 1, if Value(b[k]) / 16 % 8 == 1 then Value(b[k]) / 2 % 8 else program, n);
      }
    }
  }

  lemma ExpansionKeeps(d: seq<GF>, e: seq<GF>, s: nat, h: Header, audioEnd: nat, n: nat)
    requires AfterTable(s, h) <= audioEnd <= |d| && SameBefore(d, e, n)
    requires AfterTable(s, h) + ExpansionOf(d, s, h, audioEnd).used <= n
    ensures ExpansionOf(e, s, h, audioEnd) == ExpansionOf(d, s, h, audioEnd)
  {
    if h.hef {
      var a := AfterTable(s, h);
      var b, c, m := d[a..audioEnd], e[a..audioEnd], if n <= audioEnd then n - a else audioEnd - a;
      assert forall k :: 0 <= k < m ==> b[k] == d[a + k] && c[k] == e[a + k];
      ExpandLocal(b, c, 0, 0, m);
    }
  }

  lemma HeaderKeeps(d: seq<GF>, e: seq<GF>, s: nat, n: nat)
    requires SameBefore(d, e, n) && s + 14 <= n
    ensures HeaderAt(e, s) == HeaderAt(d, s)
  {
    assert d[s + 8] == e[s + 8] && d[s + 9] == e[s + 9] && d[s + 10] == e[s + 10];
    assert d[s + 11] == e[s + 11] && d[s + 12] == e[s + 12] && d[s + 13] == e[s + 13];
  }

  lemma LocatedKeeps(d: seq<GF>, e: seq<GF>, s: nat, h: Header, ls: seq<nat>, n: nat)
    requires Located(d, s, h, ls) && SameBefore(d, e, n) && AfterTable(s, h) <= n
    ensures Located(e, s, h, ls)
  {
    assert Table(e, s, h) == Table(d, s, h);
  }

  lemma PacketKeeps(d: seq<GF>, e: seq<GF>, s: nat, h: Header, ls: seq<nat>, i: nat, p: Packet, n: nat)
    requires i < |ls| && h.seqno < 64 && IsPacket(d, s, h, ls, i, p) && SameBefore(d, e, n) && s + ls[i] < n
    ensures IsPacket(e, s, h, ls, i, p)
  {
    CutSame(d, e, p.start, p.start + p.size + 1, n);
  }

  lemma CutSame(d: seq<GF>, e: seq<GF>, a: nat, b: nat, n: nat)
    requires SameBefore(d, e, n) && a <= b <= n
    ensures d[a..b] == e[a..b]
  {
  }

  lemma PacketsKeep(d: seq<GF>, e: seq<GF>, s: nat, h: Header, ls: seq<nat>, ps: seq<Packet>, n: nat)
    requires ArePackets(d, s, h, ls, ps) && SameBefore(d, e, n) && forall i :: 0 <= i < |ls| ==> s + ls[i] < n
    ensures ArePackets(e, s, h, ls, ps)
  {
    forall i | 0 <= i < |ps| ensures IsPacket(e, s, h, ls, i, ps[i]) { PacketKeeps(d, e, s, h, ls, i, ps[i], n); }
  }

  // The last location is the largest.
  lemma {:induction false} LastIsLargest(s: nat, la: nat, ls: seq<nat>, audioEnd: nat, i: nat, j: nat)
    requires Ascending(s, la, ls, audioEnd) && i <= j < |ls|
    ensures ls[i] <= ls[j]
    decreases j
  {
    if i < j {
      LastIsLargest(s, la, ls, audioEnd, i, j - 1);
      assert Before(la, ls, j) < ls[j];
    }
  }

  lemma PduKeeps(d: seq<GF>, e: seq<GF>, u: Pdu, audioEnd: nat)
    requires IsPdu(d, u, audioEnd) && SameBefore(d, e, u.end)
    ensures IsPdu(e, u, audioEnd)
  {
    OpenPdu(SEALS, d, u, audioEnd);
    OpenPdu(SEALS, e, u, audioEnd);
    PartsKeep(d, e, u, audioEnd);
  }

  lemma PartsKeep(d: seq<GF>, e: seq<GF>, u: Pdu, audioEnd: nat)
    requires PduParts(d, u, audioEnd) && SameBefore(d, e, u.end)
    ensures PduParts(e, u, audioEnd)
  {
    var s, h, ls := u.start, u.header, u.locations;
    PduEnds(s, h, ls, audioEnd);
    HeaderKeeps(d, e, s, u.end);
    LocatedKeeps(d, e, s, h, ls, u.end);
    AllInside(s, h, ls, audioEnd, u.end);
    if h.streamId < MAX_STREAMS {
      ExpansionKeeps(d, e, s, h, audioEnd, u.end);
      PacketsKeep(d, e, s, h, ls, u.packets, u.end);
    }
  }

  // Every location lies before the last one, and that before the end.
  lemma AllInside(s: nat, h: Header, ls: seq<nat>, audioEnd: nat, n: nat)
    requires Ascending(s, h.la, ls, audioEnd) && (|ls| > 0 ==> s + ls[|ls| - 1] < n)
    ensures forall i :: 0 <= i < |ls| ==> s + ls[i] < n
  {
    forall i | 0 <= i < |ls| ensures s + ls[i] < n { LastIsLargest(s, h.la, ls, audioEnd, i, |ls| - 1); }
  }

  lemma RunKeeps(d: seq<GF>, e: seq<GF>, us: seq<Pdu>, end: nat, audioEnd: nat)
    requires Chain(us, end) && ArePdus(d, us, audioEnd) && SameBefore(d, e, end)
    ensures ArePdus(e, us, audioEnd)
  {
    forall k | 0 <= k < |us| ensures IsPdu(e, us[k], audioEnd) {
      EndsClimb(d, us, audioEnd, k + 1, |us|);
      PduKeeps(d, e, us[k], audioEnd);
    }
  }

  lemma {:induction false} EndsClimb(d: seq<GF>, us: seq<Pdu>, audioEnd: nat, k: nat, n: nat)
    requires ArePdus(d, us, audioEnd) && Chain(us, StartOf(us, |us|)) && k <= n <= |us|
    ensures StartOf(us, k) <= StartOf(us, n)
    ensures k < n ==> StartOf(us, k) + 14 <= StartOf(us, n)
  {
    if k < n {
      EndsClimb(d, us, audioEnd, k, n - 1);
      assert us[n - 1].start == StartOf(us, n - 1);
      PduSpans(d, us[n - 1], audioEnd);
    }
  }

  lemma ChainGrows(us: seq<Pdu>, end: nat, u: Pdu)
    requires Chain(us, end) && u.start == end
    ensures Chain(us + [u], u.end)
  {
    var t := us + [u];
    forall k | 0 <= k < |t| ensures t[k].start == StartOf(t, k) { assert k <= |us| ==> StartOf(t, k) == StartOf(us, k); }
  }

  datatype Stop = AllTaken | HeaderLost | LocationsRefused | NotInContract

  /** The loop of frame_process: what it takes are audio PDUs that follow each other
      without gap from the first byte, and it ends because each one moves it on. */
  method FrameProcess(rs: Rs, buf: array<GF>, audioEnd: nat) returns (us: seq<Pdu>, offset: nat, stop: Stop)
    requires rs.Valid() && CODEWORD <= audioEnd <= buf.Length
    modifies buf
    ensures Chain(us, offset) && offset <= audioEnd && ArePdus(buf[..], us, audioEnd)
    ensures stop == AllTaken <==> offset >= audioEnd - CODEWORD
    ensures stop == HeaderLost ==>
      forall h: RsCodec.Header :: !RsCodec.Near(RsCodec.Block(h), RsCodec.Block(buf[offset..offset + CODEWORD]))
    ensures stop == LocationsRefused ==> !Acceptable(buf[..], offset, audioEnd)
    ensures stop == NotInContract ==>
      Acceptable(buf[..], offset, audioEnd) && !InContract(buf[..], offset, HeaderAt(buf[..], offset), audioEnd)
    ensures buf[audioEnd..] == old(buf[audioEnd..])
  {
    us, offset := [], 0;
    while offset < audioEnd - CODEWORD
      invariant offset <= audioEnd && Chain(us, offset) && ArePdus(buf[..], us, audioEnd)
      invariant buf[audioEnd..] == old(buf[audioEnd..])
      decreases audioEnd - offset
    {
      ghost var d := buf[..];
      var outcome, u := TakePdu(rs, buf, offset, audioEnd);
      assert buf[audioEnd..] == d[audioEnd..] by {
        assert buf[audioEnd..] == buf[offset + CODEWORD..][audioEnd - offset - CODEWORD..];
        assert d[audioEnd..] == d[offset + CODEWORD..][audioEnd - offset - CODEWORD..];
      }
      assert SameBefore(d, buf[..], offset) by {
        assert d[..offset] == buf[..offset];
        assert forall k :: 0 <= k < offset ==> d[k] == d[..offset][k] && buf[k] == buf[..offset][k];
      }
      RunKeeps(d, buf[..], us, offset, audioEnd);
      if outcome == NotCorrectable {
        return us, offset, HeaderLost;
      } else if outcome == BadLocations {
        return us, offset, LocationsRefused;
      } else if outcome == OutOfContract {
        return us, offset, NotInContract;
      }
      PduSpans(buf[..], u, audioEnd);
      ChainGrows(us, offset, u);
      us, offset := us + [u], u.end;
    }
    stop := AllTaken;
  }

  // ---------- tiling ----------

  // Part 0 of an audio PDU is its header area, part i + 1 its packet i with its
  // checksum byte.
  function PartStart(u: Pdu, i: nat): nat
    requires i <= |u.locations| + 1
  {
    if i == 0 then u.start else PacketStart(u.start, u.header, u.locations, i - 1)
  }

  ghost predicate InPart(us: seq<Pdu>, k: nat, i: nat, p: nat) {
    k < |us| && i <= |us[k].locations| && PartStart(us[k], i) <= p < PartStart(us[k], i + 1)
  }

  // A packet that was pushed is its part.
  lemma PacketIsPart(d: seq<GF>, u: Pdu, audioEnd: nat, i: nat)
    requires IsPdu(d, u, audioEnd) && i < |u.packets|
    ensures i < |u.locations|
    ensures u.packets[i].start == PartStart(u, i + 1)
    ensures u.packets[i].start + u.packets[i].size + 1 == PartStart(u, i + 2)
  {
    OpenPdu(SEALS, d, u, audioEnd);
    assert IsPacket(d, u.start, u.header, u.locations, i, u.packets[i]);
  }

  lemma PartEnds(d: seq<GF>, u: Pdu, audioEnd: nat)
    requires IsPdu(d, u, audioEnd)
    ensures PartStart(u, |u.locations| + 1) == u.end
  {
    OpenPdu(SEALS, d, u, audioEnd);
  }

  lemma PartGrows(d: seq<GF>, u: Pdu, audioEnd: nat, i: nat)
    requires IsPdu(d, u, audioEnd) && i <= |u.locations|
    ensures PartStart(u, i) <= PartStart(u, i + 1)
  {
    OpenPdu(SEALS, d, u, audioEnd);
    if i > 0 { assert Before(u.header.la, u.locations, i - 1) < u.locations[i - 1]; }
  }

  lemma {:induction false} PartsClimb(d: seq<GF>, u: Pdu, audioEnd: nat, i: nat, j: nat)
    requires IsPdu(d, u, audioEnd) && i <= j <= |u.locations| + 1
    ensures PartStart(u, i) <= PartStart(u, j)
  {
    if i < j {
      PartsClimb(d, u, audioEnd, i, j - 1);
      PartGrows(d, u, audioEnd, j - 1);
    }
  }

  /** Every byte before the end of the run lies in a header area or in a packet. */
  lemma {:induction false} EveryByteTaken(d: seq<GF>, us: seq<Pdu>, end: nat, audioEnd: nat, p: nat)
    requires Chain(us, end) && ArePdus(d, us, audioEnd) && p < end
    ensures exists k, i :: InPart(us, k, i, p)
  {
    var k := PduWith(us, end, p, |us| - 1);
    PartEnds(d, us[k], audioEnd);
    var i := PartWith(us[k], p, |us[k].locations|);
    assert InPart(us, k, i, p);
  }

  lemma {:induction false} PduWith(us: seq<Pdu>, end: nat, p: nat, n: nat) returns (k: nat)
    requires Chain(us, end) && n < |us| && p < us[n].end
    ensures k < |us| && us[k].start <= p < us[k].end
    decreases n
  {
    assert us[n].start == StartOf(us, n);
    if us[n].start > p { k := PduWith(us, end, p, n - 1); } else { k := n; }
  }

  lemma {:induction false} PartWith(u: Pdu, p: nat, n: nat) returns (i: nat)
    requires n <= |u.locations| && u.start <= p < PartStart(u, n + 1)
    ensures i <= |u.locations| && PartStart(u, i) <= p < PartStart(u, i + 1)
    decreases n
  {
    if PartStart(u, n) > p { i := PartWith(u, p, n - 1); } else { i := n; }
  }

  lemma InsidePdu(d: seq<GF>, us: seq<Pdu>, audioEnd: nat, k: nat, i: nat, p: nat)
    requires ArePdus(d, us, audioEnd) && InPart(us, k, i, p)
    ensures us[k].start <= p < us[k].end
  {
    PartsClimb(d, us[k], audioEnd, 0, i);
    PartsClimb(d, us[k], audioEnd, i + 1, |us[k].locations| + 1);
    PartEnds(d, us[k], audioEnd);
  }

  /** No byte lies in two of them. */
  lemma NoByteTwice(d: seq<GF>, us: seq<Pdu>, end: nat, audioEnd: nat, p: nat, k: nat, i: nat, m: nat, j: nat)
    requires Chain(us, end) && ArePdus(d, us, audioEnd)
    requires InPart(us, k, i, p) && InPart(us, m, j, p)
    ensures k == m && i == j
  {
    InsidePdu(d, us, audioEnd, k, i, p);
    InsidePdu(d, us, audioEnd, m, j, p);
    assert us[k].start == StartOf(us, k) && us[m].start == StartOf(us, m);
    if k < m {
      EndsClimb(d, us, audioEnd, k + 1, m);
    } else if m < k {
      EndsClimb(d, us, audioEnd, m + 1, k);
    } else if i < j {
      PartsClimb(d, us[k], audioEnd, i + 1, j);
    } else if j < i {
      PartsClimb(d, us[k], audioEnd, j + 1, i);
    }
  }
}
