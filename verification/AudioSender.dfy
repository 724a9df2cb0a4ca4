/** The sender of an audio PDU: every field, table and packet laid out one after
    another, and read back by the receiver (src/frame.c:200-340, 560-656). */
module AudioSender {
  import opened Basics
  import opened Arith
  import opened Field
  import opened Crc
  import opened AudioPdu

  // The bytes b lie in d from p on.
  predicate Holds(d: seq<GF>, p: nat, b: seq<nat>) {
    p + |b| <= |d| && forall k :: 0 <= k < |b| ==> d[p + k].bits as int == b[k]
  }

  lemma HoldsParts(d: seq<GF>, p: nat, a: seq<nat>, b: seq<nat>)
    requires Holds(d, p, a + b)
    ensures Holds(d, p, a) && Holds(d, p + |a|, b)
  {
    forall k | 0 <= k < |a| ensures d[p + k].bits as int == a[k] { assert (a + b)[k] == a[k]; }
    forall k | 0 <= k < |b| ensures d[p + |a| + k].bits as int == b[k] { assert (a + b)[|a| + k] == b[k]; }
  }

  // ---------- the header fields ----------

  datatype Fields = Fields(codecMode: nat, streamId: nat, pduSeq: nat, blend: nat, gain: nat, delay: nat, latency: nat,
                           pfirst: nat, plast: nat, seqno: nat, nop: nat, hef: nat, la: nat) {
    predicate Fit() {
      && codecMode < 16 && streamId < 4 && pduSeq < 8 && blend < 4 && gain < 32 && delay < 64 && latency < 8
      && pfirst < 2 && plast < 2 && seqno < 64 && nop < 64 && hef < 2 && la < 256
    }
  }

  // A value of width bits, and what follows it above.
  function Then(value: nat, width: nat, rest: nat): nat { value + Pow2(width) * rest }

  // The fields in the order of sending, with their widths, as one number of 48 bits,
  // the first field lowest.
  function Laid(f: Fields): nat {
    Then(f.codecMode, 4, Then(f.streamId, 2, Then(f.pduSeq, 3, Then(f.blend, 2, Then(f.gain, 5, Then(f.delay, 6,
    Then(f.latency, 3, Then(f.pfirst, 1, Then(f.plast, 1, Then(f.seqno, 6, Then(f.nop, 6, Then(f.hef, 1,
    Then(f.la, 8, 0)))))))))))))
  }

  function LowBytes(v: nat, n: nat): (b: seq<nat>)
    ensures |b| == n
  {
    if n == 0 then [] else [v % 256] + LowBytes(v / 256, n - 1)
  }

  // Bytes 8 to 13 of the audio PDU.
  function HeaderBytes(f: Fields): seq<nat> { LowBytes(Laid(f), 6) }

  function HeaderOf(f: Fields): Header {
    Header(f.codecMode, f.streamId, f.pduSeq, f.latency, f.pfirst == 1, f.plast == 1, f.seqno, f.nop, f.hef == 1, f.la)
  }

  lemma Widths()
    ensures Pow2(1) == 2 && Pow2(2) == 4 && Pow2(3) == 8 && Pow2(4) == 16 && Pow2(5) == 32 && Pow2(6) == 64 && Pow2(8) == 256
  {
    assert Pow2(3) == 8 && Pow2(6) == 64;
  }

  // A field that lies in two bytes: its low part fills up a byte, its high part begins
  // the next. Three bits, of which two are left, or six bits, of which five are.
  lemma SplitThree(low: nat, value: nat, rest: nat)
    requires low < 64
    ensures var v := low + 64 * (value + 8 * rest);
      v % 256 == low + 64 * (value % 4) && v / 256 == value / 4 + 2 * rest
  {
    var q, r := value / 4, value % 4;
    DivUnique(low + 64 * (value + 8 * rest), 256, q + 2 * rest, low + 64 * r);
  }

  lemma SplitSix(low: nat, value: nat, rest: nat)
    requires low < 8
    ensures var v := low + 8 * (value + 64 * rest);
      v % 256 == low + 8 * (value % 32) && v / 256 == value / 32 + 2 * rest
  {
    var q, r := value / 32, value % 32;
    DivUnique(low + 8 * (value + 64 * rest), 256, q + 2 * rest, low + 8 * r);
  }

  // What remains above the fields of bytes 8 and 9, 10, and 11.
  function Above9(f: Fields): nat { f.delay + 64 * (f.latency + 8 * Above10(f)) }

  function Above10(f: Fields): nat { f.pfirst + 2 * (f.plast + 2 * (f.seqno + 64 * Above11(f))) }

  function Above11(f: Fields): nat { f.nop + 64 * (f.hef + 2 * f.la) }

  lemma LaidIs(f: Fields)
    ensures Laid(f) == f.codecMode + 16 * f.streamId + 64 * (f.pduSeq + 8 * (f.blend + 4 * (f.gain + 32 * Above9(f))))
  {
    Widths();
    assert Then(f.la, 8, 0) == f.la;
    assert Then(f.nop, 6, Then(f.hef, 1, Then(f.la, 8, 0))) == Above11(f);
    assert Then(f.pfirst, 1, Then(f.plast, 1, Then(f.seqno, 6, Above11(f)))) == Above10(f);
    assert Then(f.delay, 6, Then(f.latency, 3, Above10(f))) == Above9(f);
  }

  lemma Bytes89(f: Fields, v: nat)
    requires f.Fit() && v == Laid(f)
    ensures v % 256 == f.codecMode + 16 * f.streamId + 64 * (f.pduSeq % 4)
    ensures v / 256 % 256 == f.pduSeq / 4 + 2 * f.blend + 8 * f.gain && v / 256 / 256 == Above9(f)
  {
    LaidIs(f);
    SplitThree(f.codecMode + 16 * f.streamId, f.pduSeq, f.blend + 4 * (f.gain + 32 * Above9(f)));
    DivUnique(v / 256, 256, Above9(f), f.pduSeq / 4 + 2 * f.blend + 8 * f.gain);
  }

  lemma Bytes1011(f: Fields, v: nat)
    requires f.Fit() && v == Above9(f)
    ensures v % 256 == f.delay + 64 * (f.latency % 4)
    ensures v / 256 % 256 == f.latency / 4 + 2 * f.pfirst + 4 * f.plast + 8 * (f.seqno % 32)
    ensures v / 256 / 256 == f.seqno / 32 + 2 * Above11(f)
  {
    SplitThree(f.delay, f.latency, Above10(f));
    SplitSix(f.latency / 4 + 2 * f.pfirst + 4 * f.plast, f.seqno, Above11(f));
  }

  lemma Bytes1213(f: Fields, v: nat)
    requires f.Fit() && v == f.seqno / 32 + 2 * Above11(f)
    ensures v % 256 == f.seqno / 32 + 2 * f.nop + 128 * f.hef && v / 256 % 256 == f.la
  {
    DivUnique(v, 256, f.la, f.seqno / 32 + 2 * f.nop + 128 * f.hef);
  }

  lemma LowBytesAre(v: nat, b: seq<nat>)
    requires b == LowBytes(v, 6)
    ensures b[0] == v % 256 && b[1] == v / 256 % 256
    ensures var w := v / 256 / 256; b[2] == w % 256 && b[3] == w / 256 % 256
    ensures var w := v / 256 / 256 / 256 / 256; b[4] == w % 256 && b[5] == w / 256 % 256
  {
    TwoLow(v, 6);
    TwoLow(v / 256 / 256, 4);
    TwoLow(v / 256 / 256 / 256 / 256, 2);
  }

  lemma TwoLow(v: nat, n: nat)
    requires n >= 2
    ensures LowBytes(v, n) == [v % 256, v / 256 % 256] + LowBytes(v / 256 / 256, n - 2)
  {
    assert LowBytes(v / 256, n - 1) == [v / 256 % 256] + LowBytes(v / 256 / 256, n - 2);
  }

  /** The header as sent is the header as read. */
  lemma HeaderRoundTrip(d: seq<GF>, s: nat, f: Fields)
    requires f.Fit() && s + 14 <= |d| && Holds(d, s + 8, HeaderBytes(f))
    ensures HeaderAt(d, s) == HeaderOf(f)
  {
    LowBytesAre(Laid(f), HeaderBytes(f));
    Bytes89(f, Laid(f));
    Bytes1011(f, Above9(f));
    Bytes1213(f, f.seqno / 32 + 2 * Above11(f));
    BytesRead(d, s, HeaderBytes(f));
    FieldsRead(d, s, f);
  }

  lemma FieldsRead(d: seq<GF>, s: nat, f: Fields)
    requires f.Fit() && s + 14 <= |d|
    requires Value(d[s + 8]) == f.codecMode + 16 * f.streamId + 64 * (f.pduSeq % 4)
    requires Value(d[s + 9]) == f.pduSeq / 4 + 2 * f.blend + 8 * f.gain
    requires Value(d[s + 10]) == f.delay + 64 * (f.latency % 4)
    requires Value(d[s + 11]) == f.latency / 4 + 2 * f.pfirst + 4 * f.plast + 8 * (f.seqno % 32)
    requires Value(d[s + 12]) == f.seqno / 32 + 2 * f.nop + 128 * f.hef && Value(d[s + 13]) == f.la
    ensures HeaderAt(d, s) == HeaderOf(f)
  {
    Byte8(Value(d[s + 8]), f.codecMode, f.streamId, f.pduSeq % 4);
    Byte9(Value(d[s + 9]), f.pduSeq / 4, f.blend + 4 * f.gain);
    Byte10(Value(d[s + 10]), f.delay, f.latency % 4);
    Byte11(Value(d[s + 11]), f.latency / 4, f.pfirst, f.plast, f.seqno % 32);
    Byte12(Value(d[s + 12]), f.seqno / 32, f.nop, f.hef);
  }

  lemma Byte8(b: nat, mode: nat, stream: nat, q: nat)
    requires mode < 16 && stream < 4 && b == mode + 16 * stream + 64 * q
    ensures b % 16 == mode && b / 16 % 4 == stream && b / 64 == q
  {
    DivUnique(b, 16, stream + 4 * q, mode);
    DivUnique(stream + 4 * q, 4, q, stream);
    DivUnique(b, 64, q, mode + 16 * stream);
  }

  lemma Byte9(b: nat, q: nat, rest: nat)
    requires q < 2 && b == q + 2 * rest
    ensures b % 2 == q
  {
  }

  lemma Byte10(b: nat, delay: nat, q: nat)
    requires delay < 64 && b == delay + 64 * q
    ensures b / 64 == q
  {
    DivUnique(b, 64, q, delay);
  }

  lemma Byte11(b: nat, q: nat, first: nat, last: nat, r: nat)
    requires q < 2 && first < 2 && last < 2 && b == q + 2 * first + 4 * last + 8 * r
    ensures b % 2 == q && b / 2 % 2 == first && b / 4 % 2 == last && b / 8 == r
  {
    DivUnique(b, 2, first + 2 * last + 4 * r, q);
    DivUnique(first + 2 * last + 4 * r, 2, last + 2 * r, first);
    DivUnique(b, 4, last + 2 * r, q + 2 * first);
    DivUnique(last + 2 * r, 2, r, last);
    DivUnique(b, 8, r, q + 2 * first + 4 * last);
  }

  lemma Byte12(b: nat, q: nat, nop: nat, hef: nat)
    requires q < 2 && nop < 64 && hef < 2 && b == q + 2 * nop + 128 * hef
    ensures b % 2 == q && b / 2 % 64 == nop && (b >= 128 <==> hef == 1)
  {
    DivUnique(b, 2, nop + 64 * hef, q);
    DivUnique(nop + 64 * hef, 64, hef, nop);
  }

  lemma BytesRead(d: seq<GF>, s: nat, b: seq<nat>)
    requires s + 14 <= |d| && |b| == 6 && Holds(d, s + 8, b)
    ensures Value(d[s + 8]) == b[0] && Value(d[s + 9]) == b[1] && Value(d[s + 10]) == b[2]
    ensures Value(d[s + 11]) == b[3] && Value(d[s + 12]) == b[4] && Value(d[s + 13]) == b[5]
  {
    assert d[s + 8 + 0].bits as int == b[0] && d[s + 8 + 1].bits as int == b[1] && d[s + 8 + 2].bits as int == b[2];
    assert d[s + 8 + 3].bits as int == b[3] && d[s + 8 + 4].bits as int == b[4] && d[s + 8 + 5].bits as int == b[5];
  }

  // ---------- codec modes ----------

  // Bits of a location and packets of an audio PDU, by codec mode, for the core stream
  // and for the others.
  const LC_CORE: seq<nat> := [16, 12, 12, 12, 16, 16, 16, 16, 16, 16, 12, 16, 16, 12, 16, 16]
  const LC_OTHER: seq<nat> := [16, 16, 16, 16, 16, 16, 16, 16, 16, 16, 12, 16, 16, 12, 16, 16]
  const AVERAGE_CORE: seq<nat> := [32, 4, 4, 4, 32, 32, 32, 32, 32, 32, 32, 32, 32, 4, 32, 32]
  const AVERAGE_OTHER: seq<nat> := [32, 32, 32, 32, 32, 32, 32, 32, 32, 32, 4, 32, 32, 4, 32, 32]

  lemma ModeTables(h: Header)
    requires h.codecMode < 16
    ensures LcBits(h) == (if h.streamId == 0 then LC_CORE else LC_OTHER)[h.codecMode]
    ensures AveragePackets(h) == (if h.streamId == 0 then AVERAGE_CORE else AVERAGE_OTHER)[h.codecMode]
  {
  }

  // ---------- sequence numbers ----------

  /** The packet that has the sequence number of the header is the first whole one; a
      back half in front of it belongs to the number before, and only the last can be
      a front half. */
  lemma WholePacketNumber(h: Header, i: nat)
    requires h.seqno < 64 && i < h.nop
    ensures i == (if h.pfirst then 1 else 0) ==> (FirstSlot(h) + i) % 64 == h.seqno
    ensures h.pfirst ==> (FirstSlot(h) + 1) % 64 == h.seqno
    ensures ShapeOf(h, i) == HalfBack <==> i == 0 && h.pfirst
    ensures ShapeOf(h, i) == HalfFront <==> i == h.nop - 1 && h.plast && !(i == 0 && h.pfirst)
  {
    if h.pfirst && h.seqno == 0 { assert FirstSlot(h) == 63; }
  }

  /** Reading starts at slot 0 or 32 for sequence number and latency 0; each PDU moves
      it on by its packets, each unit of latency back by two. */
  lemma ReadSlotLaws(h: Header, slot: nat, g: Header, other: nat)
    requires h.seqno < 64 && g.seqno < 64 && Aligned(h, slot) && Aligned(g, other)
    requires AveragePackets(g) == AveragePackets(h)
    ensures (64 + FirstSlot(h) - slot) % 64 < 32
    ensures h.pduSeq == 0 && h.latency == 0 ==> slot % 32 == 0
    ensures g.pduSeq == h.pduSeq + 1 && g.latency == h.latency ==> (other - slot - AveragePackets(h)) % 32 == 0
    ensures g.pduSeq == h.pduSeq && g.latency == h.latency + 1 ==> (other - slot + 2) % 32 == 0
  {
    var a, b := h.pduSeq * AveragePackets(h), g.pduSeq * AveragePackets(g);
    if g.pduSeq == h.pduSeq + 1 { assert b == a + AveragePackets(h); }
    Residue(slot, SLOTS + a - h.latency * 2);
    Residue(other, SLOTS + b - g.latency * 2);
    if g.pduSeq == h.pduSeq + 1 && g.latency == h.latency {
      Multiple(other - slot - AveragePackets(h), slot, other, SLOTS + a - h.latency * 2, SLOTS + b - g.latency * 2);
    }
    if g.pduSeq == h.pduSeq && g.latency == h.latency + 1 {
      Multiple(other - slot + 2, slot, other, SLOTS + a - h.latency * 2, SLOTS + b - g.latency * 2);
    }
  }

  lemma Residue(slot: int, t: int)
    requires slot % 32 == t % 32
    ensures slot - t == 32 * (slot / 32 - t / 32)
  {
  }

  lemma Multiple(x: int, slot: int, other: int, t: int, t': int)
    requires slot - t == 32 * (slot / 32 - t / 32) && other - t' == 32 * (other / 32 - t' / 32)
    requires x == other - slot - (t' - t)
    ensures x % 32 == 0
  {
    DivUnique(x, 32, other / 32 - t' / 32 - slot / 32 + t / 32, 0);
  }

  // ---------- header expansion ----------

  // The fields of a header expansion, with what they hold.
  datatype Entry =
    | Class(ind: nat)
    | Program(number: nat)
    | ProgramLength(number: nat, len: nat)
    | Type(access: nat, code: nat)
    | Spare3(a: nat, b: nat, c: nat)
    | Spare4(a: nat, b: nat, c: nat, e: nat)
    | Services(count: nat)
    | Marker(count: nat, marker: nat)
  {
    predicate Fit() {
      match this
      case Class(ind) => ind < 16
      case Program(n) => n < 8
      case ProgramLength(n, len) => n < 8 && len < 16384
      case Type(access, code) => access < 2 && code < 256
      case Spare3(a, b, c) => a < 128 && b < 128 && c < 128
      case Spare4(a, b, c, e) => a < 128 && b < 128 && c < 128 && e < 128
      case Services(n) => n < 128
      case Marker(n, m) => n < 8 && m < 2097152
    }

    // Seven bits of each byte; the eighth is for the end of the field.
    function Bytes(): seq<nat> {
      match this
      case Class(ind) => [ind]
      case Program(n) => [16 + 2 * n]
      case ProgramLength(n, len) => [17 + 2 * n, len / 128, len % 128]
      case Type(access, code) => [32 + 8 * access + code / 128, code % 128]
      case Spare3(a, b, c) => [48, a, b, c]
      case Spare4(a, b, c, e) => [56, a, b, c, e]
      case Services(n) => [64, n]
      case Marker(n, m) => [72 + n, m / 16384, m / 128 % 128, m % 128]
    }
  }

  // The last byte of a field says whether another follows.
  function Written(entries: seq<Entry>): seq<nat> {
    if |entries| == 0 then []
    else Marked(entries[0], |entries| > 1) + Written(entries[1..])
  }

  function Marked(e: Entry, more: bool): seq<nat> {
    var b := e.Bytes();
    b[..|b| - 1] + [b[|b| - 1] + if more then 128 else 0]
  }

  // The last program number among them.
  function ProgramOf(entries: seq<Entry>, program: nat): nat {
    if |entries| == 0 then program
    else ProgramOf(entries[1..], NextProgram(entries[0], program))
  }

  function NextProgram(e: Entry, program: nat): nat {
    match e
    case Program(n) => n
    case ProgramLength(n, _) => n
    case _ => program
  }

  ghost predicate AllFit(entries: seq<Entry>) { forall i :: 0 <= i < |entries| ==> entries[i].Fit() }

  // The first byte of a field, whether it is the last one too.
  lemma FirstByte(e: Entry, v: nat)
    requires e.Fit() && (v == e.Bytes()[0] || (|e.Bytes()| == 1 && v == e.Bytes()[0] + 128))
    ensures ExtraBytes(v) == |e.Bytes()| - 1
    ensures v / 16 % 8 == 1 <==> e.Program? || e.ProgramLength?
    ensures e.Program? || e.ProgramLength? ==> v / 2 % 8 == e.number
  {
  }

  lemma LastByte(e: Entry)
    requires e.Fit()
    ensures |e.Bytes()| > 0 && e.Bytes()[|e.Bytes()| - 1] < 128
  {
  }

  /** A header expansion is used up exactly, and its program number read. */
  lemma {:induction false} ExpansionRoundTrip(b: seq<GF>, k: nat, entries: seq<Entry>, program: nat)
    requires |entries| > 0 && AllFit(entries) && program < 8 && Holds(b, k, Written(entries))
    ensures Expand(b, k, program) == Expansion(k + |Written(entries)|, ProgramOf(entries, program))
    decreases |entries|
  {
    var e, rest := entries[0], entries[1..];
    var field := Marked(e, |entries| > 1);
    HoldsParts(b, k, field, Written(rest));
    FieldRead(b, k, e, |entries| > 1, program);
    var p := NextProgram(e, program);
    if |entries| > 1 {
      assert Expand(b, k, program) == Expand(b, k + |field|, p);
      ExpansionRoundTrip(b, k + |field|, rest, p);
    } else {
      assert rest == [];
      assert Expand(b, k, program) == Expansion(k + |field|, p);
    }
  }

  // One field, read.
  lemma FieldRead(b: seq<GF>, k: nat, e: Entry, more: bool, program: nat)
    requires e.Fit() && Holds(b, k, Marked(e, more))
    ensures var n := |Marked(e, more)| - 1; var v := Value(b[k]);
      && n >= 0 && ExtraBytes(v) == n && k + n < |b| && (Value(b[k + n]) >= 128 <==> more)
      && (if v / 16 % 8 == 1 then v / 2 % 8 else program) == NextProgram(e, program)
      && (program < 8 ==> NextProgram(e, program) < 8)
  {
    var bytes := Marked(e, more);
    LastByte(e);
    var n := |bytes| - 1;
    assert b[k + 0].bits as int == bytes[0] && b[k + n].bits as int == bytes[n];
    FirstByte(e, Value(b[k]));
  }

  // ---------- a whole audio PDU ----------

  datatype Sent = Sent(fields: Fields, entries: seq<Entry>, psd: seq<nat>, packets: seq<seq<bv8>>)

  function Nats(b: seq<bv8>): (n: seq<nat>)
    ensures |n| == |b| && forall k :: 0 <= k < |b| ==> n[k] == b[k] as nat
  {
    seq(|b|, k requires 0 <= k < |b| => b[k] as nat)
  }

  // Every packet with its checksum behind it.
  function PacketBytes(packets: seq<seq<bv8>>): seq<nat> {
    if |packets| == 0 then []
    else
      var n := |packets| - 1;
      PacketBytes(packets[..n]) + Nats(Checked(packets[n]))
  }

  // A packet with its checksum; proofs do not look inside (SEALS).
  function Checked(b: seq<bv8>): seq<bv8> { SealedChecked(SEALS, b) }

  function SealedChecked(seals: seq<bool>, b: seq<bv8>): seq<bv8> {
    if |seals| > 0 then SealedChecked(seals[1..], b) else b + [Crc8(b)]
  }

  lemma {:induction false} OpenChecked(seals: seq<bool>, b: seq<bv8>)
    ensures SealedChecked(seals, b) == b + [Crc8(b)]
  {
    if |seals| > 0 { OpenChecked(seals[1..], b); }
  }

  lemma CheckedParts(b: seq<bv8>)
    ensures |Checked(b)| == |b| + 1 && Checked(b)[..|b|] == b
  {
    OpenChecked(SEALS, b);
  }

  // Whatever bytes of the buffer these are, their checksum is right.
  lemma ChecksumRight(d: seq<GF>, from: nat, to: nat, b: seq<bv8>)
    requires from <= to <= |d| && Octets(d[from..to]) == Checked(b)
    ensures Checksum(d, from, to) == 0
  {
    OpenChecked(SEALS, b);
    PacketCrcIff(b, Crc8(b));
  }

  // The location of the last byte before packet n, when la is that before the first.
  function EndOf(la: nat, packets: seq<seq<bv8>>, n: nat): nat
    requires n <= |packets|
  {
    if n == 0 then la else EndOf(la, packets, n - 1) + |packets[n - 1]| + 1
  }

  // A location is that of the checksum of its packet.
  function Locations(la: nat, packets: seq<seq<bv8>>, n: nat): (ls: seq<nat>)
    requires n <= |packets|
    ensures |ls| == n && forall i :: 0 <= i < n ==> ls[i] == EndOf(la, packets, i + 1)
  {
    if n == 0 then [] else Locations(la, packets, n - 1) + [EndOf(la, packets, n)]
  }

  function AllLocations(x: Sent): seq<nat> { Locations(x.fields.la, x.packets, |x.packets|) }

  function Bits(x: Sent): nat { LcBits(HeaderOf(x.fields)) }

  // What is sent in front of the packets.
  function FrontBytes(x: Sent): seq<nat>
    requires Bits(x) == 12 || Bits(x) == 16
  {
    HeaderBytes(x.fields) + (Packed(AllLocations(x), Bits(x)) + (Written(x.entries) + x.psd))
  }

  ghost predicate Sound(x: Sent) {
    && x.fields.Fit() && x.fields.streamId < MAX_STREAMS && x.fields.nop == |x.packets|
    && x.fields.hef == (if x.entries == [] then 0 else 1) && AllFit(x.entries)
    && (Bits(x) == 12 || Bits(x) == 16)
    && (forall i :: 0 <= i < |x.packets| ==> AllLocations(x)[i] < if Bits(x) == 12 then 4096 else 65536)
    && 8 + |FrontBytes(x)| == x.fields.la + 1
  }

  // The audio PDU x lies in d from s on, behind the check bytes of its header.
  ghost predicate Lies(d: seq<GF>, s: nat, x: Sent) {
    Sound(x) && Holds(d, s + 8, FrontBytes(x)) && Holds(d, s + x.fields.la + 1, PacketBytes(x.packets))
  }

  lemma PackedLength(x: Sent)
    requires Sound(x)
    ensures |Packed(AllLocations(x), Bits(x))| == LocationBytes(Bits(x), |x.packets|)
  {
    if |x.packets| > 0 { LocationsRoundTrip(AllLocations(x), Bits(x), 0); }
  }

  lemma FrontLength(x: Sent)
    requires Sound(x)
    ensures |FrontBytes(x)| == 6 + LocationBytes(Bits(x), x.fields.nop) + |Written(x.entries)| + |x.psd|
    ensures |Packed(AllLocations(x), Bits(x))| == LocationBytes(Bits(x), x.fields.nop)
  {
    PackedLength(x);
  }

  lemma FrontHeader(d: seq<GF>, s: nat, x: Sent)
    requires Lies(d, s, x)
    ensures s + 14 <= |d| && HeaderAt(d, s) == HeaderOf(x.fields)
  {
    FrontSplits(d, s, HeaderBytes(x.fields), Packed(AllLocations(x), Bits(x)), Written(x.entries), x.psd);
    HeaderRoundTrip(d, s, x.fields);
  }

  lemma FrontTable(d: seq<GF>, s: nat, x: Sent)
    requires Lies(d, s, x)
    ensures Holds(d, s + 14, Packed(AllLocations(x), Bits(x)))
  {
    FrontSplits(d, s, HeaderBytes(x.fields), Packed(AllLocations(x), Bits(x)), Written(x.entries), x.psd);
  }

  lemma FrontEntries(d: seq<GF>, s: nat, x: Sent)
    requires Lies(d, s, x)
    ensures Holds(d, AfterTable(s, HeaderOf(x.fields)), Written(x.entries))
    ensures AfterTable(s, HeaderOf(x.fields)) + |Written(x.entries)| + |x.psd| == s + x.fields.la + 1
  {
    FrontLength(x);
    FrontSplits(d, s, HeaderBytes(x.fields), Packed(AllLocations(x), Bits(x)), Written(x.entries), x.psd);
  }

  lemma FrontSplits(d: seq<GF>, s: nat, a: seq<nat>, t: seq<nat>, w: seq<nat>, psd: seq<nat>)
    requires |a| == 6 && Holds(d, s + 8, a + (t + (w + psd)))
    ensures s + 14 <= |d| && Holds(d, s + 8, a) && Holds(d, s + 14, t) && Holds(d, s + 14 + |t|, w)
  {
    HoldsParts(d, s + 8, a, t + (w + psd));
    HoldsParts(d, s + 14, t, w + psd);
    HoldsParts(d, s + 14 + |t|, w, psd);
  }

  lemma LocationsLie(d: seq<GF>, s: nat, x: Sent, i: nat)
    requires Lies(d, s, x) && i < |x.packets|
    ensures AfterTable(s, HeaderOf(x.fields)) <= |d|
    ensures LocationAt(d, s, HeaderOf(x.fields), i) == AllLocations(x)[i]
  {
    FrontTable(d, s, x);
    PackedLength(x);
    TableLies(d, s, HeaderOf(x.fields), Packed(AllLocations(x), Bits(x)));
    LocationsRoundTrip(AllLocations(x), Bits(x), i);
  }

  lemma TableLies(d: seq<GF>, s: nat, h: Header, t: seq<nat>)
    requires Holds(d, s + 14, t) && |t| == LocationBytes(LcBits(h), h.nop)
    ensures AfterTable(s, h) <= |d| && Table(d, s, h) == t
  {
  }

  lemma LastPacket(packets: seq<seq<bv8>>, n: nat)
    requires 0 < n <= |packets|
    ensures PacketBytes(packets[..n]) == PacketBytes(packets[..n - 1]) + Nats(Checked(packets[n - 1]))
  {
    assert packets[..n][..n - 1] == packets[..n - 1] && packets[..n][n - 1] == packets[n - 1];
  }

  lemma {:induction false} PacketLies(d: seq<GF>, p: nat, la: nat, packets: seq<seq<bv8>>, n: nat, i: nat)
    requires i < n <= |packets| && Holds(d, p + la + 1, PacketBytes(packets[..n]))
    ensures Holds(d, p + EndOf(la, packets, i) + 1, Nats(Checked(packets[i])))
    decreases n
  {
    LastPacket(packets, n);
    HoldsParts(d, p + la + 1, PacketBytes(packets[..n - 1]), Nats(Checked(packets[n - 1])));
    if i < n - 1 { PacketLies(d, p, la, packets, n - 1, i); } else { PacketsLength(la, packets, n - 1); }
  }

  lemma {:induction false} PacketsLength(la: nat, packets: seq<seq<bv8>>, n: nat)
    requires n <= |packets|
    ensures la + |PacketBytes(packets[..n])| == EndOf(la, packets, n)
  {
    if n > 0 {
      PacketsLength(la, packets, n - 1);
      CheckedParts(packets[n - 1]);
      LastPacket(packets, n);
    }
  }

  lemma OctetsLie(d: seq<GF>, p: nat, b: seq<bv8>)
    requires Holds(d, p, Nats(b))
    ensures p + |b| <= |d| && Octets(d[p..p + |b|]) == b
  {
    forall k | 0 <= k < |b| ensures Octets(d[p..p + |b|])[k] == b[k] { assert d[p + k].bits as int == Nats(b)[k]; }
  }

  /** An audio PDU is taken as it was sent: the header, the locations, the program of
      the expansion, and every packet byte for byte, with no checksum error. */
  lemma SentIsTaken(d: seq<GF>, u: Pdu, audioEnd: nat, x: Sent)
    requires IsPdu(d, u, audioEnd) && Lies(d, u.start, x)
    ensures u.header == HeaderOf(x.fields) && u.locations == AllLocations(x) && |u.packets| == |x.packets|
    ensures u.program == ProgramOf(x.entries, 0)
    ensures u.psd + |x.psd| == u.start + x.fields.la + 1
    ensures forall i :: 0 <= i < |x.packets| ==> PacketTaken(d, u.packets[i], x.packets[i])
  {
    OpenPdu(SEALS, d, u, audioEnd);
    var h := HeaderOf(x.fields);
    LocationsTaken(d, u.start, x, u.locations);
    ProgramTaken(d, u.start, x, audioEnd);
    forall i | 0 <= i < |x.packets| ensures PacketTaken(d, u.packets[i], x.packets[i]) {
      assert IsPacket(d, u.start, h, u.locations, i, u.packets[i]);
      OnePacketTaken(d, u.start, x, u.packets[i], i);
    }
  }

  lemma LocationsTaken(d: seq<GF>, s: nat, x: Sent, ls: seq<nat>)
    requires Lies(d, s, x) && s + 14 <= |d| && Located(d, s, HeaderAt(d, s), ls) && |ls| == HeaderAt(d, s).nop
    ensures HeaderAt(d, s) == HeaderOf(x.fields) && ls == AllLocations(x)
    ensures AfterTable(s, HeaderOf(x.fields)) + |Written(x.entries)| + |x.psd| == s + x.fields.la + 1
  {
    FrontHeader(d, s, x);
    FrontEntries(d, s, x);
    forall i | 0 <= i < |x.packets| ensures ls[i] == AllLocations(x)[i] { LocationsLie(d, s, x, i); }
  }

  ghost predicate PacketTaken(d: seq<GF>, p: Packet, b: seq<bv8>) {
    p.size == |b| && p.start + p.size <= |d| && Octets(d[p.start..p.start + p.size]) == b && !p.crcError
  }

  lemma OnePacketTaken(d: seq<GF>, s: nat, x: Sent, p: Packet, i: nat)
    requires Lies(d, s, x) && i < |x.packets|
    requires IsPacket(d, s, HeaderOf(x.fields), AllLocations(x), i, p)
    ensures PacketTaken(d, p, x.packets[i])
  {
    var b := x.packets[i];
    assert x.packets[..|x.packets|] == x.packets;
    PacketLies(d, s, x.fields.la, x.packets, |x.packets|, i);
    assert p.start == s + EndOf(x.fields.la, x.packets, i) + 1;
    assert p.size == |b|;
    Intact(d, p.start, b);
  }

  lemma Intact(d: seq<GF>, start: nat, b: seq<bv8>)
    requires Holds(d, start, Nats(Checked(b)))
    ensures start + |b| + 1 <= |d| && Octets(d[start..start + |b|]) == b && Checksum(d, start, start + |b| + 1) == 0
  {
    var t := Checked(b);
    CheckedParts(b);
    OctetsLie(d, start, t);
    ChecksumRight(d, start, start + |b| + 1, b);
    var all := d[start..start + |t|];
    forall k | 0 <= k < |b| ensures d[start..start + |b|][k].bits == b[k] {
      assert Octets(all)[k] == t[k] && t[..|b|][k] == t[k];
    }
  }

  lemma ProgramTaken(d: seq<GF>, s: nat, x: Sent, audioEnd: nat)
    requires Lies(d, s, x) && s + x.fields.la + 1 <= audioEnd <= |d|
    ensures AfterTable(s, HeaderOf(x.fields)) <= audioEnd
    ensures ExpansionOf(d, s, HeaderOf(x.fields), audioEnd) == Expansion(|Written(x.entries)|, ProgramOf(x.entries, 0))
  {
    FrontEntries(d, s, x);
    var a := AfterTable(s, HeaderOf(x.fields));
    HoldsSlice(d, a, audioEnd, Written(x.entries));
    if x.entries != [] { ExpansionRoundTrip(d[a..audioEnd], 0, x.entries, 0); }
  }

  lemma HoldsSlice(d: seq<GF>, a: nat, end: nat, b: seq<nat>)
    requires Holds(d, a, b) && a + |b| <= end <= |d|
    ensures Holds(d[a..end], 0, b)
  {
    forall k | 0 <= k < |b| ensures d[a..end][0 + k].bits as int == b[k] { assert d[a..end][k] == d[a + k]; }
  }

  /** And it is taken: its locations are accepted, and it keeps to what the code takes
      for granted. */
  lemma SentIsAcceptable(d: seq<GF>, s: nat, audioEnd: nat, x: Sent)
    requires Lies(d, s, x) && EndOf(x.fields.la, x.packets, |x.packets|) + s < audioEnd <= |d|
    ensures Acceptable(d, s, audioEnd) && InContract(d, s, HeaderAt(d, s), audioEnd)
  {
    var h, ls := HeaderOf(x.fields), AllLocations(x);
    FrontHeader(d, s, x);
    FrontEntries(d, s, x);
    forall i: nat | i < |ls| ensures Before(h.la, ls, i) < ls[i] && s + ls[i] < audioEnd {
      EndsGrow(x.fields.la, x.packets, i + 1, |x.packets|);
    }
    EndsGrow(x.fields.la, x.packets, 0, |x.packets|);
    forall i | 0 <= i < |ls| ensures ls[i] == LocationAt(d, s, h, i) { LocationsLie(d, s, x, i); }
    assert Located(d, s, h, ls) && Ascending(s, h.la, ls, audioEnd);
    ProgramTaken(d, s, x, audioEnd);
  }

  lemma {:induction false} EndsGrow(la: nat, packets: seq<seq<bv8>>, i: nat, n: nat)
    requires i <= n <= |packets|
    ensures EndOf(la, packets, i) <= EndOf(la, packets, n)
  {
    if i < n { EndsGrow(la, packets, i, n - 1); }
  }
}
