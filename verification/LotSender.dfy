/** The sender of large-object packets (src/output.c:800-888): every field laid out low
    byte first, and read back by the receiver. */
module LotSender {
  import opened Arith
  import opened Lot

  // The byte of value w, counted up from zero.
  function ByteOf(w: nat): (x: bv8)
    requires w < 256
    ensures x as int == w
  {
    if w == 0 then 0 else ByteOf(w - 1) + 1
  }

  // The n low bytes of v, lowest first.
  function Bytes(v: nat, n: nat): (b: seq<bv8>)
    ensures |b| == n
  {
    if n == 0 then [] else [ByteOf(v % 256)] + Bytes(v / 256, n - 1)
  }

  lemma Unrolled(v: nat)
    ensures Bytes(v, 2) == [ByteOf(v % 256), ByteOf(v / 256 % 256)]
    ensures Bytes(v, 4) == [ByteOf(v % 256), ByteOf(v / 256 % 256)] + Bytes(v / 256 / 256, 2)
  {
    assert Bytes(v / 256, 1) == [ByteOf(v / 256 % 256)] + Bytes(v / 256 / 256, 0);
    assert Bytes(v / 256, 3) == [ByteOf(v / 256 % 256)] + Bytes(v / 256 / 256, 2);
  }

  lemma LowBytes(v: nat, b: seq<bv8>, p: nat)
    requires p + 2 <= |b| && b[p] == Bytes(v, 2)[0] && b[p + 1] == Bytes(v, 2)[1]
    ensures b[p] as int == v % 256 && b[p + 1] as int == v / 256 % 256
  {
    Unrolled(v);
  }

  lemma FourBytes(v: nat, b: seq<bv8>, p: nat)
    requires v < 0x1_0000_0000 && p + 4 <= |b| && b[p..p + 4] == Bytes(v, 4)
    ensures b[p] as int == v % 256 && b[p + 1] as int == v / 256 % 256
    ensures b[p + 2] as int == v / 0x1_0000 % 256 && b[p + 3] as int == v / 0x100_0000
    ensures U32(b, p) == v
  {
    var c, w := b[p..p + 4], v / 256 / 256;
    Unrolled(v);
    assert c[0] == b[p] && c[1] == b[p + 1] && c[2] == b[p + 2] && c[3] == b[p + 3];
    assert c[2] == Bytes(w, 2)[0] && c[3] == Bytes(w, 2)[1];
    assert c[0] == Bytes(v, 2)[0] && c[1] == Bytes(v, 2)[1];
    LowBytes(v, b, p);
    LowBytes(w, b, p + 2);
    Quotients(v);
    U32Is(b, p, v);
  }

  lemma U32Is(b: seq<bv8>, p: nat, v: nat)
    requires v < 0x1_0000_0000 && p + 4 <= |b|
    requires b[p] as int == v % 256 && b[p + 1] as int == v / 256 % 256
    requires b[p + 2] as int == v / 0x1_0000 % 256 && b[p + 3] as int == v / 0x100_0000
    ensures U32(b, p) == v
  {
    Quotients(v);
  }

  lemma Quotients(v: nat)
    requires v < 0x1_0000_0000
    ensures v / 256 / 256 == v / 0x1_0000 && v / 256 / 256 / 256 == v / 0x100_0000 < 256
    ensures v / 256 / 256 / 256 % 256 == v / 0x100_0000
    ensures v % 256 + 256 * (v / 256 % 256) + 0x1_0000 * (v / 0x1_0000 % 256 + 256 * (v / 0x100_0000)) == v
  {
  }

  lemma TwoBytes(v: nat, b: seq<bv8>, p: nat)
    requires v < 0x1_0000 && p + 2 <= |b| && b[p..p + 2] == Bytes(v, 2)
    ensures U16(b, p) == v
  {
    var c := b[p..p + 2];
    assert c[0] == b[p] && c[1] == b[p + 1];
    LowBytes(v, b, p);
    TwoParts(v);
  }

  lemma TwoParts(v: nat)
    requires v < 0x1_0000
    ensures v / 256 % 256 == v / 256 && v % 256 + 256 * (v / 256) == v
  {
  }

  // When an object expires, as sent: the month counts from one, the year is whole.
  datatype Expiry = Expiry(min: nat, hour: nat, day: nat, month: nat, year: nat) {
    predicate Fit() { min < 64 && hour < 32 && day < 32 && month < 16 && year < 4096 }

    // 6, 5, 5, 4 and 12 bits, the minute lowest.
    function Laid(): nat { min + 64 * (hour + 32 * (day + 32 * (month + 16 * year))) }
  }

  // The header of an object with its name.
  function HeaderBytes(version: nat, expiry: Expiry, size: nat, mime: nat, name: seq<bv8>): seq<bv8> {
    Bytes(version, 4) + Bytes(expiry.Laid(), 4) + Bytes(size, 4) + Bytes(mime, 4) + name
  }

  lemma ExpiryBytes(e: Expiry)
    requires e.Fit()
    ensures var v := e.Laid();
      && v < 0x1_0000_0000
      && v % 256 == e.min + 64 * (e.hour % 4) && v / 256 % 256 == e.hour / 4 + 8 * e.day
      && v / 0x1_0000 % 256 == e.month + 16 * (e.year % 16) && v / 0x100_0000 == e.year / 16
  {
    var v := e.Laid();
    var r := e.month + 16 * e.year;
    assert v == e.min + 64 * (e.hour % 4) + 256 * (e.hour / 4 + 8 * (e.day + 32 * r));
    DivUnique(v, 256, e.hour / 4 + 8 * (e.day + 32 * r), e.min + 64 * (e.hour % 4));
    DivUnique(v / 256, 256, r, e.hour / 4 + 8 * e.day);
    DivUnique(v, 0x1_0000, r, e.min + 64 * (e.hour % 4) + 256 * (e.hour / 4 + 8 * e.day));
    DivUnique(r, 256, e.year / 16, e.month + 16 * (e.year % 16));
    DivUnique(v, 0x100_0000, e.year / 16, v % 0x1_0000 + 0x1_0000 * (e.month + 16 * (e.year % 16)));
  }

  lemma ExpiryRead(e: Expiry, b4: int, b5: int, b6: int, b7: int)
    requires e.Fit() && b4 == e.min + 64 * (e.hour % 4) && b5 == e.hour / 4 + 8 * e.day
    requires b6 == e.month + 16 * (e.year % 16) && b7 == e.year / 16
    ensures b7 * 16 + b6 / 16 == e.year && b6 % 16 == e.month && b5 / 8 == e.day
    ensures b5 % 8 * 4 + b4 / 64 == e.hour && b4 % 64 == e.min
  {
    DivUnique(b6, 16, e.year % 16, e.month);
    DivUnique(b5, 8, e.day, e.hour / 4);
    DivUnique(b4, 64, e.hour % 4, e.min);
  }

  /** The header as sent is the header as read: size, type, name, and the expiry with
      the year counted from 1900 and the month from zero. */
  lemma HeaderRoundTrip(version: nat, e: Expiry, size: nat, mime: nat, name: seq<bv8>)
    requires version < 0x1_0000_0000 && e.Fit() && size < 0x1_0000_0000 && mime < 0x1_0000_0000
    ensures var h := HeaderBytes(version, e, size, mime, name);
      && |h| == 16 + |name| && h[16..] == name
      && InfoOf(h) == Info(size, mime, e.year - 1900, e.month - 1, e.day, e.hour, e.min)
  {
    var h := HeaderBytes(version, e, size, mime, name);
    ExpiryBytes(e);
    FourParts(Bytes(version, 4), Bytes(e.Laid(), 4), Bytes(size, 4), Bytes(mime, 4), name);
    FourBytes(e.Laid(), h, 4);
    FourBytes(size, h, 8);
    FourBytes(mime, h, 12);
    ExpiryRead(e, h[4] as int, h[5] as int, h[6] as int, h[7] as int);
  }

  lemma FourParts(a: seq<bv8>, b: seq<bv8>, c: seq<bv8>, d: seq<bv8>, name: seq<bv8>)
    requires |a| == |b| == |c| == |d| == 4
    ensures var h := a + b + c + d + name;
      |h| == 16 + |name| && h[4..8] == b && h[8..12] == c && h[12..16] == d && h[16..] == name
  {
  }

  // A packet: length of the header, repetition, lot and fragment number, header and data.
  function PacketBytes(repeat: bv8, lot: nat, seqno: nat, header: seq<bv8>, data: seq<bv8>): seq<bv8>
    requires |header| < 248
  {
    [ByteOf(8 + |header|), repeat] + Bytes(lot, 2) + Bytes(seqno, 4) + header + data
  }

  /** The packet as sent is the packet as read. */
  lemma PacketRoundTrip(repeat: bv8, lot: nat, seqno: nat, header: seq<bv8>, data: seq<bv8>)
    requires lot < 0x1_0000 && seqno < MAX_FRAGMENTS && (header == [] || 16 <= |header| < 248)
    ensures var buf := PacketBytes(repeat, lot, seqno, header, data);
      && WellFormed(buf) && buf[1] == repeat && U16(buf, 2) == lot
      && Header(buf) == header && FragmentOf(buf) == Fragment(seqno, data)
  {
    var buf := PacketBytes(repeat, lot, seqno, header, data);
    assert buf[2..4] == Bytes(lot, 2) && buf[4..8] == Bytes(seqno, 4);
    TwoBytes(lot, buf, 2);
    FourBytes(seqno, buf, 4);
    assert buf[8..8 + |header|] == header && buf[8 + |header|..] == data;
  }
}
