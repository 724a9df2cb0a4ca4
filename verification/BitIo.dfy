/** Reading and writing bits in byte buffers (src/hdc2aac_remux.c:55-142). */
module BitIo {
  import opened Basics
  import opened Arith
  import opened Bits

  type Byte = x: int | 0 <= x < 256

  // Bit p of a byte string, the high bit of each byte first.
  function BitOf(bytes: seq<Byte>, p: nat): bool
    requires p < 8 * |bytes|
  {
    (bytes[p / 8] / Pow2(7 - p % 8)) % 2 == 1
  }

  function ToBits(bytes: seq<Byte>): (s: seq<bool>)
    ensures |s| == 8 * |bytes|
  {
    if |bytes| == 0 then [] else ToBits(bytes[..|bytes| - 1]) + Digits(bytes[|bytes| - 1], 8)
  }

  lemma HalfDiv(x: nat, p: nat)
    requires p > 0
    ensures (x / 2) / p == x / (2 * p)
  {
    var q, r := (x / 2) / p, (x / 2) % p;
    assert x / 2 == p * q + r;
    Regroup(2, p, q);
    DivUnique(x, 2 * p, q, 2 * r + x % 2);
  }

  lemma {:induction false} DigitsAt(v: nat, n: nat, i: nat)
    requires i < n
    ensures Digits(v, n)[i] == ((v / Pow2(n - 1 - i)) % 2 == 1)
    decreases n
  {
    if i == n - 1 {
      assert Pow2(0) == 1;
    } else {
      DigitsAt(v / 2, n - 1, i);
      HalfDiv(v, Pow2(n - 2 - i));
    }
  }

  lemma {:induction false} ToBitsAt(bytes: seq<Byte>, p: nat)
    requires p < 8 * |bytes|
    ensures ToBits(bytes)[p] == BitOf(bytes, p)
  {
    var n := |bytes| - 1;
    if p < 8 * n {
      ToBitsAt(bytes[..n], p);
      assert p / 8 < n;
    } else {
      DigitsAt(bytes[n], 8, p - 8 * n);
      DivUnique(p, 8, n, p - 8 * n);
    }
  }

  // ---------- reader ----------

  class BitReader {
    const buf: seq<Byte>
    var pos: nat

    constructor (buf: seq<Byte>, pos: nat)
      ensures this.buf == buf && this.pos == pos
    {
      this.buf := buf;
      this.pos := pos;
    }

    ghost function S(): seq<bool> { ToBits(buf) }

    // br_overrun
    predicate Overrun()
      reads this
    {
      pos > 8 * |buf|
    }

    // br_bit
    method ReadBit() returns (b: nat)
      modifies this
      ensures pos == old(pos) + 1 && b == if Bit(S(), old(pos)) then 1 else 0
    {
      var byte := pos / 8;
      if byte >= |buf| {
        pos := pos + 1;
        return 0;
      }
      ToBitsAt(buf, pos);
      b := (buf[byte] / Pow2(7 - pos % 8)) % 2;
      pos := pos + 1;
    }

    // br_bits
    method ReadBits(n: nat) returns (v: nat)
      modifies this
      ensures pos == old(pos) + n && v == Num(S(), old(pos), n)
    {
      v := 0;
      var i := 0;
      while i < n
        invariant 0 <= i <= n && pos == old(pos) + i && v == Num(S(), old(pos), i)
      {
        var b := ReadBit();
        v := 2 * v + b;
        i := i + 1;
      }
    }

    // br_peek
    method Peek(n: nat) returns (v: nat)
      ensures v == Num(S(), pos, n)
    {
      v := 0;
      var i, p := 0, pos;
      while i < n
        invariant 0 <= i <= n && p == pos + i && v == Num(S(), pos, i)
      {
        var byte, bit := p / 8, 0;
        if byte < |buf| {
          ToBitsAt(buf, p);
          bit := (buf[byte] / Pow2(7 - p % 8)) % 2;
        }
        v := 2 * v + bit;
        i, p := i + 1, p + 1;
      }
    }

    // Reading bits for their length only.
    method Skip(n: nat)
      modifies this
      ensures pos == old(pos) + n
    {
      var i := 0;
      while i < n
        invariant 0 <= i <= n && pos == old(pos) + i
      {
        var _ := ReadBit();
        i := i + 1;
      }
    }
  }

  // ---------- writer ----------

  const MAX_FRAME_BYTES := 4096

  // The bytes hold bits, and zeros after them.
  ghost predicate StoredBits(bytes: seq<Byte>, bits: seq<bool>) {
    forall p: nat :: p < 8 * |bytes| ==> BitOf(bytes, p) == (p < |bits| && bits[p])
  }

  ghost predicate Stored(bytes: seq<Byte>, bits: seq<bool>) { SealedStored(SEALS, bytes, bits) }

  ghost predicate SealedStored(seals: seq<bool>, bytes: seq<Byte>, bits: seq<bool>) {
    if |seals| > 0 then SealedStored(seals[1..], bytes, bits) else StoredBits(bytes, bits)
  }

  lemma {:induction false} OpenStored(seals: seq<bool>, bytes: seq<Byte>, bits: seq<bool>)
    ensures SealedStored(seals, bytes, bits) == StoredBits(bytes, bits)
  {
    if |seals| > 0 { OpenStored(seals[1..], bytes, bits); }
  }

  // Bit e of b, the lowest first.
  function BitAt(b: nat, e: nat): nat
    decreases e
  {
    if e == 0 then b % 2 else BitAt(b / 2, e - 1)
  }

  lemma {:induction false} BitAtIs(b: nat, e: nat)
    ensures BitAt(b, e) == (b / Pow2(e)) % 2
    decreases e
  {
    if e > 0 {
      BitAtIs(b / 2, e - 1);
      HalfDiv(b, Pow2(e - 1));
    } else {
      assert Pow2(0) == 1;
    }
  }

  // Adding a power of two whose bit is clear sets that bit and no other.
  lemma {:induction false} SetBit(b: nat, e: nat, f: nat)
    requires BitAt(b, e) == 0
    ensures BitAt(b + Pow2(e), f) == if f == e then 1 else BitAt(b, f)
    decreases e
  {
    assert Pow2(0) == 1;
    if e == 0 {
      assert (b + 1) / 2 == b / 2;
    } else {
      assert (b + Pow2(e)) / 2 == b / 2 + Pow2(e - 1);
      if f > 0 { SetBit(b / 2, e - 1, f - 1); }
    }
  }

  lemma {:induction false} SetBound(b: nat, n: nat, e: nat)
    requires e < n && b < Pow2(n) && BitAt(b, e) == 0
    ensures b + Pow2(e) < Pow2(n)
    decreases e
  {
    assert Pow2(0) == 1;
    if e > 0 { SetBound(b / 2, n - 1, e - 1); }
  }

  lemma Small()
    ensures Pow2(8) == 256
  {
    assert Pow2(4) == 16;
  }

  // One more bit: a one is added into its byte, a zero is already there.
  lemma StoreOne(bytes: seq<Byte>, bits: seq<bool>)
    requires Stored(bytes, bits) && |bits| < 8 * |bytes|
    ensures var i, e := |bits| / 8, 7 - |bits| % 8;
      bytes[i] + Pow2(e) < 256 && Stored(bytes[i := bytes[i] + Pow2(e)], bits + [true])
  {
    var n := |bits|;
    var i, e := n / 8, 7 - n % 8;
    OpenStored(SEALS, bytes, bits);
    assert !BitOf(bytes, n);
    BitAtIs(bytes[i], e);
    Small();
    SetBound(bytes[i], 8, e);
    var after := bytes[i := bytes[i] + Pow2(e)];
    forall p: nat | p < 8 * |bytes| ensures BitOf(after, p) == (p < n + 1 && (bits + [true])[p]) {
      assert BitOf(bytes, p) == (p < n && bits[p]);
      if p / 8 == i {
        SetBit(bytes[i], e, 7 - p % 8);
        BitAtIs(bytes[i], 7 - p % 8);
        BitAtIs(bytes[i] + Pow2(e), 7 - p % 8);
      }
    }
    OpenStored(SEALS, after, bits + [true]);
  }

  lemma StoreZero(bytes: seq<Byte>, bits: seq<bool>)
    requires Stored(bytes, bits)
    ensures Stored(bytes, bits + [false])
  {
    OpenStored(SEALS, bytes, bits);
    OpenStored(SEALS, bytes, bits + [false]);
    forall p: nat | p < 8 * |bytes| ensures BitOf(bytes, p) == (p < |bits + [false]| && (bits + [false])[p]) {
      assert BitOf(bytes, p) == (p < |bits| && bits[p]);
    }
  }

  function Padding(n: nat): nat { (8 - n % 8) % 8 }

  lemma PaddingEnds(n: nat, j: nat)
    requires j <= Padding(n) && (n + j) % 8 != 0
    ensures j < Padding(n)
  {
  }

  lemma PaddingExact(n: nat, j: nat)
    requires j <= Padding(n) && (n + j) % 8 == 0
    ensures j == Padding(n)
  {
  }

  lemma DigitsOfZero(j: nat)
    ensures Digits(0, j + 1) == Digits(0, j) + [false]
    ensures Digits(0, 0) == []
  {
  }

  class BitWriter {
    const buf: array<Byte>
    var nbits: nat
    var overflow: bool
    // Every bit asked for so far, whether it fitted or not.
    ghost var wanted: seq<bool>

    constructor ()
      ensures Valid() && wanted == [] && fresh(buf)
    {
      buf := new Byte[MAX_FRAME_BYTES](_ => 0);
      nbits, overflow, wanted := 0, false, [];
      new;
      OpenStored(SEALS, buf[..], []);
      forall p: nat | p < 8 * buf.Length ensures !BitOf(buf[..], p) {}
    }

    ghost predicate Valid()
      reads this, buf
    {
      && buf.Length == MAX_FRAME_BYTES
      && nbits == (if |wanted| <= 8 * MAX_FRAME_BYTES then |wanted| else 8 * MAX_FRAME_BYTES)
      && overflow == (|wanted| > 8 * MAX_FRAME_BYTES)
      && Stored(buf[..], wanted[..nbits])
    }

    // wb_reset
    method Reset()
      requires buf.Length == MAX_FRAME_BYTES
      modifies this, buf
      ensures Valid() && wanted == []
    {
      var i := 0;
      while i < buf.Length
        invariant 0 <= i <= buf.Length && forall j :: 0 <= j < i ==> buf[j] == 0
      {
        buf[i] := 0;
        i := i + 1;
      }
      nbits, overflow, wanted := 0, false, [];
      OpenStored(SEALS, buf[..], []);
      forall p: nat | p < 8 * buf.Length ensures !BitOf(buf[..], p) {
        assert buf[..][p / 8] == 0;
      }
    }

    // wb_bit
    method WriteBit(b: bool)
      requires Valid()
      modifies this, buf
      ensures Valid() && wanted == old(wanted) + [b]
    {
      ghost var bits := wanted[..nbits];
      if nbits >= 8 * buf.Length {
        overflow := true;
        wanted := wanted + [b];
        assert wanted[..nbits] == bits;
        return;
      }
      var byte := nbits / 8;
      if b {
        StoreOne(buf[..], bits);
        ghost var was := buf[..];
        buf[byte] := buf[byte] + Pow2(7 - nbits % 8);
        assert buf[..] == was[byte := buf[byte]];
      } else {
        StoreZero(buf[..], bits);
      }
      nbits := nbits + 1;
      wanted := wanted + [b];
      assert wanted[..nbits] == bits + [b];
    }

    // wb_bits
    method WriteBits(v: nat, n: nat)
      requires Valid()
      modifies this, buf
      ensures Valid() && wanted == old(wanted) + Digits(v, n)
    {
      var i := n;
      while i > 0
        invariant 0 <= i <= n && Valid() && wanted == old(wanted) + Digits(v, n)[..n - i]
      {
        i := i - 1;
        DigitsAt(v, n, n - 1 - i);
        WriteBit((v / Pow2(i)) % 2 == 1);
        assert Digits(v, n)[..n - i] == Digits(v, n)[..n - 1 - i] + [Digits(v, n)[n - 1 - i]];
      }
      assert Digits(v, n)[..n] == Digits(v, n);
    }

    // wb_align: zeros up to a byte boundary.
    method Align()
      requires Valid()
      modifies this, buf
      ensures Valid() && wanted == old(wanted) + Digits(0, Padding(old(nbits))) && nbits % 8 == 0
    {
      ghost var pad := Padding(nbits);
      ghost var j := 0;
      DigitsOfZero(0);
      while nbits % 8 != 0
        invariant 0 <= j <= pad && Valid() && nbits == old(nbits) + j
        invariant wanted == old(wanted) + Digits(0, j)
        decreases pad - j
      {
        PaddingEnds(old(nbits), j);
        DigitsOfZero(j);
        WriteBit(false);
        j := j + 1;
      }
      PaddingExact(old(nbits), j);
    }

    // wb_copy
    method CopyBits(src: seq<Byte>, srcBit: nat, n: nat)
      requires Valid()
      modifies this, buf
      ensures Valid() && wanted == old(wanted) + Cut(ToBits(src), srcBit, n)
    {
      var tmp := new BitReader(src, srcBit);
      var i := 0;
      while i < n
        invariant 0 <= i <= n && Valid() && tmp.buf == src && tmp.pos == srcBit + i && fresh(tmp)
        invariant wanted == old(wanted) + Cut(ToBits(src), srcBit, i)
      {
        var b := tmp.ReadBit();
        WriteBit(b == 1);
        i := i + 1;
      }
    }
  }

  // Bytes that hold bits up to a byte boundary are those bits.
  lemma StoredIsBits(bytes: seq<Byte>, bits: seq<bool>, n: nat)
    requires Stored(bytes, bits) && |bits| == 8 * n && n <= |bytes|
    ensures ToBits(bytes[..n]) == bits
  {
    OpenStored(SEALS, bytes, bits);
    forall p: nat | p < 8 * n ensures ToBits(bytes[..n])[p] == bits[p] {
      ToBitsAt(bytes[..n], p);
      assert BitOf(bytes, p) == bits[p];
    }
  }
}
