/** HDLC framing of src/frame.c:347-410: octet unstuffing in place, the frame check,
    and the receiver that cuts a byte stream, arriving in chunks, into messages. */
module Hdlc {
  import opened Basics
  import opened Crc

  const FLAG: bv8 := 0x7e
  const ESCAPE: bv8 := 0x7d
  const PROTOCOL: bv8 := 0x21

  // ---------- octet stuffing ----------

  // What unescape_hdlc makes of d. The byte that follows d in the buffer is read
  // when d ends in an escape with nothing behind it.
  function Unstuffed(d: seq<bv8>, after: bv8): seq<bv8> {
    if |d| == 0 then []
    else if d[0] == ESCAPE then
      if |d| == 1 then [after | 0x20] else [d[1] | 0x20] + Unstuffed(d[2..], after)
    else [d[0]] + Unstuffed(d[1..], after)
  }

  // A frame whose last octet is an escape that escapes nothing; section 4.3 of
  // RFC 1662 has the receiver discard it.
  predicate Dangling(d: seq<bv8>) {
    |d| > 0 && if d[0] == ESCAPE then |d| == 1 || Dangling(d[2..]) else Dangling(d[1..])
  }

  lemma {:induction false} AfterUnused(d: seq<bv8>, x: bv8, y: bv8)
    requires !Dangling(d)
    ensures Unstuffed(d, x) == Unstuffed(d, y)
  {
    if |d| > 0 { AfterUnused(if d[0] == ESCAPE then d[2..] else d[1..], x, y); }
  }

  /** What an octet behind the frame is taken for shows exactly when the frame ends
      in a dangling escape. */
  lemma {:induction false} DanglingIff(d: seq<bv8>)
    ensures Dangling(d) <==> Unstuffed(d, 0) != Unstuffed(d, 1)
  {
    if |d| > 0 {
      var rest := if d[0] == ESCAPE && |d| > 1 then d[2..] else d[1..];
      DanglingIff(rest);
      if d != [ESCAPE] {
        var head := if d[0] == ESCAPE then d[1] | 0x20 else d[0];
        assert forall x :: Unstuffed(d, x) == [head] + Unstuffed(rest, x);
        assert ([head] + Unstuffed(rest, 0))[1..] == Unstuffed(rest, 0);
        assert ([head] + Unstuffed(rest, 1))[1..] == Unstuffed(rest, 1);
      }
    }
  }

  lemma {:induction false} UnstuffedShrinks(d: seq<bv8>, after: bv8)
    ensures |Unstuffed(d, after)| <= |d|
  {
    if |d| > 1 { UnstuffedShrinks(if d[0] == ESCAPE then d[2..] else d[1..], after); }
  }

  // The buffer after its first n octets were unstuffed in place.
  function Unescaped(mem: seq<bv8>, n: nat): (r: seq<bv8>)
    requires n < |mem|
    ensures |r| == |mem| && r[n..] == mem[n..]
  {
    UnstuffedShrinks(mem[..n], mem[n]);
    var u := Unstuffed(mem[..n], mem[n]);
    u + mem[|u|..]
  }

  // The sender's stuffing (section 4.2 of RFC 1662): flags, escapes and the octets
  // of the set e become an escape and the octet with bit 5 complemented.
  function Stuffed(m: seq<bv8>, e: set<bv8>): seq<bv8> {
    if |m| == 0 then []
    else (if Escaped(m[0], e) then [0x7d, m[0] ^ 0x20] else [m[0]]) + Stuffed(m[1..], e)
  }

  predicate Escaped(b: bv8, e: set<bv8>) { b == 0x7e || b == 0x7d || b in e }

  // The octets the receiver can restore: it sets bit 5 where the sender complemented it.
  predicate Restorable(m: seq<bv8>, e: set<bv8>) {
    forall k :: 0 <= k < |m| && Escaped(m[k], e) ==> HasBit5(m[k])
  }

  predicate HasBit5(b: bv8) { b & 0x20 != 0 }

  lemma EscapeRestores(b: bv8)
    ensures (b ^ 0x20) | 0x20 == b <==> HasBit5(b)
    ensures HasBit5(FLAG) && HasBit5(ESCAPE)
  {
  }

  /** Unstuffing undoes the sender's stuffing exactly when every octet it escaped
      has bit 5 set, and never ends in a dangling escape. */
  lemma {:induction false} UnstuffIff(m: seq<bv8>, e: set<bv8>, after: bv8)
    ensures Unstuffed(Stuffed(m, e), after) == m <==> Restorable(m, e)
    ensures !Dangling(Stuffed(m, e))
  {
    var d := Stuffed(m, e);
    if |m| > 0 {
      UnstuffIff(m[1..], e, after);
      EscapeRestores(m[0]);
      var r := Unstuffed(Stuffed(m[1..], e), after);
      var head := if Escaped(m[0], e) then (m[0] ^ 0x20) | 0x20 else m[0];
      if Escaped(m[0], e) {
        assert d[2..] == Stuffed(m[1..], e);
      } else {
        assert d[1..] == Stuffed(m[1..], e);
      }
      assert Unstuffed(d, after) == [head] + r;
      assert ([head] + r)[1..] == r && m == [m[0]] + m[1..];
      RestorableSplits(m, e);
    }
  }

  lemma RestorableSplits(m: seq<bv8>, e: set<bv8>)
    requires |m| > 0
    ensures Restorable(m, e) <==> (Escaped(m[0], e) ==> HasBit5(m[0])) && Restorable(m[1..], e)
  {
    if Restorable(m[1..], e) && (Escaped(m[0], e) ==> HasBit5(m[0])) {
      forall k | 0 <= k < |m| && Escaped(m[k], e) ensures HasBit5(m[k]) {
        if k > 0 { assert m[1..][k - 1] == m[k]; }
      }
    }
  }

  // A sender that escapes only what it must is always undone.
  lemma MinimalRestorable(m: seq<bv8>)
    ensures Restorable(m, {})
  {
    EscapeRestores(0);
  }

  /** A sender that also escapes a control octet is not understood. */
  lemma ControlOctetLost()
    ensures !Restorable([0x00], {0x00})
    ensures forall after :: Unstuffed(Stuffed([0x00], {0x00}), after) == [0x20]
  {
    var m: seq<bv8> := [0x00];
    assert Escaped(m[0], {0x00});
    forall after ensures Unstuffed(Stuffed(m, {0x00}), after) == [0x20] {
      var d := Stuffed(m, {0x00});
      assert m[1..] == [];
      assert d == [ESCAPE, 0x20];
      assert d[2..] == [];
    }
  }

  // What is still to come at position i.
  function Rest(d: seq<bv8>, i: nat, after: bv8): seq<bv8> {
    if i < |d| then Unstuffed(d[i..], after) else []
  }

  lemma RestStep(d: seq<bv8>, i: nat, after: bv8)
    requires i < |d|
    ensures d[i] == ESCAPE ==>
              Rest(d, i, after) == [(if i + 1 < |d| then d[i + 1] else after) | 0x20] + Rest(d, i + 2, after)
    ensures d[i] != ESCAPE ==> Rest(d, i, after) == [d[i]] + Rest(d, i + 1, after)
  {
    var t := d[i..];
    if |t| > 1 { assert t[2..] == d[i + 2..]; }
    assert t[1..] == d[i + 1..];
    assert Unstuffed(t[1..], after) == Rest(d, i + 1, after);
  }

  // Only the octets from i on matter.
  lemma RestOnly(c: seq<bv8>, d: seq<bv8>, i: nat, after: bv8)
    requires |c| == |d| && (i < |d| ==> c[i..] == d[i..])
    ensures Rest(c, i, after) == Rest(d, i, after)
  {
  }

  lemma Moved(u: seq<bv8>, done: seq<bv8>, b: bv8, rest: seq<bv8>)
    requires u == done + ([b] + rest)
    ensures u == (done + [b]) + rest
  {
  }

  /** One pass of the loop in unescape_hdlc. */
  method UnescapeOne(data: array<bv8>, length: nat, i: nat, p: nat) returns (next: nat)
    requires p <= i < length < data.Length
    modifies data
    ensures i < next <= length + 1
    ensures Rest(old(data[..length]), i, old(data[length])) ==
            [data[p]] + Rest(old(data[..length]), next, old(data[length]))
    ensures forall k :: 0 <= k < data.Length && k != p ==> data[k] == old(data[k])
  {
    RestStep(data[..length], i, data[length]);
    next := i;
    if data[next] == ESCAPE {
      next := next + 1;
      data[p] := data[next] | 0x20;
    } else {
      data[p] := data[next];
    }
    next := next + 1;
  }

  /** unescape_hdlc: in place, the read position never behind the write position. */
  method UnescapeHdlc(data: array<bv8>, length: nat) returns (p: nat)
    requires length < data.Length
    modifies data
    ensures p <= length
    ensures data[..p] == Unstuffed(old(data[..length]), old(data[length]))
    ensures data[..] == Unescaped(old(data[..]), length)
  {
    ghost var d, after := data[..length], data[length];
    p := 0;
    var i := 0;
    assert d[0..] == d;
    while i < length
      invariant 0 <= p <= i <= length + 1 && p <= length
      invariant forall k :: p <= k < data.Length ==> data[k] == old(data[k])
      invariant Unstuffed(d, after) == data[..p] + Rest(d, i, after)
    {
      ghost var done, c := data[..p], data[..length];
      assert c[i..] == d[i..];
      RestOnly(c, d, i, after);
      var next := UnescapeOne(data, length, i, p);
      assert next < length ==> c[next..] == d[next..];
      RestOnly(c, d, next, after);
      Moved(Unstuffed(d, after), done, data[p], Rest(d, next, after));
      i := next;
      p := p + 1;
      assert data[..p] == done + [data[p - 1]];
    }
    assert data[..p] + [] == data[..p];
    assert old(data[..])[..length] == d;
    assert data[..] == data[..p] + old(data[..])[p..];
  }

  // ---------- one frame ----------

  // The message of an unstuffed frame, if it is one: protocol octet first, frame
  // check last (aas_push).
  function Accepted(u: seq<bv8>): seq<seq<bv8>> {
    if |u| < 3 || Fcs(u) != VALIDFCS16 || u[0] != PROTOCOL then [] else [u[1..|u| - 2]]
  }

  // An accepted frame always has room for the octets that are taken off.
  lemma ProtocolThenCheck(u: seq<bv8>)
    requires |u| > 0 && Fcs(u) == VALIDFCS16 && u[0] == PROTOCOL
    ensures |u| >= 3
  {
    if |u| == 1 { ShortInvalid(u); }
    if |u| == 2 {
      assert u == [u[0], u[1]];
      TwoOctets(u[0], u[1]);
    }
  }

  // The only valid frame of two octets is two zeros.
  lemma TwoOctets(a: bv8, b: bv8)
    requires Fcs([a, b]) == VALIDFCS16
    ensures a == 0
  {
    assert [] + [a, b] == [a, b];
    ValidIff([], a, b);
    assert [a, b] == Complement(0xffff);
    assert [a, b][0] == a;
  }

  // The octets that carry message m.
  function Framed(m: seq<bv8>): seq<bv8> { [PROTOCOL] + m + Trailer([PROTOCOL] + m) }

  /** A frame is accepted with message m exactly when it is m's frame. */
  lemma AcceptedIff(u: seq<bv8>, m: seq<bv8>)
    ensures Accepted(u) == [m] <==> u == Framed(m)
  {
    if |u| >= 3 {
      var n := |u| - 2;
      var t := u[..n];
      assert u == t + [u[n], u[n + 1]];
      ValidIff(t, u[n], u[n + 1]);
      if Accepted(u) == [m] {
        assert m == [m][0] == u[1..n];
        assert t == [PROTOCOL] + m;
        assert u == Framed(m);
      }
      if u == Framed(m) {
        assert n == |m| + 1;
        assert t == [PROTOCOL] + m;
        assert [u[n], u[n + 1]] == Trailer(t);
        assert u[1..n] == m;
      }
    }
  }

  // ---------- the stream ----------

  // A flag has been seen.
  predicate Started(h: seq<bv8>) { FLAG in h }

  // What followed the last flag.
  function Tail(h: seq<bv8>): seq<bv8> {
    if |h| == 0 || h[|h| - 1] == FLAG then [] else Tail(h[..|h| - 1]) + [h[|h| - 1]]
  }

  // What stood between each two neighbouring flags.
  function Frames(h: seq<bv8>): seq<seq<bv8>> {
    if |h| == 0 then []
    else
      var p := h[..|h| - 1];
      if h[|h| - 1] == FLAG && Started(p) then Frames(p) + [Tail(p)] else Frames(p)
  }

  // The messages of frames fs when longer ones than cap are dropped; after[k] is
  // the byte that stood behind frame k in the buffer.
  function Messages(fs: seq<seq<bv8>>, after: seq<bv8>, cap: nat): seq<seq<bv8>>
    requires |after| == |fs|
  {
    if |fs| == 0 then []
    else
      var n := |fs| - 1;
      Messages(fs[..n], after[..n], cap) +
      if |fs[n]| <= cap then Accepted(Unstuffed(fs[n], after[n])) else []
  }

  lemma MessagesNext(fs: seq<seq<bv8>>, f: seq<bv8>, after: seq<bv8>, a: bv8, cap: nat)
    requires |after| == |fs|
    ensures Messages(fs + [f], after + [a], cap) ==
            Messages(fs, after, cap) + if |f| <= cap then Accepted(Unstuffed(f, a)) else []
  {
    assert (fs + [f])[..|fs|] == fs && (after + [a])[..|fs|] == after;
  }

  // ---------- the receiver ----------

  // Buffer, write position (-1 while no frame is taken in) and messages.
  datatype State = State(mem: seq<bv8>, bufidx: int, delivered: seq<seq<bv8>>) {
    predicate InBuffer() { |mem| > 0 && -1 <= bufidx < |mem| }
  }

  // What one octet makes of the receiver.
  function Taken(s: State, byte: bv8): (t: State)
    requires s.InBuffer()
    ensures t.InBuffer() && |t.mem| == |s.mem|
  {
    if byte == FLAG then
      if s.bufidx < 0 then s.(bufidx := 0)
      else
        var u := Unstuffed(s.mem[..s.bufidx], s.mem[s.bufidx]);
        State(Unescaped(s.mem, s.bufidx), 0, s.delivered + Accepted(u))
    else if s.bufidx < 0 then s
    else if s.bufidx == |s.mem| - 1 then s.(bufidx := -1)
    else s.(mem := s.mem[s.bufidx := byte], bufidx := s.bufidx + 1)
  }

  // What a run of octets makes of it.
  function Fed(s: State, input: seq<bv8>): (t: State)
    requires s.InBuffer()
    ensures t.InBuffer() && |t.mem| == |s.mem|
  {
    if |input| == 0 then s else Taken(Fed(s, input[..|input| - 1]), input[|input| - 1])
  }

  lemma {:induction false} FedConcat(s: State, a: seq<bv8>, b: seq<bv8>)
    requires s.InBuffer()
    ensures Fed(s, a + b) == Fed(Fed(s, a), b)
  {
    if |b| == 0 {
      assert a + b == a;
    } else {
      assert (a + b)[..|a + b| - 1] == a + b[..|b| - 1];
      FedConcat(s, a, b[..|b| - 1]);
    }
  }

  lemma FedOne(s: State, a: seq<bv8>, byte: bv8)
    requires s.InBuffer()
    ensures Fed(s, a + [byte]) == Taken(Fed(s, a), byte)
  {
    assert (a + [byte])[..|a|] == a;
  }

  /** The receiver: parse_hdlc with aas_push. The buffer has one more byte than it
      holds of a frame: unescape_hdlc may read it, nothing writes it. */
  class Receiver {
    const cap: nat
    const buffer: array<bv8>
    var bufidx: int
    var delivered: seq<seq<bv8>>
    ghost var start: seq<bv8>
    ghost var history: seq<bv8>
    ghost var after: seq<bv8>

    // The state is what history makes of the buffer as it was at the start; what is
    // delivered are the messages of the frames in it.
    ghost predicate Valid()
      reads this, buffer
    {
      && buffer.Length == cap + 1 == |start|
      && -1 <= bufidx <= cap
      && (bufidx >= 0 <==> Started(history) && |Tail(history)| <= cap)
      && (bufidx >= 0 ==> buffer[..bufidx] == Tail(history))
      && |after| == |Frames(history)|
      && delivered == Messages(Frames(history), after, cap)
      && Now() == Fed(State(start, -1, []), history)
    }

    ghost function Now(): State
      reads this, buffer
    {
      State(buffer[..], bufidx, delivered)
    }

    constructor (cap: nat)
      ensures Valid() && fresh(buffer) && this.cap == cap
      ensures history == [] && delivered == []
    {
      this.cap := cap;
      buffer := new bv8[cap + 1];
      bufidx := -1;
      delivered := [];
      history, after := [], [];
      new;
      start := buffer[..];
    }

    /** aas_push */
    method AasPush(length: nat)
      requires length < buffer.Length
      modifies this`delivered, buffer
      ensures delivered == old(delivered) + Accepted(Unstuffed(old(buffer[..length]), old(buffer[length])))
      ensures buffer[..] == Unescaped(old(buffer[..]), length)
    {
      var n := UnescapeHdlc(buffer, length);
      if n > 0 {
        var psd := buffer[..n];
        var fcs := Fcs16(psd);
        if fcs == VALIDFCS16 && psd[0] == PROTOCOL {
          ProtocolThenCheck(psd);
          delivered := delivered + [psd[1..n - 2]];
        }
      }
    }

    /** One pass of the loop in parse_hdlc. */
    method Octet(byte: bv8)
      requires Valid()
      modifies this`bufidx, this`delivered, this`history, this`after, buffer
      ensures Valid() && old(delivered) <= delivered
      ensures history == old(history) + [byte]
      ensures Now() == Taken(old(Now()), byte)
    {
      ghost var h := history + [byte];
      ghost var was := Now();
      assert h[..|history|] == history;
      FedOne(State(start, -1, []), history, byte);
      if byte == FLAG {
        ghost var a := if bufidx >= 0 then buffer[bufidx] else 0;
        if bufidx >= 0 {
          assert buffer[..][..bufidx] == buffer[..bufidx];
          AasPush(bufidx);
        }
        if Started(history) {
          MessagesNext(Frames(history), Tail(history), after, a, cap);
          after := after + [a];
        }
        bufidx := 0;
      } else if bufidx >= 0 {
        if bufidx == cap {
          bufidx := -1;
        } else {
          buffer[bufidx] := byte;
          bufidx := bufidx + 1;
          assert buffer[..] == was.mem[was.bufidx := byte];
        }
      }
      history := h;
      assert Now() == Taken(was, byte);
    }

    /** parse_hdlc */
    method ParseHdlc(input: seq<bv8>)
      requires Valid()
      modifies this`bufidx, this`delivered, this`history, this`after, buffer
      ensures Valid() && old(delivered) <= delivered
      ensures history == old(history) + input
      ensures Now() == Fed(old(Now()), input)
    {
      var i := 0;
      assert input[..0] == [];
      while i < |input|
        invariant 0 <= i <= |input| && Valid() && old(delivered) <= delivered
        invariant history == old(history) + input[..i]
        invariant Now() == Fed(old(Now()), input[..i])
      {
        FedOne(old(Now()), input[..i], input[i]);
        Octet(input[i]);
        assert input[..i + 1] == input[..i] + [input[i]];
        i := i + 1;
      }
      assert input[..i] == input;
    }
  }

  // One call of parse_hdlc after the other.
  function FedChunks(s: State, chunks: seq<seq<bv8>>): (t: State)
    requires s.InBuffer()
    ensures t.InBuffer() && |t.mem| == |s.mem|
  {
    if |chunks| == 0 then s else Fed(FedChunks(s, chunks[..|chunks| - 1]), chunks[|chunks| - 1])
  }

  function Joined(chunks: seq<seq<bv8>>): seq<bv8> {
    if |chunks| == 0 then [] else Joined(chunks[..|chunks| - 1]) + chunks[|chunks| - 1]
  }

  /** However a stream is cut, the receiver ends in the same state. */
  lemma {:induction false} ChunksDoNotMatter(s: State, chunks: seq<seq<bv8>>)
    requires s.InBuffer()
    ensures FedChunks(s, chunks) == Fed(s, Joined(chunks))
  {
    if |chunks| > 0 {
      var n := |chunks| - 1;
      ChunksDoNotMatter(s, chunks[..n]);
      FedConcat(s, Joined(chunks[..n]), chunks[n]);
    }
  }

  /** So receivers that began with equal buffers agree on every stream. */
  lemma ReceiversAgree(r: Receiver, s: Receiver)
    requires r.Valid() && s.Valid() && r.start == s.start && r.history == s.history
    ensures r.delivered == s.delivered && r.bufidx == s.bufidx && r.buffer[..] == s.buffer[..]
  {
    assert r.Now() == s.Now();
  }

  /** What the buffer held at the start does not matter either, as long as no frame
      ends in a dangling escape. */
  lemma StartDoesNotMatter(r: Receiver, s: Receiver)
    requires r.Valid() && s.Valid() && r.cap == s.cap && r.history == s.history
    requires forall k :: 0 <= k < |Frames(r.history)| ==> !Dangling(Frames(r.history)[k])
    ensures r.delivered == s.delivered && r.bufidx == s.bufidx
  {
    MessagesUnique(Frames(r.history), r.after, s.after, r.cap);
    if r.bufidx >= 0 { assert |r.buffer[..r.bufidx]| == |s.buffer[..s.bufidx]|; }
  }

  lemma {:induction false} MessagesUnique(fs: seq<seq<bv8>>, x: seq<bv8>, y: seq<bv8>, cap: nat)
    requires |x| == |y| == |fs|
    requires forall k :: 0 <= k < |fs| ==> !Dangling(fs[k])
    ensures Messages(fs, x, cap) == Messages(fs, y, cap)
  {
    if |fs| > 0 {
      var n := |fs| - 1;
      MessagesUnique(fs[..n], x[..n], y[..n], cap);
      AfterUnused(fs[n], x[n], y[n]);
    }
  }

  // ---------- sender and receiver ----------

  // What stands in front of a flag: the frame of a message, or octets that carry
  // none: no octets at all (padding), an abandoned frame.
  datatype Item = Message(m: seq<bv8>) | Filler(octets: seq<bv8>)

  function Octets(it: Item, e: set<bv8>): seq<bv8> {
    match it
    case Message(m) => Stuffed(Framed(m), e)
    case Filler(f) => f
  }

  // The octets of the items, each followed by a flag.
  function Sent(items: seq<Item>, e: set<bv8>): seq<bv8> {
    if |items| == 0 then []
    else
      var n := |items| - 1;
      Sent(items[..n], e) + (Octets(items[n], e) + [0x7e])
  }

  // The messages among the items.
  function Carried(items: seq<Item>): seq<seq<bv8>> {
    if |items| == 0 then []
    else
      var n := |items| - 1;
      Carried(items[..n]) + if items[n].Message? then [items[n].m] else []
  }

  // The frame of m fits the buffer and survives the receiver's unstuffing.
  predicate Sendable(m: seq<bv8>, e: set<bv8>, cap: nat) {
    |Stuffed(Framed(m), e)| <= cap && Restorable(Framed(m), e)
  }

  // The octets hold no flag, and are too many for the buffer or no accepted frame.
  predicate Ignored(f: seq<bv8>, cap: nat) {
    FLAG !in f && (|f| <= cap ==> !Dangling(f) && Accepted(Unstuffed(f, 0)) == [])
  }

  predicate Proper(it: Item, e: set<bv8>, cap: nat) {
    match it
    case Message(m) => Sendable(m, e, cap)
    case Filler(f) => Ignored(f, cap)
  }

  // Padding, flag behind flag, is ignored.
  lemma PaddingIgnored(cap: nat)
    ensures Ignored([], cap)
  {
  }

  lemma {:induction false} RestorableHasNoFlag(m: seq<bv8>, e: set<bv8>)
    requires Restorable(m, e)
    ensures FLAG !in Stuffed(m, e)
  {
    if |m| > 0 {
      RestorableSplits(m, e);
      RestorableHasNoFlag(m[1..], e);
      Bit5KeepsFlag(m[0]);
    }
  }

  lemma Bit5KeepsFlag(b: bv8)
    ensures HasBit5(b) ==> b ^ 0x20 != FLAG
  {
  }

  // A frame's octets only grow the tail.
  lemma {:induction false} TailGrows(h: seq<bv8>, f: seq<bv8>)
    requires FLAG !in f
    ensures Tail(h + f) == Tail(h) + f && Frames(h + f) == Frames(h) && (Started(h + f) <==> Started(h))
    decreases |f|
  {
    var t := h + f;
    if |f| == 0 {
      assert t == h;
    } else {
      var p := f[..|f| - 1];
      assert t[..|t| - 1] == h + p;
      TailGrows(h, p);
      assert f == p + [f[|f| - 1]];
      assert Tail(h) + p + [f[|f| - 1]] == Tail(h) + f;
    }
  }

  lemma FrameCloses(h: seq<bv8>, f: seq<bv8>)
    requires FLAG !in f && |h| > 0 && h[|h| - 1] == FLAG
    ensures Frames(h + (f + [FLAG])) == Frames(h) + [f]
  {
    TailGrows(h, f);
    FlagCloses(h + f);
    assert h + (f + [FLAG]) == (h + f) + [FLAG];
    assert Tail(h) + f == f;
  }

  lemma FlagCloses(p: seq<bv8>)
    requires Started(p)
    ensures Frames(p + [FLAG]) == Frames(p) + [Tail(p)]
  {
    assert (p + [FLAG])[..|p|] == p;
  }

  // A frame is delivered as its message exactly when it fits and is restored.
  lemma FrameDelivers(m: seq<bv8>, e: set<bv8>, a: bv8, cap: nat)
    ensures Sendable(m, e, cap) <==>
            (if |Stuffed(Framed(m), e)| <= cap then Accepted(Unstuffed(Stuffed(Framed(m), e), a)) else []) == [m]
  {
    UnstuffIff(Framed(m), e, a);
    AcceptedIff(Unstuffed(Stuffed(Framed(m), e), a), m);
  }

  lemma Grows(h: seq<bv8>, items: seq<Item>, e: set<bv8>)
    requires |items| > 0
    ensures h + Sent(items, e) == (h + Sent(items[..|items| - 1], e)) + (Octets(items[|items| - 1], e) + [FLAG])
  {
  }

  lemma {:induction false} EndsInFlag(h: seq<bv8>, items: seq<Item>, e: set<bv8>)
    requires |h| > 0 && h[|h| - 1] == FLAG
    ensures var t := h + Sent(items, e); t[|t| - 1] == FLAG
  {
  }

  /** Behind a flag, the messages of a stream are delivered one for one, and nothing
      for padding and abandoned frames. */
  lemma {:induction false} StreamDelivers(h: seq<bv8>, items: seq<Item>, e: set<bv8>, after: seq<bv8>, cap: nat)
    requires |h| > 0 && h[|h| - 1] == FLAG
    requires forall k :: 0 <= k < |items| ==> Proper(items[k], e, cap)
    requires |after| == |Frames(h + Sent(items, e))|
    ensures |Frames(h)| + |items| == |after|
    ensures Messages(Frames(h + Sent(items, e)), after, cap) ==
            Messages(Frames(h), after[..|Frames(h)|], cap) + Carried(items)
    decreases |items|
  {
    if |items| == 0 {
      assert h + Sent(items, e) == h;
      assert after[..|Frames(h)|] == after;
    } else {
      var n := |items| - 1;
      var g := h + Sent(items[..n], e);
      ItemCloses(h, items, e, cap);
      var fore := after[..|after| - 1];
      StreamDelivers(h, items[..n], e, fore, cap);
      LastDelivers(Frames(g), items[n], after, cap, e,
                   Messages(Frames(h), fore[..|Frames(h)|], cap), Carried(items[..n]));
      Prefixes(after, |after| - 1, |Frames(h)|);
    }
  }

  lemma ItemCloses(h: seq<bv8>, items: seq<Item>, e: set<bv8>, cap: nat)
    requires |h| > 0 && h[|h| - 1] == FLAG
    requires |items| > 0 && Proper(items[|items| - 1], e, cap)
    ensures var n := |items| - 1;
      Frames(h + Sent(items, e)) == Frames(h + Sent(items[..n], e)) + [Octets(items[n], e)]
  {
    var n := |items| - 1;
    Grows(h, items, e);
    EndsInFlag(h, items[..n], e);
    if items[n].Message? { RestorableHasNoFlag(Framed(items[n].m), e); }
    FrameCloses(h + Sent(items[..n], e), Octets(items[n], e));
  }

  lemma LastDelivers(fs: seq<seq<bv8>>, it: Item, after: seq<bv8>, cap: nat, e: set<bv8>,
                     early: seq<seq<bv8>>, ms: seq<seq<bv8>>)
    requires |after| == |fs| + 1 && Proper(it, e, cap)
    requires Messages(fs, after[..|after| - 1], cap) == early + ms
    ensures Messages(fs + [Octets(it, e)], after, cap) == early + (ms + if it.Message? then [it.m] else [])
  {
    var f := Octets(it, e);
    if it.Message? {
      FrameDelivers(it.m, e, after[|fs|], cap);
      assert early + ms + [it.m] == early + (ms + [it.m]);
    } else if |f| <= cap {
      AfterUnused(f, after[|fs|], 0);
    }
    assert (fs + [f])[..|fs|] == fs;
  }

  lemma Prefixes(a: seq<bv8>, k: nat, j: nat)
    requires j <= k <= |a|
    ensures a[..k][..j] == a[..j]
  {
  }

  /** However the stream was cut into chunks, a receiver that has taken in noise, a
      flag and the items has delivered exactly their messages, after whatever the
      noise was taken for; after noise with no flag in it, exactly their messages. */
  lemma ReceiverDelivers(r: Receiver, noise: seq<bv8>, items: seq<Item>, e: set<bv8>)
    requires r.Valid() && r.history == (noise + [FLAG]) + Sent(items, e)
    requires forall k :: 0 <= k < |items| ==> Proper(items[k], e, r.cap)
    ensures var ms := Carried(items);
      && |ms| <= |r.delivered| && r.delivered[|r.delivered| - |ms|..] == ms
      && |r.delivered| - |ms| <= |Frames(noise + [FLAG])|
      && (FLAG !in noise ==> r.delivered == ms)
  {
    var h, ms := noise + [FLAG], Carried(items);
    StreamDelivers(h, items, e, r.after, r.cap);
    var early := Messages(Frames(h), r.after[..|Frames(h)|], r.cap);
    AtMostOneEach(Frames(h), r.after[..|Frames(h)|], r.cap);
    assert (early + ms)[|early|..] == ms;
    if FLAG !in noise {
      assert h[..|noise|] == noise && noise == [] + noise;
      TailGrows([], noise);
      assert early == [];
    }
  }

  lemma {:induction false} AtMostOneEach(fs: seq<seq<bv8>>, after: seq<bv8>, cap: nat)
    requires |after| == |fs|
    ensures |Messages(fs, after, cap)| <= |fs|
  {
    if |fs| > 0 { AtMostOneEach(fs[..|fs| - 1], after[..|fs| - 1], cap); }
  }

  // ---------- a frame cut off behind an escape ----------

  lemma {:induction false} FedOctets(s: State, f: seq<bv8>)
    requires s.InBuffer() && s.bufidx >= 0 && FLAG !in f && s.bufidx + |f| < |s.mem|
    ensures Fed(s, f) == State(s.mem[..s.bufidx] + f + s.mem[s.bufidx + |f|..], s.bufidx + |f|, s.delivered)
  {
    if |f| == 0 {
      assert s.mem == s.mem[..s.bufidx] + f + s.mem[s.bufidx..];
    } else {
      var n := |f| - 1;
      FedOctets(s, f[..n]);
      assert (s.mem[..s.bufidx] + f[..n] + s.mem[s.bufidx + n..])[s.bufidx + n := f[n]]
          == s.mem[..s.bufidx] + f + s.mem[s.bufidx + |f|..];
    }
  }

  // A frame from the start of the buffer on, and its flag.
  lemma FedFrame(s: State, f: seq<bv8>)
    requires s.InBuffer() && s.bufidx == 0 && FLAG !in f && |f| < |s.mem|
    ensures Fed(s, f + [FLAG]) ==
      State(Unescaped(f + s.mem[|f|..], |f|), 0, s.delivered + Accepted(Unstuffed(f, s.mem[|f|])))
  {
    FedOctets(s, f);
    FedOne(s, f, FLAG);
    var mem := f + s.mem[|f|..];
    assert s.mem[..0] + f + s.mem[|f|..] == mem;
    assert mem[..|f|] == f && mem[|f|] == s.mem[|f|];
  }

  lemma {:induction false} CutDangles(f: seq<bv8>, x: bv8, b: bv8)
    requires !Dangling(f)
    ensures Dangling(f + [ESCAPE]) && Unstuffed(f + [ESCAPE], b) == Unstuffed(f + [ESCAPE, b], x)
    decreases |f|
  {
    var c, w := f + [ESCAPE], f + [ESCAPE, b];
    if |f| == 0 {
      assert w[2..] == [];
    } else if f[0] == ESCAPE {
      assert c[2..] == f[2..] + [ESCAPE] && w[2..] == f[2..] + [ESCAPE, b];
      CutDangles(f[2..], x, b);
    } else {
      assert c[1..] == f[1..] + [ESCAPE] && w[1..] == f[1..] + [ESCAPE, b];
      CutDangles(f[1..], x, b);
    }
  }

  /** A message whose frame ends in an escaped octet b is delivered again when the
      frame is sent again and given up behind its last escape: b is still in the
      buffer. RFC 1662 has such a frame discarded. */
  lemma CutFrameDelivered(s: State, f: seq<bv8>, b: bv8, m: seq<bv8>)
    requires s.InBuffer() && s.bufidx == 0 && |f| + 2 < |s.mem|
    requires FLAG !in f && b != FLAG && !Dangling(f)
    requires Unstuffed(f + [ESCAPE, b], s.mem[|f| + 2]) == Framed(m)
    ensures Dangling(f + [ESCAPE])
    ensures Fed(s, f + [ESCAPE, b] + [FLAG]).delivered == s.delivered + [m]
    ensures Fed(s, (f + [ESCAPE, b] + [FLAG]) + (f + [ESCAPE] + [FLAG])).delivered == s.delivered + [m, m]
  {
    var w, c := f + [ESCAPE, b], f + [ESCAPE];
    FedFrame(s, w);
    AcceptedIff(Framed(m), m);
    var t := Fed(s, w + [FLAG]);
    CutDangles(f, s.mem[|w|], b);
    ShorterByOne(f, s.mem[|w|], b);
    assert t.mem[|c|] == b;
    FedFrame(t, c);
    FedConcat(s, w + [FLAG], c + [FLAG]);
    assert s.delivered + [m] + [m] == s.delivered + [m, m];
  }

  // Unstuffing leaves the last octet of such a frame where it is.
  lemma ShorterByOne(f: seq<bv8>, x: bv8, b: bv8)
    requires !Dangling(f)
    ensures |Unstuffed(f + [ESCAPE, b], x)| <= |f| + 1
  {
    CutDangles(f, x, b);
    UnstuffedShrinks(f + [ESCAPE], b);
  }

  // The check sequence of 0x21, 0xd9 is 0xe0, 0x7e, and a flag is always escaped.
  lemma ExampleFrame()
    ensures Framed([0xd9]) == [0x21, 0xd9, 0xe0, 0x7e]
    ensures Stuffed(Framed([0xd9]), {}) == [0x21, 0xd9, 0xe0] + [0x7d, 0x5e]
  {
    var p: seq<bv8> := [0x21, 0xd9];
    assert p[..1][..0] == [] && p[..1] == [0x21];
    OpenUpdate16(SEALS, 0xffff, 0x21);
    assert Byte16(0xffff ^ 0x21) == 0x3f0c;
    OpenUpdate16(SEALS, 0x3f0c, 0xd9);
    assert Byte16(0x3f0c ^ 0xd9) == 0x811f;
    assert Fcs(p) == 0x811f;
    assert [PROTOCOL] + [0xd9] == p;
    var u: seq<bv8> := [0x21, 0xd9, 0xe0, 0x7e];
    assert u[1..] == [0xd9, 0xe0, 0x7e] && u[1..][1..] == [0xe0, 0x7e] && u[1..][1..][1..] == [0x7e];
  }

  /** A sender that escapes only what it must, and such a message. */
  lemma ExampleDelivered(s: State)
    requires s.InBuffer() && s.bufidx == 0 && |s.mem| > 5
    ensures var f: seq<bv8> := [0x21, 0xd9, 0xe0];
      Fed(s, (f + [0x7d, 0x5e] + [0x7e]) + (f + [0x7d] + [0x7e])).delivered == s.delivered + [[0xd9], [0xd9]]
  {
    ExampleFrame();
    UnstuffIff(Framed([0xd9]), {}, s.mem[5]);
    MinimalRestorable(Framed([0xd9]));
    var f: seq<bv8> := [0x21, 0xd9, 0xe0];
    assert f[1..] == [0xd9, 0xe0] && f[1..][1..] == [0xe0] && f[1..][1..][1..] == [];
    CutFrameDelivered(s, f, 0x5e, [0xd9]);
  }
}
