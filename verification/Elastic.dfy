/** The elastic buffer of src/output.c:31-175 for one program: packets are pushed into
    64 slots by number, possibly in two halves, and read out slot after slot. */
module Elastic {

  const SLOTS := 64

  datatype Shape = None | Full | HalfFront | HalfBack

  datatype Packet = Packet(data: seq<bv8>, crcError: bool, shape: Shape)

  // A push: which stream and slot, and what.
  datatype Ref = Ref(streamId: nat, seqno: nat, packet: Packet)

  const EMPTY := Packet([], false, None)

  // The report of one HDC packet.
  datatype Event = Hdc(data: seq<bv8>, crcError: bool)

  // What a slot holds after a push (output_push).
  function Received(slot: Packet, p: Packet): Packet {
    if p.shape == HalfBack && slot.shape == HalfFront then
      var bad := slot.crcError || p.crcError;
      Packet(if bad then [] else slot.data + p.data, bad, Full)
    else if p.shape == HalfBack then slot
    else Packet(if p.crcError then [] else p.data, p.crcError, p.shape)
  }

  // What reading a slot reports.
  function Reported(slot: Packet): seq<Event> {
    if slot.shape == Full then [Hdc(slot.data, slot.crcError)] else []
  }

  // The buffer and what it has reported; offset is -1 until the first alignment.
  datatype State = State(slots: seq<Packet>, offset: int, events: seq<Event>)

  function AfterPush(s: State, seqno: nat, p: Packet): State
    requires seqno < |s.slots|
  {
    s.(slots := s.slots[seqno := Received(s.slots[seqno], p)])
  }

  function AfterRead(s: State): State
    requires 0 <= s.offset < |s.slots|
  {
    State(s.slots[s.offset := EMPTY], (s.offset + 1) % SLOTS, s.events + Reported(s.slots[s.offset]))
  }

  // After n reads, each from the slot behind the one before.
  function AfterReads(s: State, n: nat): (t: State)
    requires 0 <= s.offset < |s.slots| == SLOTS
    ensures 0 <= t.offset < |t.slots| == SLOTS
    ensures s.events <= t.events
  {
    if n == 0 then s else AfterRead(AfterReads(s, n - 1))
  }

  /** The read position steps through the slots modulo 64. */
  lemma {:induction false} ReadsStepOn(s: State, n: nat)
    requires 0 <= s.offset < |s.slots| == SLOTS
    ensures AfterReads(s, n).offset == (s.offset + n) % 64
  {
    if n > 0 {
      ReadsStepOn(s, n - 1);
      StepOn(s.offset, n - 1);
    }
  }

  lemma StepOn(a: nat, k: nat)
    ensures ((a + k) % SLOTS + 1) % SLOTS == (a + k + 1) % SLOTS
  {
  }

  // ---------- whence a slot's contents ----------

  // The pushes numbered ids, and no others, make up what slot k holds.
  ghost predicate MadeOf(slot: Packet, k: nat, ids: seq<nat>, pushes: seq<Ref>) {
    && (forall i :: 0 <= i < |ids| ==> ids[i] < |pushes| && pushes[ids[i]].seqno == k)
    && match slot.shape
       case None => ids == [] && slot.data == []
       case HalfFront => |ids| == 1 && pushes[ids[0]].packet.shape == HalfFront && Joined(slot, ids, pushes)
       case Full =>
         && Joined(slot, ids, pushes)
         && if |ids| == 1 then pushes[ids[0]].packet.shape == Full
            else |ids| == 2 && ids[0] < ids[1] && pushes[ids[0]].packet.shape == HalfFront &&
                 pushes[ids[1]].packet.shape == HalfBack
       case HalfBack => false
  }

  // Flagged exactly when one of the parts was, and then without data; otherwise
  // the parts' data in order.
  ghost predicate Joined(slot: Packet, ids: seq<nat>, pushes: seq<Ref>)
    requires forall i :: 0 <= i < |ids| ==> ids[i] < |pushes|
  {
    && (slot.crcError <==> exists i :: 0 <= i < |ids| && pushes[ids[i]].packet.crcError)
    && slot.data == if slot.crcError then [] else Data(ids, pushes)
  }

  ghost function Data(ids: seq<nat>, pushes: seq<Ref>): seq<bv8>
    requires forall i :: 0 <= i < |ids| ==> ids[i] < |pushes|
  {
    if |ids| == 0 then [] else Data(ids[..|ids| - 1], pushes) + pushes[ids[|ids| - 1]].packet.data
  }

  lemma {:induction false} DataLater(ids: seq<nat>, pushes: seq<Ref>, r: Ref)
    requires forall i :: 0 <= i < |ids| ==> ids[i] < |pushes|
    ensures Data(ids, pushes + [r]) == Data(ids, pushes)
  {
    if |ids| > 0 { DataLater(ids[..|ids| - 1], pushes, r); }
  }

  lemma MadeOfLater(slot: Packet, k: nat, ids: seq<nat>, pushes: seq<Ref>, r: Ref)
    requires MadeOf(slot, k, ids, pushes)
    ensures MadeOf(slot, k, ids, pushes + [r])
  {
    DataLater(ids, pushes, r);
    assert forall i :: 0 <= i < |ids| ==> (pushes + [r])[ids[i]] == pushes[ids[i]];
  }

  // The parts of slot k after push r, the latest of pushes.
  ghost function Parts(slot: Packet, ids: seq<nat>, pushes: seq<Ref>): seq<nat>
    requires |pushes| > 0
  {
    var n := |pushes| - 1;
    var p := pushes[n].packet;
    if p.shape == HalfBack && slot.shape == HalfFront then ids + [n]
    else if p.shape == HalfBack then ids
    else if p.shape == None then []
    else [n]
  }

  lemma Replaces(slot: Packet, ids: seq<nat>, pushes: seq<Ref>, r: Ref)
    requires r.packet.shape == Full || r.packet.shape == HalfFront
    ensures MadeOf(Received(slot, r.packet), r.seqno, [|pushes|], pushes + [r])
  {
    var all, parts := pushes + [r], [|pushes|];
    assert parts[..0] == [] && all[parts[0]] == r;
    assert Data(parts, all) == [] + r.packet.data;
  }

  lemma Completes(slot: Packet, ids: seq<nat>, pushes: seq<Ref>, r: Ref)
    requires MadeOf(slot, r.seqno, ids, pushes) && slot.shape == HalfFront && r.packet.shape == HalfBack
    ensures MadeOf(Received(slot, r.packet), r.seqno, ids + [|pushes|], pushes + [r])
  {
    var all, parts := pushes + [r], ids + [|pushes|];
    DataLater(ids, pushes, r);
    assert ids[..0] == [] && parts[..1] == ids;
    assert all[parts[0]] == pushes[ids[0]] && all[parts[1]] == r;
    assert slot.crcError == pushes[ids[0]].packet.crcError;
    assert Data(parts, all) == Data(ids, all) + r.packet.data;
  }

  lemma ReceivedMadeOf(slot: Packet, ids: seq<nat>, pushes: seq<Ref>, r: Ref)
    requires MadeOf(slot, r.seqno, ids, pushes) && r.packet.shape != None
    ensures MadeOf(Received(slot, r.packet), r.seqno, Parts(slot, ids, pushes + [r]), pushes + [r])
  {
    if r.packet.shape != HalfBack {
      Replaces(slot, ids, pushes, r);
    } else if slot.shape == HalfFront {
      Completes(slot, ids, pushes, r);
    } else {
      MadeOfLater(slot, r.seqno, ids, pushes, r);
    }
  }

  // ---------- the buffer ----------

  // What was reported, and from which pushes.
  ghost predicate EventOf(e: Event, ids: seq<nat>, pushes: seq<Ref>) {
    exists k: nat :: MadeOf(Packet(e.data, e.crcError, Full), k, ids, pushes)
  }

  ghost predicate Apart(a: seq<nat>, b: seq<nat>) { forall i :: i in a ==> i !in b }

  class Buffer {
    const packets: array<Packet>
    var audioOffset: int
    var events: seq<Event>
    // All pushes of stream 0 so far, those that make up each slot, and those that
    // made up each event.
    ghost var pushes: seq<Ref>
    ghost var parts: seq<seq<nat>>
    ghost var origins: seq<seq<nat>>

    ghost predicate Valid()
      reads this, packets
    {
      && packets.Length == SLOTS == |parts|
      && -1 <= audioOffset < SLOTS
      && (forall k :: 0 <= k < SLOTS ==> MadeOf(packets[k], k, parts[k], pushes))
      && |origins| == |events|
      && (forall j :: 0 <= j < |events| ==> EventOf(events[j], origins[j], pushes))
      && (forall j, k :: 0 <= j < |events| && 0 <= k < SLOTS ==> Apart(origins[j], parts[k]))
      && (forall i, j :: 0 <= i < j < |events| ==> Apart(origins[i], origins[j]))
    }

    function Now(): State
      reads this, packets
    {
      State(packets[..], audioOffset, events)
    }

    constructor ()
      ensures Valid() && fresh(packets) && pushes == []
      ensures Now() == State(seq(SLOTS, _ => EMPTY), -1, [])
    {
      packets := new Packet[SLOTS](_ => EMPTY);
      audioOffset := -1;
      events := [];
      pushes, parts, origins := [], seq(SLOTS, _ => []), [];
      new;
      assert packets[..] == seq(SLOTS, _ => EMPTY);
    }

    /** output_align */
    method Align(offset: nat)
      requires Valid() && offset < SLOTS
      modifies this`audioOffset
      ensures Valid() && audioOffset == offset
    {
      audioOffset := offset;
    }

    /** output_push. Only stream 0 is taken. */
    method Push(r: Ref)
      requires Valid() && r.seqno < SLOTS && r.packet.shape != None
      modifies this`pushes, this`parts, packets
      ensures Valid()
      ensures pushes == if r.streamId == 0 then old(pushes) + [r] else old(pushes)
      ensures Now() == if r.streamId == 0 then AfterPush(old(Now()), r.seqno, r.packet) else old(Now())
    {
      if r.streamId != 0 { return; }
      var pkt := packets[r.seqno];
      if r.packet.shape == HalfBack && pkt.shape == HalfFront {
        pkt := pkt.(crcError := pkt.crcError || r.packet.crcError, shape := Full);
        pkt := pkt.(data := if !pkt.crcError then pkt.data + r.packet.data else []);
      } else {
        if r.packet.shape != HalfBack {
          pkt := pkt.(crcError := r.packet.crcError, shape := r.packet.shape);
          pkt := pkt.(data := if !pkt.crcError then r.packet.data else []);
        }
      }
      Note(r, pkt);
      packets[r.seqno] := pkt;
    }

    // The ghost side of a push.
    ghost method Note(r: Ref, pkt: Packet)
      requires Valid() && r.seqno < SLOTS && r.packet.shape != None
      requires pkt == Received(packets[r.seqno], r.packet)
      modifies this`pushes, this`parts
      ensures pushes == old(pushes) + [r] && |parts| == SLOTS
      ensures MadeOf(pkt, r.seqno, parts[r.seqno], pushes)
      ensures forall k :: 0 <= k < SLOTS && k != r.seqno ==> MadeOf(packets[k], k, parts[k], pushes)
      ensures forall j :: 0 <= j < |events| ==> EventOf(events[j], origins[j], pushes)
      ensures forall j, k :: 0 <= j < |events| && 0 <= k < SLOTS ==> Apart(origins[j], parts[k])
    {
      var slot, ids, before := packets[r.seqno], parts[r.seqno], pushes;
      ReceivedMadeOf(slot, ids, before, r);
      forall k | 0 <= k < SLOTS ensures MadeOf(packets[k], k, parts[k], before + [r]) {
        MadeOfLater(packets[k], k, parts[k], before, r);
      }
      forall j | 0 <= j < |events| ensures EventOf(events[j], origins[j], before + [r]) {
        EventLater(events[j], origins[j], before, r);
      }
      var now := Parts(slot, ids, before + [r]);
      forall j | 0 <= j < |events| ensures Apart(origins[j], now) {
        assert EventOf(events[j], origins[j], before);
        assert Apart(origins[j], ids);
      }
      pushes := pushes + [r];
      parts := parts[r.seqno := now];
    }

    /** One frame of output_advance: the slot is reported if complete, emptied, and
        the read position steps on. */
    method Read()
      requires Valid() && audioOffset >= 0
      modifies this`audioOffset, this`events, this`parts, this`origins, packets
      ensures Valid() && Now() == AfterRead(old(Now()))
    {
      var at := audioOffset;
      var pkt := packets[at];
      PartsApart(at);
      if pkt.shape == Full {
        assert MadeOf(Packet(pkt.data, pkt.crcError, Full), at, parts[at], pushes);
        events := events + [Hdc(pkt.data, pkt.crcError)];
        origins := origins + [parts[at]];
      }
      Clear(at);
      audioOffset := (audioOffset + 1) % SLOTS;
    }

    // pkt_reset of slot at, whose pushes may have been reported just now.
    method Clear(at: nat)
      requires at < SLOTS == packets.Length == |parts| && |origins| == |events|
      requires forall k :: 0 <= k < SLOTS ==> MadeOf(packets[k], k, parts[k], pushes)
      requires forall j, k :: 0 <= j < |events| && 0 <= k < SLOTS && k != at ==> Apart(origins[j], parts[k])
      modifies this`parts, packets
      ensures |parts| == SLOTS && forall k :: 0 <= k < SLOTS ==> MadeOf(packets[k], k, parts[k], pushes)
      ensures forall j, k :: 0 <= j < |events| && 0 <= k < SLOTS ==> Apart(origins[j], parts[k])
      ensures packets[..] == old(packets[..])[at := EMPTY]
    {
      packets[at] := EMPTY;
      parts := parts[at := []];
    }

    // Different slots are made of different pushes.
    lemma PartsApart(at: nat)
      requires Valid() && at < SLOTS
      ensures forall k :: 0 <= k < SLOTS && k != at ==> Apart(parts[at], parts[k])
    {
      forall k | 0 <= k < SLOTS && k != at ensures Apart(parts[at], parts[k]) {
        assert MadeOf(packets[k], k, parts[k], pushes) && MadeOf(packets[at], at, parts[at], pushes);
      }
    }

    /** output_advance, for this program. */
    method Advance(frames: nat)
      requires Valid()
      modifies this`audioOffset, this`events, this`parts, this`origins, packets
      ensures Valid() && pushes == old(pushes)
      ensures Now() == if old(audioOffset) == -1 then old(Now()) else AfterReads(old(Now()), frames)
    {
      if audioOffset == -1 { return; }
      var frame := 0;
      while frame < frames
        invariant 0 <= frame <= frames && Valid() && pushes == old(pushes)
        invariant audioOffset >= 0 && Now() == AfterReads(old(Now()), frame)
      {
        Read();
        frame := frame + 1;
      }
    }
  }

  lemma EventLater(e: Event, ids: seq<nat>, pushes: seq<Ref>, r: Ref)
    requires EventOf(e, ids, pushes)
    ensures EventOf(e, ids, pushes + [r])
  {
    var k: nat :| MadeOf(Packet(e.data, e.crcError, Full), k, ids, pushes);
    MadeOfLater(Packet(e.data, e.crcError, Full), k, ids, pushes, r);
  }

  /** What an event is: one whole packet, or the two halves that met in a slot, each
      of them pushed once and reported in no other event. */
  lemma Delivered(b: Buffer, j: nat)
    requires b.Valid() && j < |b.events|
    ensures var e, ids := b.events[j], b.origins[j];
      || (|ids| == 1 && ids[0] < |b.pushes| && var p := b.pushes[ids[0]].packet;
            p.shape == Full && e == Hdc(if p.crcError then [] else p.data, p.crcError))
      || (|ids| == 2 && ids[0] < ids[1] < |b.pushes| && var p, q := b.pushes[ids[0]], b.pushes[ids[1]];
            && p.packet.shape == HalfFront && q.packet.shape == HalfBack && p.seqno == q.seqno
            && var bad := p.packet.crcError || q.packet.crcError;
               e == Hdc(if bad then [] else p.packet.data + q.packet.data, bad))
    ensures forall i :: 0 <= i < |b.events| && i != j ==> Apart(b.origins[i], b.origins[j])
  {
    var e, ids := b.events[j], b.origins[j];
    assert EventOf(e, ids, b.pushes);
    forall i | 0 <= i < |b.events| && i != j ensures Apart(b.origins[i], b.origins[j]) {
      if i > j { assert Apart(b.origins[j], b.origins[i]); }
    }
    var k: nat :| MadeOf(Packet(e.data, e.crcError, Full), k, ids, b.pushes);
    Unjoin(Packet(e.data, e.crcError, Full), ids, b.pushes);
  }

  lemma Unjoin(slot: Packet, ids: seq<nat>, pushes: seq<Ref>)
    requires 1 <= |ids| <= 2 && forall i :: 0 <= i < |ids| ==> ids[i] < |pushes|
    requires Joined(slot, ids, pushes)
    ensures |ids| == 1 ==> var p := pushes[ids[0]].packet;
      slot.crcError == p.crcError && slot.data == if p.crcError then [] else p.data
    ensures |ids| == 2 ==> var p, q := pushes[ids[0]].packet, pushes[ids[1]].packet;
      slot.crcError == (p.crcError || q.crcError) && slot.data == if slot.crcError then [] else p.data + q.data
  {
    assert pushes[ids[0]].packet.crcError ==> slot.crcError;
    var first := ids[..1];
    assert first[..0] == [];
    assert Data(first, pushes) == [] + pushes[ids[0]].packet.data;
    if |ids| == 1 {
      assert first == ids;
    } else {
      assert pushes[ids[1]].packet.crcError ==> slot.crcError;
      assert Data(ids, pushes) == Data(first, pushes) + pushes[ids[1]].packet.data;
    }
  }
}
