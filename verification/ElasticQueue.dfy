/** The elastic buffer as a queue: when packets come numbered one after another and
    reading stays behind writing, what src/output.c:31-175 reports is what was pushed,
    whole, in order, with nothing lost and nothing twice. */
module ElasticQueue {
  import opened Elastic

  // ahead slots to go before the first packet; packets that wait; perhaps a front
  // half whose back half is still to come.
  datatype Queue = Queue(ahead: nat, waiting: seq<Event>, front: seq<Packet>)

  function Size(q: Queue): nat { q.ahead + |q.waiting| + |q.front| }

  // The slot d places after slot o.
  function At(o: nat, d: nat): nat { (o + d) % SLOTS }

  lemma AtIs(o: nat, d: nat)
    requires o < SLOTS && d < SLOTS
    ensures At(o, d) == if o + d < SLOTS then o + d else o + d - SLOTS
  {
  }

  lemma AtNext(o: nat, d: nat)
    requires o < SLOTS
    ensures At(At(o, 1), d) == At(o, d + 1) && At(o, d + SLOTS) == At(o, d)
  {
  }

  // The contents of the slot d places after the read position.
  function Cell(q: Queue, d: nat): Packet {
    var w := d - q.ahead;
    if d < q.ahead then EMPTY
    else if w < |q.waiting| then Packet(q.waiting[w].data, q.waiting[w].crcError, Full)
    else if w - |q.waiting| < |q.front| then q.front[w - |q.waiting|]
    else EMPTY
  }

  // Slots and read position hold exactly the queue.
  ghost predicate Holds(slots: seq<Packet>, offset: nat, q: Queue) {
    && |slots| == SLOTS && offset < SLOTS && Size(q) <= SLOTS
    && |q.front| <= 1 && (|q.front| == 1 ==> q.front[0].shape == HalfFront)
    && forall d :: 0 <= d < SLOTS ==> slots[At(offset, d)] == Cell(q, d)
  }

  // ---------- pushing ----------

  // A packet that fits: a back half only behind its front half, anything else only
  // where there is room.
  predicate CanPut(q: Queue, p: Packet) {
    match p.shape
    case None => false
    case HalfBack => |q.front| == 1
    case _ => q.front == [] && Size(q) < SLOTS
  }

  function Payload(p: Packet): Event { Hdc(if p.crcError then [] else p.data, p.crcError) }

  function Join(f: Packet, p: Packet): Event {
    var bad := f.crcError || p.crcError;
    Hdc(if bad then [] else f.data + p.data, bad)
  }

  function Put(q: Queue, p: Packet): Queue
    requires CanPut(q, p)
  {
    match p.shape
    case HalfBack => q.(waiting := q.waiting + [Join(q.front[0], p)], front := [])
    case HalfFront => q.(front := [Packet(Payload(p).data, p.crcError, HalfFront)])
    case _ => q.(waiting := q.waiting + [Payload(p)])
  }

  // The slot the next packet belongs to.
  function NextSlot(offset: nat, q: Queue): nat { At(offset, q.ahead + |q.waiting|) }

  lemma CellAfterPut(q: Queue, p: Packet, d: nat)
    requires CanPut(q, p) && |q.front| <= 1 && (|q.front| == 1 ==> q.front[0].shape == HalfFront)
    ensures Cell(Put(q, p), d) ==
      if d == q.ahead + |q.waiting| then Received(Cell(q, d), p) else Cell(q, d)
  {
  }

  lemma AtDistinct(o: nat, d: nat, e: nat)
    requires o < SLOTS && d < SLOTS && e < SLOTS
    ensures At(o, d) < SLOTS && (At(o, d) == At(o, e) <==> d == e)
  {
    AtIs(o, d);
    AtIs(o, e);
  }

  /** A push into the next slot appends to the queue. */
  lemma PutRefines(slots: seq<Packet>, offset: nat, q: Queue, p: Packet)
    requires Holds(slots, offset, q) && CanPut(q, p)
    ensures var s := NextSlot(offset, q); s < SLOTS && Holds(slots[s := Received(slots[s], p)], offset, Put(q, p))
  {
    var e := q.ahead + |q.waiting|;
    var s := NextSlot(offset, q);
    AtDistinct(offset, e, e);
    var after := slots[s := Received(slots[s], p)];
    forall d | 0 <= d < SLOTS ensures after[At(offset, d)] == Cell(Put(q, p), d) {
      AtDistinct(offset, d, e);
      CellAfterPut(q, p, d);
      assert slots[At(offset, d)] == Cell(q, d);
    }
  }

  // ---------- reading ----------

  // Reading too early for the next packet would lose step with it.
  predicate CanGet(q: Queue) { q.ahead > 0 || |q.waiting| > 0 }

  function Get(q: Queue): Queue
    requires CanGet(q)
  {
    if q.ahead > 0 then q.(ahead := q.ahead - 1) else q.(waiting := q.waiting[1..])
  }

  function Got(q: Queue): seq<Event>
    requires CanGet(q)
  {
    if q.ahead > 0 then [] else [q.waiting[0]]
  }

  /** A read reports the head of the queue, or nothing while the queue is still ahead. */
  lemma GetRefines(slots: seq<Packet>, offset: nat, q: Queue)
    requires Holds(slots, offset, q) && CanGet(q)
    ensures Reported(slots[offset]) == Got(q)
    ensures Holds(slots[offset := EMPTY], At(offset, 1), Get(q))
  {
    AtIs(offset, 0);
    AtIs(offset, 1);
    assert slots[At(offset, 0)] == Cell(q, 0);
    var after := slots[offset := EMPTY];
    forall d | 0 <= d < SLOTS ensures after[At(At(offset, 1), d)] == Cell(Get(q), d) {
      AtNext(offset, d);
      if d + 1 < SLOTS {
        AtIs(offset, d + 1);
        assert slots[At(offset, d + 1)] == Cell(q, d + 1);
      } else {
        AtNext(offset, 0);
        assert At(offset, d + 1) == At(offset, 0) == offset;
        assert Size(Get(q)) < SLOTS;
      }
    }
  }

  // ---------- runs ----------

  datatype Op = Push(seqno: nat, packet: Packet) | Read

  function Step(s: State, op: Op): State
    requires 0 <= s.offset < |s.slots| == SLOTS && (op.Push? ==> op.seqno < SLOTS)
  {
    match op
    case Push(k, p) => AfterPush(s, k, p)
    case Read => AfterRead(s)
  }

  // A push goes to the next slot when there is room, and reading does not overtake.
  predicate Fits(q: Queue, offset: nat, op: Op) {
    match op
    case Push(k, p) => k == NextSlot(offset, q) && CanPut(q, p)
    case Read => CanGet(q)
  }

  function Next(q: Queue, op: Op): Queue
    requires op.Push? ==> CanPut(q, op.packet)
    requires op.Read? ==> CanGet(q)
  {
    match op
    case Push(_, p) => Put(q, p)
    case Read => Get(q)
  }

  // What op completes, when the front half is left over from before.
  function Completed(front: seq<Packet>, op: Op): seq<Event> {
    match op
    case Read => []
    case Push(_, p) =>
      match p.shape
      case HalfBack => if |front| == 1 then [Join(front[0], p)] else []
      case HalfFront => []
      case _ => [Payload(p)]
  }

  function LeftOver(front: seq<Packet>, op: Op): seq<Packet> {
    match op
    case Read => front
    case Push(_, p) =>
      match p.shape
      case HalfBack => []
      case HalfFront => [Packet(Payload(p).data, p.crcError, HalfFront)]
      case _ => front
  }

  lemma StepAccounts(events: seq<Event>, out: seq<Event>, q: Queue, op: Op)
    requires op.Push? ==> CanPut(q, op.packet) && out == []
    requires op.Read? ==> CanGet(q) && out == Got(q)
    ensures Next(q, op).front == LeftOver(q.front, op)
    ensures (events + out) + Next(q, op).waiting == (events + q.waiting) + Completed(q.front, op)
  {
    assert events + [] == events;
    if op.Read? { assert out + Next(q, op).waiting == q.waiting; }
  }

  /** One operation in step: the buffer goes on holding the queue. */
  lemma StepRefines(s: State, q: Queue, op: Op)
    requires s.offset >= 0 && Holds(s.slots, s.offset, q) && Fits(q, s.offset, op)
    ensures op.Push? ==> op.seqno < SLOTS
    ensures var t := Step(s, op);
      && t.offset >= 0 && Holds(t.slots, t.offset, Next(q, op))
      && t.events + Next(q, op).waiting == (s.events + q.waiting) + Completed(q.front, op)
  {
    if op.Push? {
      PutRefines(s.slots, s.offset, q, op.packet);
      StepAccounts(s.events, [], q, op);
      assert s.events + [] == s.events;
    } else {
      GetRefines(s.slots, s.offset, q);
      StepAccounts(s.events, Got(q), q, op);
      assert At(s.offset, 1) == (s.offset + 1) % SLOTS;
    }
  }

  // Every operation fits the queue that its predecessors left.
  ghost predicate InStep(q: Queue, offset: nat, ops: seq<Op>)
    decreases |ops|
  {
    |ops| > 0 ==>
      Fits(q, offset, ops[0]) && InStep(Next(q, ops[0]), if ops[0].Read? then At(offset, 1) else offset, ops[1..])
  }

  function Run(s: State, ops: seq<Op>): State
    requires 0 <= s.offset < |s.slots| == SLOTS
    requires forall i :: 0 <= i < |ops| && ops[i].Push? ==> ops[i].seqno < SLOTS
    decreases |ops|
  {
    if |ops| == 0 then s else Run(Step(s, ops[0]), ops[1..])
  }

  // The packets that ops complete, in order.
  function Frames(front: seq<Packet>, ops: seq<Op>): seq<Event>
    decreases |ops|
  {
    if |ops| == 0 then [] else Completed(front, ops[0]) + Frames(LeftOver(front, ops[0]), ops[1..])
  }

  /** Over every run in step, what has been reported and what still waits are together
      what waited at first and what was pushed, in order, and nothing else. */
  lemma {:induction false} BufferIsQueue(s: State, q: Queue, ops: seq<Op>) returns (r: Queue)
    requires s.offset >= 0 && Holds(s.slots, s.offset, q) && InStep(q, s.offset, ops)
    requires forall i :: 0 <= i < |ops| && ops[i].Push? ==> ops[i].seqno < SLOTS
    ensures var t := Run(s, ops);
      t.offset >= 0 && Holds(t.slots, t.offset, r) &&
      t.events + r.waiting == (s.events + q.waiting) + Frames(q.front, ops)
    decreases |ops|
  {
    var start := s.events + q.waiting;
    if |ops| == 0 {
      r := q;
      assert start + [] == start;
    } else {
      StepRefines(s, q, ops[0]);
      StepAccounts(s.events, if ops[0].Read? then Got(q) else [], q, ops[0]);
      r := BufferIsQueue(Step(s, ops[0]), Next(q, ops[0]), ops[1..]);
      Regroup(start, Completed(q.front, ops[0]), Frames(LeftOver(q.front, ops[0]), ops[1..]));
    }
  }

  lemma Regroup(a: seq<Event>, b: seq<Event>, c: seq<Event>)
    ensures (a + b) + c == a + (b + c)
  {
  }

  /** An empty buffer whose first packet is due in ahead slots reports a prefix of
      the packets pushed, in order: all but those that still wait. */
  lemma ReportsInOrder(offset: nat, ahead: nat, ops: seq<Op>)
    requires offset < SLOTS && ahead <= SLOTS
    requires forall i :: 0 <= i < |ops| && ops[i].Push? ==> ops[i].seqno < SLOTS
    requires InStep(Queue(ahead, [], []), offset, ops)
    ensures var t := Run(State(seq(SLOTS, _ => EMPTY), offset, []), ops);
      t.events <= Frames([], ops) && |Frames([], ops)| - |t.events| <= SLOTS
  {
    var s, q := State(seq(SLOTS, _ => EMPTY), offset, []), Queue(ahead, [], []);
    forall d | 0 <= d < SLOTS ensures s.slots[At(offset, d)] == Cell(q, d) { AtIs(offset, d); }
    var r := BufferIsQueue(s, q, ops);
    assert ([] + []) + Frames([], ops) == Frames([], ops);
  }
}
