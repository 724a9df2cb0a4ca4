/** The critical sections of src/main.c:135-180, 307-322 and 672-710 on the buffers
    themselves: each does to the lists what its step does to the protocol's state. */
module AudioThreads {
  import opened Basics
  import opened AudioBuffers
  import opened AudioQueue

  ghost function Data(nodes: seq<Node>): seq<Samples>
    reads nodes
  {
    seq(|nodes|, k requires 0 <= k < |nodes| reads nodes => nodes[k].data)
  }

  // The samples of packets, by number.
  ghost predicate Numbered(data: seq<Samples>, packets: seq<nat>, log: seq<Samples>) {
    |data| == |packets| && forall k :: 0 <= k < |data| ==> packets[k] < |log| && data[k] == log[packets[k]]
  }

  // What is queued, what is free, what the player has and what it has played are as
  // the state says; methods do not look inside (SEALS).
  ghost predicate Shows(s: State, log: seq<Samples>, queue: seq<Samples>, spare: nat, playing: seq<Samples>,
                        played: seq<Samples>) {
    Sealed(SEALS, s, log, queue, spare, playing, played)
  }

  ghost predicate Sealed(seals: seq<bool>, s: State, log: seq<Samples>, queue: seq<Samples>, spare: nat,
                         playing: seq<Samples>, played: seq<Samples>) {
    if |seals| > 0 then Sealed(seals[1..], s, log, queue, spare, playing, played)
    else Parts(s, log, queue, spare, playing, played)
  }

  lemma {:induction false} Open(seals: seq<bool>, s: State, log: seq<Samples>, queue: seq<Samples>, spare: nat,
                                playing: seq<Samples>, played: seq<Samples>)
    ensures Sealed(seals, s, log, queue, spare, playing, played) == Parts(s, log, queue, spare, playing, played)
  {
    if |seals| > 0 { Open(seals[1..], s, log, queue, spare, playing, played); }
  }

  ghost predicate Parts(s: State, log: seq<Samples>, queue: seq<Samples>, spare: nat, playing: seq<Samples>,
                        played: seq<Samples>) {
    && Inv(s) && |log| == s.next && spare == s.free
    && Numbered(queue, s.queue, log) && Numbered(playing, InFlight(s), log) && Numbered(played, s.played, log)
  }

  // From a file, and on one program, no packet is missing.
  ghost predicate InOrder(s: State, changed: bool) { s.file && !changed ==> Line(s) == Numbers(s.next) }

  lemma OfferShows(s: State, log: seq<Samples>, queue: seq<Samples>, spare: nat, playing: seq<Samples>,
                   played: seq<Samples>, changed: bool, program: nat, data: Samples)
    requires Shows(s, log, queue, spare, playing, played) && InOrder(s, changed) && !s.producer.Waiting?
    ensures var t := Offer(s, program);
      && t.file == s.file && t.program == s.program && t.done == s.done && InOrder(t, changed)
      && t.producer.Waiting? == (spare == 0 && s.file)
      && (t.next > s.next <==> !t.producer.Waiting?)
      && if spare > 0 then Shows(t, log + [data], queue + [data], spare - 1, playing, played)
         else Shows(t, if s.file then log else log + [data], queue, spare, playing, played)
  {
    Open(SEALS, s, log, queue, spare, playing, played);
    OfferKeeps(s, program);
    if s.file { OfferLine(s, program); }
    var t := Offer(s, program);
    if spare > 0 {
      Open(SEALS, t, log + [data], queue + [data], spare - 1, playing, played);
    } else {
      Open(SEALS, t, if s.file then log else log + [data], queue, spare, playing, played);
    }
  }

  lemma LookShows(s: State, log: seq<Samples>, queue: seq<Samples>, spare: nat, playing: seq<Samples>,
                  played: seq<Samples>, changed: bool)
    requires Shows(s, log, queue, spare, playing, played) && InOrder(s, changed) && Enabled(s, Look)
    ensures queue != [] ==> s.queue != [] && s.queue[0] < |log| && queue[0] == log[s.queue[0]]
    ensures var t := After(s, Look);
      && t.file == s.file && t.program == s.program && t.done == s.done && InOrder(t, changed)
      && playing == [] && (t.player.Playing? <==> queue != [])
      && if queue == [] then Shows(t, log, queue, spare, playing, played)
         else Shows(t, log, queue[1..], spare, [queue[0]], played)
  {
    Open(SEALS, s, log, queue, spare, playing, played);
    StepKeeps(s, Look);
    if queue == [] {
      Open(SEALS, After(s, Look), log, queue, spare, playing, played);
    } else {
      Open(SEALS, After(s, Look), log, queue[1..], spare, [queue[0]], played);
    }
    if s.file { LineGrows(s, Look); }
  }

  lemma FinishShows(s: State, log: seq<Samples>, queue: seq<Samples>, spare: nat, playing: seq<Samples>,
                    played: seq<Samples>, changed: bool)
    requires Shows(s, log, queue, spare, playing, played) && InOrder(s, changed) && Enabled(s, Finish)
    ensures var t := After(s, Finish);
      && t.file == s.file && t.program == s.program && t.done == s.done && InOrder(t, changed)
      && |playing| == 1 && Shows(t, log, queue, spare + 1, [], played + playing)
  {
    Open(SEALS, s, log, queue, spare, playing, played);
    StepKeeps(s, Finish);
    Open(SEALS, After(s, Finish), log, queue, spare + 1, [], played + playing);
    if s.file { LineGrows(s, Finish); }
  }

  lemma ChangeShows(s: State, log: seq<Samples>, queue: seq<Samples>, spare: nat, playing: seq<Samples>,
                    played: seq<Samples>, program: nat)
    requires Shows(s, log, queue, spare, playing, played)
    ensures var t := After(s, ChangeProgram(program));
      && t.file == s.file && t.program == program && t.done == s.done && InOrder(t, true)
      && Shows(t, log, [], spare + |queue|, playing, played)
  {
    Open(SEALS, s, log, queue, spare, playing, played);
    StepKeeps(s, ChangeProgram(program));
    Open(SEALS, After(s, ChangeProgram(program)), log, [], spare + |queue|, playing, played);
  }

  class Threads {
    const buffers: Buffers
    const file: bool
    var program: nat
    var done: bool
    // What the device was given.
    var played: seq<Samples>
    // The protocol's state, the samples of each packet, and whether the program was
    // ever changed; and the samples in the queue, the number of free buffers and the
    // samples with the player.
    ghost var state: State
    ghost var log: seq<Samples>
    ghost var changed: bool
    ghost var queue: seq<Samples>
    ghost var spare: nat
    ghost var playing: seq<Samples>

    ghost predicate Valid()
      reads this, buffers, buffers.queue, buffers.spare, buffers.playing
    {
      && Holds(SEALS, queue, spare, playing) && InOrder(state, changed)
      && state.file == file && state.program == program && state.done == done
      && Shows(state, log, queue, spare, playing, played)
    }

    // So much is in the lists; the steps do not look inside (SEALS).
    ghost predicate Holds(seals: seq<bool>, queue: seq<Samples>, spare: nat, playing: seq<Samples>)
      reads buffers, buffers.queue, buffers.spare, buffers.playing
      decreases |seals|
    {
      if |seals| > 0 then Holds(seals[1..], queue, spare, playing)
      else
        && buffers.Valid()
        && queue == Data(buffers.queue) && spare == |buffers.spare| && playing == Data(buffers.playing)
    }

    lemma {:induction false} OpenLists(seals: seq<bool>, queue: seq<Samples>, spare: nat, playing: seq<Samples>)
      ensures Holds(seals, queue, spare, playing) ==
        (buffers.Valid() && queue == Data(buffers.queue) && spare == |buffers.spare| && playing == Data(buffers.playing))
      decreases |seals|
    {
      if |seals| > 0 { OpenLists(seals[1..], queue, spare, playing); }
    }

    constructor (file: bool)
      ensures Valid() && state == Start(file) && this.file == file && fresh(buffers) && !changed
      ensures played == log == []
    {
      this.file := file;
      buffers := new Buffers();
      program, done, played := 0, false, [];
      state, log, changed := Start(file), [], false;
      queue, spare, playing := [], AudioBuffers.BUFFERS, [];
      new;
      StartInv(file);
      Open(SEALS, state, log, queue, spare, playing, played);
      OpenLists(SEALS, queue, spare, playing);
    }

    /** push_audio_buffer up to its end or its wait. */
    method PushAudioBuffer(packetProgram: nat, data: Samples) returns (waits: bool)
      requires Valid() && Enabled(state, Push(packetProgram))
      modifies this`state, this`log, this`queue, this`spare
      modifies buffers, buffers.queue`next, buffers.spare`next, buffers.spare`data
      ensures Valid() && state == After(old(state), Push(packetProgram))
      ensures waits <==> state.producer.Waiting?
      ensures log == old(log) + if state.next > old(state.next) then [data] else []
    {
      if packetProgram != program { return false; }
      waits := OfferData(packetProgram, data);
    }

    /** The producer wakes, with the samples it holds. */
    method Retry(data: Samples) returns (waits: bool)
      requires Valid() && Enabled(state, AudioQueue.Retry)
      modifies this`state, this`log, this`queue, this`spare
      modifies buffers, buffers.queue`next, buffers.spare`next, buffers.spare`data
      ensures Valid() && state == After(old(state), AudioQueue.Retry)
      ensures waits <==> state.producer.Waiting?
      ensures log == old(log) + if state.next > old(state.next) then [data] else []
    {
      waits := OfferData(state.producer.program, data);
    }

    // The samples go into a free buffer, if there is one.
    method Enqueue(data: Samples) returns (blocked: bool)
      requires Holds(SEALS, queue, spare, playing)
      modifies buffers, buffers.queue`next, buffers.spare`next, buffers.spare`data
      ensures blocked <==> spare == 0
      ensures if blocked then Holds(SEALS, queue, spare, playing) else Holds(SEALS, queue + [data], spare - 1, playing)
    {
      OpenLists(SEALS, queue, spare, playing);
      PlayerApart(buffers);
      blocked := buffers.Push(data);
      if blocked {
        OpenLists(SEALS, queue, spare, playing);
      } else {
        OpenLists(SEALS, queue + [data], spare - 1, playing);
      }
    }

    // The head of the queue goes to the player.
    method Dequeue() returns (b: Node?)
      requires Holds(SEALS, queue, spare, playing) && playing == []
      modifies buffers
      ensures b == null <==> queue == []
      ensures if b == null then Holds(SEALS, queue, spare, playing) else Holds(SEALS, queue[1..], spare, [queue[0]])
      ensures b != null ==> buffers.playing == [b] && b.data == queue[0]
    {
      OpenLists(SEALS, queue, spare, playing);
      b := buffers.Take();
      if b == null {
        OpenLists(SEALS, queue, spare, playing);
      } else {
        OpenLists(SEALS, queue[1..], spare, [queue[0]]);
      }
    }

    // The player's buffer becomes free.
    method GiveBack(b: Node)
      requires Holds(SEALS, queue, spare, playing) && buffers.playing == [b]
      modifies buffers`free, buffers`spare, buffers`playing, b`next
      ensures Holds(SEALS, queue, spare + 1, []) && playing == [b.data]
    {
      OpenLists(SEALS, queue, spare, playing);
      buffers.Release(b);
      OpenLists(SEALS, queue, spare + 1, []);
    }

    // So does all that is queued.
    method Clear()
      requires Holds(SEALS, queue, spare, playing)
      modifies buffers, buffers.queue`next
      ensures Holds(SEALS, [], spare + |queue|, playing)
    {
      OpenLists(SEALS, queue, spare, playing);
      buffers.ChangeProgram();
      OpenLists(SEALS, [], spare + |queue|, playing);
    }

    method OfferData(ghost packetProgram: nat, data: Samples) returns (waits: bool)
      requires Valid() && !state.producer.Waiting?
      modifies this`state, this`log, this`queue, this`spare
      modifies buffers, buffers.queue`next, buffers.spare`next, buffers.spare`data
      ensures Valid() && state == Offer(old(state), packetProgram)
      ensures waits <==> state.producer.Waiting?
      ensures log == old(log) + if state.next > old(state.next) then [data] else []
    {
      OfferShows(state, log, queue, spare, playing, played, changed, packetProgram, data);
      var blocked := Enqueue(data);
      waits := blocked && file;
      state := Offer(state, packetProgram);
      if !waits { log := log + [data]; }
      if !blocked { queue, spare := queue + [data], spare - 1; }
    }

    /** audio_main up to the device; null while there is nothing to play. */
    method Look() returns (b: Node?)
      requires Valid() && Enabled(state, AudioQueue.Look)
      modifies this`state, this`queue, this`playing, buffers
      ensures Valid() && state == After(old(state), AudioQueue.Look)
      ensures b != null <==> state.player.Playing?
      ensures b != null ==> buffers.playing == [b] && state.player.packet < |log| && b.data == log[state.player.packet]
    {
      LookShows(state, log, queue, spare, playing, played, changed);
      b := Dequeue();
      if b != null { queue, playing := queue[1..], [queue[0]]; }
      state := After(state, AudioQueue.Look);
    }

    /** The device, and audio_main from there on. */
    method Finish(b: Node)
      requires Valid() && Enabled(state, AudioQueue.Finish) && buffers.playing == [b]
      modifies this`state, this`played, this`spare, this`playing, buffers`free, buffers`spare, buffers`playing, b`next
      ensures Valid() && state == After(old(state), AudioQueue.Finish)
      ensures played == old(played) + [b.data] && b.data == old(b.data)
    {
      FinishShows(state, log, queue, spare, playing, played, changed);
      played := played + [b.data];
      GiveBack(b);
      spare, playing := spare + 1, [];
      state := After(state, AudioQueue.Finish);
    }

    /** change_program */
    method ChangeProgram(program: nat)
      requires Valid()
      modifies this`state, this`program, this`changed, this`queue, this`spare, buffers, buffers.queue`next
      ensures Valid() && state == After(old(state), AudioQueue.ChangeProgram(program)) && changed
    {
      ChangeShows(state, log, queue, spare, playing, played, program);
      Clear();
      queue, spare := [], spare + |queue|;
      this.program := program;
      state := After(state, AudioQueue.ChangeProgram(program));
      changed := true;
    }
  }

  lemma OfferLine(s: State, program: nat)
    requires s.file
    ensures var t := Offer(s, program); Line(t) == Line(s) + if t.next > s.next then [s.next] else []
  {
    if s.free > 0 {
      assert Line(Offer(s, program)) == Line(s) + [s.next];
    } else {
      assert Line(Offer(s, program)) == Line(s) + [];
    }
  }

  // The player's node is not free.
  lemma PlayerApart(b: Buffers)
    requires b.Valid()
    ensures forall n :: n in b.playing ==> n !in b.spare && n !in b.queue
    ensures forall n :: n in b.queue ==> n !in b.spare
  {
    var t := b.queue + b.spare + b.playing;
    Apart(b.queue, b.spare, b.playing);
    forall i, j | 0 <= i < |b.playing| && 0 <= j < |b.spare| ensures b.playing[i] != b.spare[j] {
      assert t[|b.queue| + |b.spare| + i] == b.playing[i] && t[|b.queue| + j] == b.spare[j];
    }
    forall i, j | 0 <= i < |b.playing| && 0 <= j < |b.queue| ensures b.playing[i] != b.queue[j] {
      assert t[|b.queue| + |b.spare| + i] == b.playing[i] && t[j] == b.queue[j];
    }
  }

  /** From a file, and on one program, the device is given the samples pushed: the
      first ones, all of them and in order; when nothing is left, all. */
  lemma DeviceHears(t: Threads)
    requires t.Valid() && t.file && !t.changed
    ensures t.played <= t.log
    ensures t.buffers.queue == t.buffers.playing == [] ==> t.played == t.log
  {
    var s := t.state;
    Open(SEALS, s, t.log, t.queue, t.spare, t.playing, t.played);
    t.OpenLists(SEALS, t.queue, t.spare, t.playing);
    NumbersAre(s.next);
    assert s.played <= Line(s);
    forall k | 0 <= k < |t.played| ensures t.played[k] == t.log[k] { assert s.played[k] == Line(s)[k]; }
    if t.buffers.queue == t.buffers.playing == [] { assert Line(s) == s.played; }
  }

  lemma {:induction false} NumbersAre(n: nat)
    ensures |Numbers(n)| == n && forall k :: 0 <= k < n ==> Numbers(n)[k] == k
  {
    if n > 0 { NumbersAre(n - 1); }
  }
}
