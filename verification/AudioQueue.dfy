/** The audio queue of src/main.c:135-180, 307-322 and 672-710 as a protocol: the
    producer and the player share the buffers, one mutex and one condition variable,
    and each critical section is one step. Packets are numbered as they are pushed, those
    of other programs than the one that is on aside. */
module AudioQueue {
  import AudioBuffers

  const BUFFERS := AudioBuffers.BUFFERS

  // The player looks for work, waiting on the condition or not, or plays a packet.
  datatype Player = Looking(waits: bool) | Playing(packet: nat) | Exited

  // The producer may hold a packet for which there was no buffer, of this program.
  datatype Producer = Ready | Waiting(program: nat) | Woken(program: nat)

  datatype State = State(
    // Reading from a file, the producer waits for a buffer; live, it drops the packet.
    file: bool,
    program: nat,
    queue: seq<nat>,
    free: nat,
    player: Player,
    producer: Producer,
    done: bool,
    // The number of the next push, the program of each packet, and what became of it.
    next: nat,
    programs: seq<nat>,
    played: seq<nat>,
    lost: set<nat>)

  datatype Step =
    | Push(program: nat) // push_audio_buffer, from its start on
    | Retry            // push_audio_buffer, from the end of the wait on
    | Look             // audio_main, from the test of the queue on
    | Finish           // audio_main, the buffer played becomes free
    | ChangeProgram(program: nat)
    | Done(wakesPlayer: bool)
    | Spurious(player: bool)

  function Start(file: bool): State {
    State(file, 0, [], BUFFERS, Looking(false), Ready, false, 0, [], [], {})
  }

  predicate Enabled(s: State, step: Step) {
    match step
    case Push(_) => s.producer.Ready?
    case Retry => s.producer.Woken?
    case Look => s.player == Looking(false)
    case Finish => s.player.Playing?
    case ChangeProgram(_) => true
    case Done(_) => true
    case Spurious(p) => if p then s.player == Looking(true) else s.producer.Waiting?
  }

  function Woke(p: Producer): Producer { if p.Waiting? then Woken(p.program) else p }

  // One signal wakes one waiting thread: when both wait, either.
  function Signal(s: State, wakesPlayer: bool): State {
    if s.player == Looking(true) && (wakesPlayer || !s.producer.Waiting?) then s.(player := Looking(false))
    else s.(producer := Woke(s.producer))
  }

  // From the test of the free list on; the program is not tested again.
  function Offer(s: State, program: nat): State {
    if s.free > 0 then
      Signal(s.(queue := s.queue + [s.next], free := s.free - 1, producer := Ready,
                next := s.next + 1, programs := s.programs + [program]), true)
    else if s.file then s.(producer := Waiting(program))
    else s.(next := s.next + 1, programs := s.programs + [program], lost := s.lost + {s.next}, producer := Ready)
  }

  function After(s: State, step: Step): State
    requires Enabled(s, step)
  {
    match step
    case Push(program) => if program == s.program then Offer(s, program) else s
    case Retry => Offer(s, s.producer.program)
    case Look =>
      if |s.queue| > 0 then s.(player := Playing(s.queue[0]), queue := s.queue[1..])
      else if s.done then s.(player := Exited)
      else s.(player := Looking(true))
    case Finish =>
      Signal(s.(player := Looking(false), free := s.free + 1, played := s.played + [s.player.packet]), false)
    case ChangeProgram(program) =>
      s.(program := program, queue := [], free := s.free + |s.queue|, lost := s.lost + set p | p in s.queue)
    case Done(wakesPlayer) => Signal(s.(done := true), wakesPlayer)
    case Spurious(p) => if p then s.(player := Looking(false)) else s.(producer := Woke(s.producer))
  }

  // ---------- what every step keeps ----------

  function InFlight(s: State): seq<nat> { if s.player.Playing? then [s.player.packet] else [] }

  // What was played, is being played and is to be played.
  function Line(s: State): seq<nat> { s.played + InFlight(s) + s.queue }

  ghost predicate Increasing(ns: seq<nat>) { forall i, j :: 0 <= i < j < |ns| ==> ns[i] < ns[j] }

  // All packets before n are accounted for: each of them is in the line, in push
  // order and once, or lost.
  ghost predicate Placed(line: seq<nat>, lost: set<nat>, n: nat) {
    && Increasing(line)
    && (forall p :: p in line ==> p < n && p !in lost)
    && (forall p: nat :: p < n ==> p in line || p in lost)
    && (forall p :: p in lost ==> p < n)
  }

  // So are all buffers.
  ghost predicate Inv(s: State) {
    |s.queue| + s.free + |InFlight(s)| == BUFFERS && Placed(Line(s), s.lost, s.next) && |s.programs| == s.next
  }

  lemma StartInv(file: bool)
    ensures Inv(Start(file)) && InStep(Start(file))
  {
    assert Line(Start(file)) == [];
  }

  lemma Longer(line: seq<nat>, lost: set<nat>, n: nat)
    requires Placed(line, lost, n)
    ensures Placed(line + [n], lost, n + 1) && Placed(line, lost + {n}, n + 1)
  {
    var t := line + [n];
    assert t[|line|] == n;
    forall i, j | 0 <= i < j < |t| ensures t[i] < t[j] { assert line[i] in line; }
    forall p: nat | p < n + 1 ensures p in t || p in lost { assert p < n ==> p in line || p in lost; }
  }

  lemma OfferKeeps(s: State, program: nat)
    requires Inv(s)
    ensures Inv(Offer(s, program))
  {
    var t := Offer(s, program);
    Longer(Line(s), s.lost, s.next);
    if s.free > 0 {
      assert Line(t) == Line(s) + [s.next];
    } else {
      assert Line(t) == Line(s);
    }
  }

  // The first n of the line stay, the others are lost.
  lemma Cut(line: seq<nat>, n: nat, lost: set<nat>)
    requires Increasing(line) && n <= |line| && forall p :: p in line ==> p !in lost
    ensures Increasing(line[..n])
    ensures forall p :: p in line[..n] ==> p in line && p !in lost + set q | q in line[n..]
    ensures forall p :: p in line ==> p in line[..n] || p in line[n..]
  {
    forall p | p in line[..n] ensures p in line && p !in line[n..] {
      var i :| 0 <= i < n && line[i] == p;
      forall j | 0 <= j < |line| - n ensures line[n..][j] != p { assert line[i] < line[n + j]; }
    }
    forall p | p in line ensures p in line[..n] || p in line[n..] {
      var i :| 0 <= i < |line| && line[i] == p;
      if i < n { assert line[..n][i] == p; } else { assert line[n..][i - n] == p; }
    }
  }

  lemma ChangeKeeps(s: State, program: nat)
    requires Inv(s)
    ensures Inv(After(s, ChangeProgram(program)))
  {
    var n := |s.played| + |InFlight(s)|;
    assert Line(After(s, ChangeProgram(program))) == Line(s)[..n] && s.queue == Line(s)[n..];
    Cut(Line(s), n, s.lost);
  }

  /** Every step of every thread keeps the buffers and the order of the packets. */
  lemma StepKeeps(s: State, step: Step)
    requires Inv(s) && Enabled(s, step)
    ensures Inv(After(s, step))
  {
    var t := After(s, step);
    match step
    case Push(program) => OfferKeeps(s, program);
    case Retry => OfferKeeps(s, s.producer.program);
    case ChangeProgram(program) => ChangeKeeps(s, program);
    case Look => assert Line(t) == Line(s);
    case Finish => assert Line(t) == Line(s);
    case _ => assert Line(t) == Line(s);
  }

  // ---------- waiting ----------

  // A thread waits only while there is nothing for it.
  ghost predicate InStep(s: State) {
    && (s.producer.Waiting? ==> s.free == 0)
    && (!s.producer.Ready? ==> s.file)
    && (s.player == Looking(true) ==> s.queue == [] && !s.done)
    && (s.player == Exited ==> s.done)
  }

  // Both threads wait: nothing but chance or the end of the program wakes them.
  predicate Stuck(s: State) { s.producer.Waiting? && s.player == Looking(true) }

  /** In step, the threads never both wait, so one signal wakes the one that does; and
      while the producer waits, the player has a packet or is about to take one. */
  lemma NeverStuck(s: State)
    requires Inv(s) && InStep(s)
    ensures !Stuck(s)
    ensures forall w :: Signal(s, w) == s.(producer := Woke(s.producer), player :=
      if s.player == Looking(true) then Looking(false) else s.player)
    ensures s.producer.Waiting? ==> s.player.Playing? || |s.queue| == BUFFERS
  {
    assert |InFlight(s)| <= 1;
  }

  /** Every step but a change of program keeps the threads in step. */
  lemma StaysInStep(s: State, step: Step)
    requires Inv(s) && InStep(s) && Enabled(s, step) && !step.ChangeProgram?
    ensures InStep(After(s, step))
  {
    NeverStuck(s);
  }

  /** A waiting producer is woken, with a free buffer, by the player's next two
      steps, whatever they are. */
  lemma ProducerServed(s: State)
    requires Inv(s) && InStep(s) && s.producer.Waiting?
    ensures s.player.Playing? ==> var t := After(s, Finish); t.producer == Woken(s.producer.program) && t.free == 1
    ensures !s.player.Playing? && s.player != Exited ==>
      Enabled(s, Look) && After(s, Look).player.Playing? &&
      var t := After(After(s, Look), Finish); t.producer == Woken(s.producer.program) && t.free == 1
  {
    NeverStuck(s);
  }

  // ---------- runs ----------

  ghost predicate Possible(s: State, steps: seq<Step>)
    decreases |steps|
  {
    |steps| > 0 ==> Enabled(s, steps[0]) && Possible(After(s, steps[0]), steps[1..])
  }

  ghost function Run(s: State, steps: seq<Step>): State
    requires Possible(s, steps)
    decreases |steps|
  {
    if |steps| == 0 then s else Run(After(s, steps[0]), steps[1..])
  }

  /** Over every interleaving no buffer is lost, and no packet is played twice or out
      of order. */
  lemma {:induction false} RunKeeps(s: State, steps: seq<Step>)
    requires Inv(s) && Possible(s, steps)
    ensures Inv(Run(s, steps))
    decreases |steps|
  {
    if |steps| > 0 {
      StepKeeps(s, steps[0]);
      RunKeeps(After(s, steps[0]), steps[1..]);
    }
  }

  /** While the program is not changed, no run gets stuck. */
  lemma {:induction false} RunsInStep(s: State, steps: seq<Step>)
    requires Inv(s) && InStep(s) && Possible(s, steps)
    requires forall i :: 0 <= i < |steps| ==> !steps[i].ChangeProgram?
    ensures Inv(Run(s, steps)) && InStep(Run(s, steps)) && !Stuck(Run(s, steps))
    decreases |steps|
  {
    if |steps| > 0 {
      StepKeeps(s, steps[0]);
      StaysInStep(s, steps[0]);
      RunsInStep(After(s, steps[0]), steps[1..]);
    } else {
      NeverStuck(s);
    }
  }

  function Numbers(n: nat): seq<nat> { if n == 0 then [] else Numbers(n - 1) + [n - 1] }

  /** From a file, and on one program, every packet pushed is in the line: what has
      been played is the first packets, all of them and in order. */
  lemma {:induction false} FileRun(s: State, steps: seq<Step>)
    requires s.file && Line(s) == Numbers(s.next) && Possible(s, steps)
    requires forall i :: 0 <= i < |steps| ==> !steps[i].ChangeProgram?
    ensures var t := Run(s, steps);
      Line(t) == Numbers(t.next) && t.played <= Numbers(t.next) &&
      (t.queue == InFlight(t) == [] ==> t.played == Numbers(t.next))
    decreases |steps|
  {
    if |steps| > 0 {
      LineGrows(s, steps[0]);
      FileRun(After(s, steps[0]), steps[1..]);
    } else {
      assert s.played <= Line(s);
      assert s.queue == InFlight(s) == [] ==> Line(s) == s.played;
    }
  }

  lemma LineGrows(s: State, step: Step)
    requires s.file && Enabled(s, step) && !step.ChangeProgram?
    ensures var t := After(s, step);
      t.file && Line(t) == Line(s) + (if t.next > s.next then [s.next] else []) && s.next <= t.next <= s.next + 1
  {
    var t := After(s, step);
    if t.next > s.next {
      assert Line(t) == Line(s) + [s.next];
    } else {
      assert Line(t) == Line(s) + [];
    }
  }

  // ---------- a change of program ----------

  /** change_program does not signal. If the producer waits while the player is on its
      way to the queue, the player finds it empty, and both wait; otherwise they do
      not, at the player's next step. */
  lemma ChangeStrandsIff(s: State, program: nat)
    requires Inv(s) && InStep(s) && s.file && !s.done
    ensures var t := After(s, ChangeProgram(program));
      !Stuck(t) && match s.player
        case Looking(w) => !w ==> (Stuck(After(t, Look)) <==> s.producer.Waiting?)
        case Playing(_) => !Stuck(After(t, Finish)) && !After(t, Finish).producer.Waiting?
        case Exited => true
  {
    NeverStuck(s);
  }

  function Pushes(n: nat): seq<Step> { if n == 0 then [] else [Push(0)] + Pushes(n - 1) }

  // The producer pushes n packets before the player gets to look.
  function Fill(s: State, n: nat): State
    requires s.free >= n
  {
    s.(queue := s.queue + Filled(s.next, n), free := s.free - n, next := s.next + n,
       programs := s.programs + seq(n, _ => 0))
  }

  lemma FillStep(s: State, n: nat)
    requires s.player == Looking(false) && s.producer.Ready? && s.program == 0 && s.free >= n > 0
    ensures var u := After(s, Push(0));
      u.player == Looking(false) && u.producer.Ready? && u.program == 0 &&
      u.file == s.file && u.free >= n - 1 && Fill(u, n - 1) == Fill(s, n)
  {
    var u := After(s, Push(0));
    assert u.programs + seq(n - 1, _ => 0) == s.programs + seq(n, _ => 0);
    assert u.queue + Filled(u.next, n - 1) == s.queue + ([s.next] + Filled(s.next + 1, n - 1));
  }

  lemma {:induction false} PushesFill(s: State, n: nat, rest: seq<Step>)
    requires s.player == Looking(false) && s.producer.Ready? && s.program == 0
    requires s.free >= n && Possible(Fill(s, n), rest)
    ensures Possible(s, Pushes(n) + rest) && Run(s, Pushes(n) + rest) == Run(Fill(s, n), rest)
    decreases n
  {
    var all := Pushes(n) + rest;
    if n == 0 {
      assert s.queue + [] == s.queue && s.programs + seq(0, _ => 0) == s.programs;
      assert all == rest;
    } else {
      FillStep(s, n);
      PushesFill(After(s, Push(0)), n - 1, rest);
      assert all[1..] == Pushes(n - 1) + rest && all[0] == Push(0);
    }
  }

  function Filled(k: nat, n: nat): seq<nat>
    decreases n
  {
    if n == 0 then [] else [k] + Filled(k + 1, n - 1)
  }

  /** A run that gets stuck with every buffer free: the producer fills the queue and
      waits, the program is changed, and the player finds nothing to play. */
  lemma ChangeCanStrand()
    ensures var steps := Pushes(16) + [Push(0), ChangeProgram(1), Look];
      Possible(Start(true), steps) && Stuck(Run(Start(true), steps)) && Run(Start(true), steps).free == 16
  {
    var s, rest := Start(true), [Push(0), ChangeProgram(1), Look];
    var t := Fill(s, BUFFERS);
    var u := After(t, Push(0));
    var v := After(u, ChangeProgram(1));
    assert rest[1..] == [ChangeProgram(1), Look] && rest[1..][1..] == [Look] && [Look][1..] == [];
    FilledLength(0, BUFFERS);
    assert Possible(v, [Look]) && Possible(u, [ChangeProgram(1), Look]) && Possible(t, rest);
    PushesFill(s, BUFFERS, rest);
  }

  lemma {:induction false} FilledLength(k: nat, n: nat)
    ensures |Filled(k, n)| == n
    decreases n
  {
    if n > 0 { FilledLength(k + 1, n - 1); }
  }

  // ---------- packets of the old program ----------

  // The packets in the queue are of the program that is on.
  ghost predicate Current(s: State) { forall i :: 0 <= i < |s.queue| ==> ProgramOf(s, s.queue[i]) == s.program }

  function ProgramOf(s: State, p: nat): nat { if p < |s.programs| then s.programs[p] else s.program }

  // The producer holds a packet of another program.
  predicate HoldsOld(s: State) { !s.producer.Ready? && s.producer.program != s.program }

  // The run, without a change of program, queues a packet of another program.
  ghost predicate GoesStale(s: State, steps: seq<Step>) {
    && Possible(s, steps) && (forall i :: 0 <= i < |steps| ==> !steps[i].ChangeProgram?)
    && !Current(Run(s, steps))
  }

  lemma StepCurrent(s: State, step: Step)
    requires Inv(s) && Enabled(s, step) && !step.ChangeProgram?
    ensures After(s, step).program == s.program
    ensures !HoldsOld(s) ==> !HoldsOld(After(s, step))
    ensures !HoldsOld(s) && Current(s) ==> Current(After(s, step))
  {
    var t := After(s, step);
    if Current(s) && !HoldsOld(s) {
      forall i | 0 <= i < |t.queue| ensures ProgramOf(t, t.queue[i]) == t.program {
        QueueNumbers(s);
        if step.Look? && |s.queue| > 0 { assert t.queue[i] == s.queue[i + 1]; }
      }
    }
  }

  lemma QueueNumbers(s: State)
    requires Inv(s)
    ensures forall i :: 0 <= i < |s.queue| ==> s.queue[i] < s.next
  {
    forall i | 0 <= i < |s.queue| ensures s.queue[i] < s.next { assert s.queue[i] in Line(s); }
  }

  lemma {:induction false} RunCurrent(s: State, steps: seq<Step>)
    requires Inv(s) && Possible(s, steps) && forall i :: 0 <= i < |steps| ==> !steps[i].ChangeProgram?
    requires Current(s) && !HoldsOld(s)
    ensures Current(Run(s, steps))
    decreases |steps|
  {
    if |steps| > 0 {
      StepKeeps(s, steps[0]);
      StepCurrent(s, steps[0]);
      RunCurrent(After(s, steps[0]), steps[1..]);
    }
  }

  /** After a change of program, a packet of another program can still come into the
      queue exactly when the producer holds one, waiting or just woken: the test of
      the program comes before the wait. */
  lemma StaleIff(s: State, program: nat)
    requires Inv(s)
    ensures var t := After(s, ChangeProgram(program));
      Current(t) && ((exists steps :: GoesStale(t, steps)) <==> !s.producer.Ready? && s.producer.program != program)
  {
    var t := After(s, ChangeProgram(program));
    StepKeeps(s, ChangeProgram(program));
    if HoldsOld(t) {
      var steps := OldGoesIn(t);
    } else {
      forall steps | GoesStale(t, steps) ensures false { RunCurrent(t, steps); }
    }
  }

  lemma OneStep(s: State, step: Step)
    requires Enabled(s, step)
    ensures Possible(s, [step]) && Run(s, [step]) == After(s, step)
  {
    assert [step][1..] == [];
    assert Possible(After(s, step), []) && Run(After(s, step), []) == After(s, step);
  }

  // The producer wakes, by chance if not by the player, and queues what it holds.
  lemma OldGoesIn(s: State) returns (steps: seq<Step>)
    requires HoldsOld(s) && s.queue == [] && s.free > 0 && |s.programs| == s.next
    ensures GoesStale(s, steps)
  {
    var u := s.(producer := Woken(s.producer.program));
    OneStep(u, Retry);
    QueuesOld(u);
    if s.producer.Waiting? {
      steps := [Spurious(false), Retry];
      assert steps[1..] == [Retry] && After(s, steps[0]) == u;
    } else {
      steps := [Retry];
    }
  }

  lemma QueuesOld(s: State)
    requires s.producer.Woken? && HoldsOld(s) && s.queue == [] && s.free > 0 && |s.programs| == s.next
    ensures !Current(After(s, Retry))
  {
    var t := After(s, Retry);
    assert t.queue == [s.next] && ProgramOf(t, s.next) == s.producer.program;
    assert ProgramOf(t, t.queue[0]) != t.program;
  }

  // At most one packet in the queue, or with the producer, is of another program.
  ghost predicate OneOld(s: State) {
    && (HoldsOld(s) ==> Current(s))
    && forall i, j :: 0 <= i < j < |s.queue| ==>
         ProgramOf(s, s.queue[i]) == s.program || ProgramOf(s, s.queue[j]) == s.program
  }

  lemma OfferOneOld(s: State, program: nat)
    requires Inv(s) && OneOld(s) && (program != s.program ==> Current(s))
    requires s.producer.Ready? || s.producer == Woken(program)
    ensures OneOld(Offer(s, program))
  {
    var t := Offer(s, program);
    QueueNumbers(s);
    assert forall p: nat :: p < s.next ==> ProgramOf(t, p) == ProgramOf(s, p);
  }

  lemma LookOneOld(s: State)
    requires OneOld(s) && Enabled(s, Look)
    ensures OneOld(After(s, Look))
  {
    var t := After(s, Look);
    if |s.queue| > 0 {
      assert forall i :: 0 <= i < |t.queue| ==>
        t.queue[i] == s.queue[i + 1] && ProgramOf(t, t.queue[i]) == ProgramOf(s, s.queue[i + 1]);
    }
  }

  lemma StepOneOld(s: State, step: Step)
    requires Inv(s) && Enabled(s, step) && OneOld(s)
    ensures OneOld(After(s, step))
  {
    match step
    case Push(program) => OfferOneOld(s, s.program);
    case Retry => OfferOneOld(s, s.producer.program);
    case Look => LookOneOld(s);
    case _ => assert forall p :: ProgramOf(After(s, step), p) == ProgramOf(s, p) || After(s, step).queue == [];
  }

  /** Over any run, with changes of program, there is at most one such packet. */
  lemma {:induction false} RunOneOld(s: State, steps: seq<Step>)
    requires Inv(s) && OneOld(s) && Possible(s, steps)
    ensures OneOld(Run(s, steps))
    decreases |steps|
  {
    if |steps| > 0 {
      StepKeeps(s, steps[0]);
      StepOneOld(s, steps[0]);
      RunOneOld(After(s, steps[0]), steps[1..]);
    }
  }
}
