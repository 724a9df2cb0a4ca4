/** The audio buffers of src/main.c:117-194, 307-322 and 672-710: sixteen nodes, each
    in the list to be played, in the free list, or with the player. */
module AudioBuffers {

  const BUFFERS := 16

  type Samples = seq<bv16>

  class Node {
    var next: Node?
    var data: Samples

    constructor (next: Node?)
      ensures this.next == next
    {
      this.next := next;
      data := [];
    }
  }

  ghost predicate Distinct(ns: seq<Node>) { forall i, j :: 0 <= i < j < |ns| ==> ns[i] != ns[j] }

  ghost function At(ns: seq<Node>, i: nat): Node? { if i < |ns| then ns[i] else null }

  // The nodes ns follow each other from first on, up to a null link.
  ghost predicate Chained(first: Node?, ns: seq<Node>)
    reads ns`next
  {
    first == At(ns, 0) && forall i :: 0 <= i < |ns| ==> ns[i].next == At(ns, i + 1)
  }

  class Buffers {
    var head: Node?
    var tail: Node?
    var free: Node?
    // What is to be played, what is free, and what the player has.
    ghost var queue: seq<Node>
    ghost var spare: seq<Node>
    ghost var playing: seq<Node>

    ghost predicate Valid()
      reads this, queue`next, spare`next
    {
      && Chained(head, queue) && Chained(free, spare)
      && tail == (if |queue| == 0 then null else queue[|queue| - 1])
      && |playing| <= 1
      && Distinct(queue + spare + playing)
      && |queue| + |spare| + |playing| == BUFFERS
    }

    /** init_audio_buffers */
    constructor ()
      ensures Valid() && queue == playing == [] && fresh(spare)
    {
      head, tail, free := null, null, null;
      queue, spare, playing := [], [], [];
      new;
      var i := 0;
      while i < BUFFERS
        invariant 0 <= i <= BUFFERS && |spare| == i
        invariant head == tail == null && queue == playing == []
        invariant Chained(free, spare) && Distinct(spare) && fresh(spare)
      {
        var b := new Node(free);
        spare := [b] + spare;
        free := b;
        i := i + 1;
      }
      assert queue + spare + playing == spare;
    }

    /** push_audio_buffer for a program that is playing: blocked when nothing is free,
        or else the samples go into a free buffer at the end of the queue. */
    method Push(data: Samples) returns (blocked: bool)
      requires Valid()
      modifies this, queue`next, spare`next, spare`data
      ensures Valid() && playing == old(playing)
      ensures blocked <==> old(spare) == []
      ensures blocked ==> queue == old(queue) && spare == old(spare)
      ensures !blocked ==> queue == old(queue) + [old(spare)[0]] && spare == old(spare)[1..]
      ensures !blocked ==> queue[|queue| - 1].data == data && forall n :: n in old(queue) ==> n.data == old(n.data)
    {
      if free == null { return true; }
      var b := free;
      assert spare == [b] + spare[1..];
      Moved(b, queue, spare[1..], playing);
      ChainTail(b, spare);
      ghost var rest := spare[1..];
      free := b.next;
      b.data := data;
      Append(b, rest);
      spare := rest;
      blocked := false;
    }

    // b becomes the last of the queue.
    method Append(b: Node, ghost rest: seq<Node>)
      requires Chained(head, queue) && tail == (if |queue| == 0 then null else queue[|queue| - 1])
      requires Distinct(queue + [b]) && Chained(free, rest) && b !in rest && forall n :: n in queue ==> n !in rest
      modifies this`head, this`tail, this`queue, queue`next, b`next
      ensures Chained(head, queue) && queue == old(queue) + [b] && tail == b && Chained(free, rest)
    {
      ghost var was, all := queue, queue + [b];
      assert all[|was|] == b;
      forall i | 0 <= i < |was| ensures was[i] != b && (i < |was| - 1 ==> was[i] != was[|was| - 1]) {
        assert all[i] == was[i];
        assert i < |was| - 1 ==> all[i] != all[|was| - 1];
      }
      assert tail != null ==> tail in was;
      b.next := null;
      if tail != null { tail.next := b; } else { head := b; }
      tail := b;
      queue := all;
      forall i | 0 <= i < |all| ensures all[i].next == At(all, i + 1) {
        if i < |was| - 1 { assert was[i].next == At(was, i + 1); }
      }
    }

    /** audio_main, first critical section: the head of the queue goes to the player. */
    method Take() returns (b: Node?)
      requires Valid() && playing == []
      modifies this
      ensures Valid() && spare == old(spare)
      ensures b == null <==> old(queue) == []
      ensures b == null ==> queue == [] && playing == []
      ensures b != null ==> old(queue) == [b] + queue && playing == [b]
    {
      b := head;
      if b != null {
        ghost var was := queue;
        assert was == [b] + was[1..];
        head := b.next;
        if head == null { tail := null; }
        queue, playing := queue[1..], [b];
        Rotate(b, queue, spare);
      }
    }

    /** audio_main, second critical section: the player's buffer becomes free. */
    method Release(b: Node)
      requires Valid() && playing == [b]
      modifies this`free, this`spare, this`playing, b`next
      ensures Valid() && queue == old(queue) && spare == [b] + old(spare) && playing == []
    {
      Unrotate(b, queue, spare);
      b.next := free;
      free := b;
      spare, playing := [b] + spare, [];
    }

    // The end of the queue, last, is linked to the free list.
    method LinkEnd(last: Node)
      requires Valid() && |queue| > 0 && last == queue[|queue| - 1]
      modifies last`next
      ensures Chained(head, queue + spare)
    {
      Apart(queue, spare, playing);
      assert last in queue;
      last.next := free;
      forall i | 0 <= i < |spare| ensures spare[i].next == At(spare, i + 1) {
        assert spare[i] in spare;
      }
      ChainJoin(head, queue, free, spare);
    }

    method Splice(last: Node)
      requires Valid() && |queue| > 0 && last == queue[|queue| - 1]
      modifies this, last`next
      ensures Valid() && queue == [] && spare == old(queue) + old(spare) && playing == old(playing)
    {
      LinkEnd(last);
      free := head;
      head, tail := null, null;
      queue, spare := [], queue + spare;
      assert [] + spare + playing == spare + playing;
    }

    /** change_program: what is queued becomes free, unplayed. */
    method ChangeProgram()
      requires Valid()
      modifies this, queue`next
      ensures Valid() && queue == [] && spare == old(queue) + old(spare) && playing == old(playing)
    {
      if tail != null { Splice(tail); } else { assert queue + spare == spare; }
    }

    /** reset_audio_buffers does the same, but looks for the end of the queue. */
    method Reset()
      requires Valid()
      modifies this, queue`next
      ensures Valid() && queue == [] && spare == old(queue) + old(spare) && playing == old(playing)
    {
      var b := head;
      ghost var i := 0;
      while b != null && b.next != null
        invariant Valid() && queue == old(queue) && spare == old(spare) && playing == old(playing)
        invariant 0 <= i && (|queue| > 0 ==> i < |queue|) && b == At(queue, i)
        decreases |queue| - i
      {
        b := b.next;
        i := i + 1;
      }
      if b != null {
        assert i == |queue| - 1;
        Splice(b);
      } else {
        head, tail := null, null;
        assert queue + spare == spare;
      }
    }
  }

  lemma ChainTail(b: Node, ns: seq<Node>)
    requires Chained(b, ns)
    ensures Chained(b.next, ns[1..])
  {
  }

  // Two chains, the last of the first linked to the second.
  lemma ChainJoin(first: Node?, a: seq<Node>, second: Node?, b: seq<Node>)
    requires |a| > 0 && first == a[0] && a[|a| - 1].next == second && Chained(second, b)
    requires forall i :: 0 <= i < |a| - 1 ==> a[i].next == a[i + 1]
    ensures Chained(first, a + b)
  {
    var t := a + b;
    forall i | 0 <= i < |t| ensures t[i].next == At(t, i + 1) {
      if i >= |a| { assert b[i - |a|].next == At(b, i - |a| + 1); }
    }
  }

  // The first node of the free list moves to the end of the queue.
  lemma Moved(b: Node, queue: seq<Node>, rest: seq<Node>, playing: seq<Node>)
    requires Distinct(queue + ([b] + rest) + playing)
    ensures Distinct((queue + [b]) + rest + playing) && Distinct(queue + [b])
    ensures b !in rest && b !in queue && forall n :: n in queue ==> n !in rest
  {
    var t := queue + ([b] + rest) + playing;
    assert t == (queue + [b]) + rest + playing;
    forall i, j | 0 <= i < j < |queue + [b]| ensures (queue + [b])[i] != (queue + [b])[j] {
      assert (queue + [b])[i] == t[i] && (queue + [b])[j] == t[j];
    }
    Apart(queue + [b], rest, playing);
    assert (queue + [b])[|queue|] == b;
    forall i | 0 <= i < |queue| ensures queue[i] != b { assert t[i] == queue[i] && t[|queue|] == b; }
  }

  // Queue and free list share no node.
  lemma Apart(queue: seq<Node>, spare: seq<Node>, playing: seq<Node>)
    requires Distinct(queue + spare + playing)
    ensures forall n :: n in queue ==> n !in spare
    ensures Distinct(queue)
  {
    var t := queue + spare + playing;
    forall i, j | 0 <= i < |queue| && 0 <= j < |spare| ensures queue[i] != spare[j] {
      assert t[i] == queue[i] && t[|queue| + j] == spare[j];
    }
    forall i, j | 0 <= i < j < |queue| ensures queue[i] != queue[j] { assert t[i] == queue[i] && t[j] == queue[j]; }
  }

  lemma Rotate(b: Node, rest: seq<Node>, spare: seq<Node>)
    requires Distinct([b] + rest + spare + [])
    ensures Distinct(rest + spare + [b])
  {
    var t := [b] + rest + spare + [];
    forall i, j | 0 <= i < j < |rest + spare + [b]| ensures (rest + spare + [b])[i] != (rest + spare + [b])[j] {
      assert (rest + spare + [b])[i] == t[i + 1];
      assert (rest + spare + [b])[j] == if j < |rest| + |spare| then t[j + 1] else t[0];
    }
  }

  lemma Unrotate(b: Node, queue: seq<Node>, spare: seq<Node>)
    requires Distinct(queue + spare + [b])
    ensures Distinct(queue + ([b] + spare) + []) && b !in queue && b !in spare
  {
    var t, u := queue + spare + [b], queue + ([b] + spare) + [];
    forall i, j | 0 <= i < j < |u| ensures u[i] != u[j] {
      assert u[i] == t[if i < |queue| then i else if i == |queue| then |t| - 1 else i - 1];
      assert u[j] == t[if j < |queue| then j else if j == |queue| then |t| - 1 else j - 1];
    }
    assert t[|t| - 1] == b;
    forall n | n in queue ensures n != b { var k :| 0 <= k < |queue| && queue[k] == n; assert t[k] == n; }
    forall n | n in spare ensures n != b { var k :| 0 <= k < |spare| && spare[k] == n; assert t[|queue| + k] == n; }
  }
}
