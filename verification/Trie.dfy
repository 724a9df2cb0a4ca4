/** The generator of the Huffman tables (support/hdc2aac/gen_hcb_trees.py:80-216):
    a trie of codewords, flattened into the table module Huffman walks. */
module Trie {
  import opened Basics
  import opened Arith
  import opened Bits
  import opened Huffman

  datatype Payload = Payload(nsign: nat, nesc: nat)

  // A node without leaf and children is empty; children may be missing.
  datatype Trie = Empty | End(payload: Payload) | Branch(zero: Trie, one: Trie)

  datatype Error = PrefixedByShorter | PrefixOfLonger | InconsistentDuplicate | TooLong

  // The new trie, and whether the codeword was new.
  datatype Inserted = Inserted(trie: Trie, isNew: bool) | Refused(error: Error)

  function Insert(t: Trie, path: seq<bool>, v: Payload): Inserted
    decreases |path|, t
  {
    if |path| == 0 then
      match t
      case Empty => Inserted(End(v), true)
      case End(u) => if u == v then Inserted(t, false) else Refused(InconsistentDuplicate)
      case Branch(_, _) => Refused(PrefixOfLonger)
    else if t.End? then Refused(PrefixedByShorter)
    else
      var zero, one := if t.Empty? then Empty else t.zero, if t.Empty? then Empty else t.one;
      match Insert(if path[0] then one else zero, path[1..], v)
      case Refused(e) => Refused(e)
      case Inserted(child, isNew) => Inserted(if path[0] then Branch(zero, child) else Branch(child, one), isNew)
  }

  // The payload of a codeword.
  function Lookup(t: Trie, w: seq<bool>): Option<Payload>
    decreases |w|
  {
    if |w| == 0 then (if t.End? then Some(t.payload) else None)
    else if t.Branch? then Lookup(if w[0] then t.one else t.zero, w[1..])
    else None
  }

  ghost predicate IsWord(t: Trie, w: seq<bool>) { Lookup(t, w).Some? }

  // a is a proper or improper prefix of b.
  ghost predicate Prefix(a: seq<bool>, b: seq<bool>) { |a| <= |b| && b[..|a|] == a }

  // No codeword is a prefix of another, in any trie.
  lemma {:induction false} PrefixFree(t: Trie, a: seq<bool>, b: seq<bool>)
    requires IsWord(t, a) && IsWord(t, b) && Prefix(a, b)
    ensures a == b
    decreases |a|
  {
    if |a| > 0 {
      assert b[0] == b[..|a|][0] == a[0];
      assert b[1..][..|a| - 1] == b[..|a|][1..] == a[1..];
      PrefixFree(if a[0] then t.one else t.zero, a[1..], b[1..]);
      assert a == [a[0]] + a[1..] && b == [b[0]] + b[1..];
    }
  }

  // No branch without a codeword below it, as insertion keeps it.
  predicate Grown(t: Trie) {
    t.Branch? ==> Grown(t.zero) && Grown(t.one) && !(t.zero.Empty? && t.one.Empty?)
  }

  // An insertion adds the codeword and changes no other.
  lemma {:induction false} InsertAdds(t: Trie, path: seq<bool>, v: Payload, w: seq<bool>)
    requires Grown(t) && Insert(t, path, v).Inserted?
    ensures var r := Insert(t, path, v);
      && Grown(r.trie) && !r.trie.Empty?
      && Lookup(r.trie, w) == (if w == path then Some(v) else Lookup(t, w))
      && r.isNew == !IsWord(t, path)
    decreases |path|
  {
    if |path| > 0 {
      var child := if t.Empty? then Empty else if path[0] then t.one else t.zero;
      InsertAdds(child, path[1..], v, if |w| > 0 then w[1..] else []);
      if |w| > 0 && w[0] == path[0] {
        assert w == [w[0]] + w[1..] && path == [path[0]] + path[1..];
      }
    }
  }

  // Some codeword of a grown trie that is not empty.
  function AnyWord(t: Trie): (w: seq<bool>)
    requires Grown(t) && !t.Empty?
    ensures IsWord(t, w)
  {
    if t.End? then []
    else if !t.zero.Empty? then
      var w := AnyWord(t.zero);
      assert ([false] + w)[1..] == w;
      [false] + w
    else
      var w := AnyWord(t.one);
      assert ([true] + w)[1..] == w;
      [true] + w
  }

  // What the inserted codeword must not conflict with.
  ghost predicate Conflicts(t: Trie, path: seq<bool>, v: Payload) {
    || (exists w :: IsWord(t, w) && w != path && (Prefix(w, path) || Prefix(path, w)))
    || (IsWord(t, path) && Lookup(t, path) != Some(v))
  }

  /** Insertion is refused exactly when the codeword would break prefix-freeness
      or contradict a payload. */
  lemma {:induction false} InsertRefuses(t: Trie, path: seq<bool>, v: Payload)
    requires Grown(t)
    ensures Insert(t, path, v).Refused? <==> Conflicts(t, path, v)
    decreases |path|
  {
    if |path| == 0 {
      if t.Branch? {
        var w := AnyWord(t);
        assert IsWord(t, w) && Prefix(path, w) && w != path;
      } else {
        forall w | IsWord(t, w) ensures w == [] {}
      }
    } else if t.End? {
      assert IsWord(t, []) && Prefix([], path);
    } else {
      var child := if t.Empty? then Empty else if path[0] then t.one else t.zero;
      InsertRefuses(child, path[1..], v);
      ConflictBelow(t, path, v, child);
    }
  }

  // Conflicts of a path are those of its tail in the child it leads to.
  lemma ConflictBelow(t: Trie, path: seq<bool>, v: Payload, child: Trie)
    requires !t.End? && |path| > 0
    requires child == if t.Empty? then Empty else if path[0] then t.one else t.zero
    ensures Conflicts(t, path, v) <==> Conflicts(child, path[1..], v)
  {
    assert path == [path[0]] + path[1..];
    if w :| IsWord(t, w) && w != path && (Prefix(w, path) || Prefix(path, w)) {
      assert |w| > 0 && w[0] == path[0] by {
        if Prefix(w, path) { assert path[..|w|][0] == w[0]; } else { assert w[..|path|][0] == path[0]; }
      }
      Tails(w, path);
      assert w == [w[0]] + w[1..];
      assert IsWord(child, w[1..]) && w[1..] != path[1..];
    }
    if w :| IsWord(child, w) && w != path[1..] && (Prefix(w, path[1..]) || Prefix(path[1..], w)) {
      var u := [path[0]] + w;
      assert u[1..] == w;
      Tails(u, path);
      assert IsWord(t, u) && u != path;
    }
  }

  lemma Tails(a: seq<bool>, b: seq<bool>)
    requires |a| > 0 && |b| > 0 && a[0] == b[0]
    ensures Prefix(a, b) <==> Prefix(a[1..], b[1..])
    ensures Prefix(b, a) <==> Prefix(b[1..], a[1..])
  {
    if |a| <= |b| {
      assert b[..|a|] == [b[0]] + b[1..][..|a| - 1];
      assert a == [a[0]] + a[1..];
    }
    if |b| <= |a| {
      assert a[..|b|] == [a[0]] + a[1..][..|b| - 1];
      assert b == [b[0]] + b[1..];
    }
  }

  // ---------- flattening ----------

  // The table holds t from index i on: children lie behind their parents, and a
  // missing child is -1.
  ghost predicate At(nodes: seq<Node>, i: nat, t: Trie)
    decreases t, 0
  {
    match t
    case Empty => false
    case End(v) => i < |nodes| && nodes[i] == Leaf(v.nsign, v.nesc)
    case Branch(zero, one) =>
      && i < |nodes| && nodes[i].Inner?
      && ChildAt(nodes, i, nodes[i].a, zero) && ChildAt(nodes, i, nodes[i].b, one)
  }

  ghost predicate ChildAt(nodes: seq<Node>, i: nat, c: int, t: Trie)
    decreases t, 1
  {
    if t.Empty? then c == -1 else i < c < |nodes| && At(nodes, c, t)
  }

  // Only entries from i on matter.
  lemma {:induction false} AtStable(nodes: seq<Node>, more: seq<Node>, i: nat, t: Trie)
    requires At(nodes, i, t) && |nodes| <= |more| && forall j :: i <= j < |nodes| ==> more[j] == nodes[j]
    ensures At(more, i, t)
    decreases t
  {
    if t.Branch? {
      if !t.zero.Empty? { AtStable(nodes, more, nodes[i].a, t.zero); }
      if !t.one.Empty? { AtStable(nodes, more, nodes[i].b, t.one); }
    }
  }

  class Flattener {
    var nodes: seq<Node>

    constructor ()
      ensures nodes == []
    {
      nodes := [];
    }

    // visit: reserve a slot, flatten the children behind it, fill it in.
    method Visit(t: Trie) returns (idx: nat)
      requires !t.Empty?
      modifies this
      ensures idx == |old(nodes)| < |nodes| && old(nodes) <= nodes && At(nodes, idx, t)
      ensures WellFormedFrom(nodes, idx)
      decreases t
    {
      idx := |nodes|;
      nodes := nodes + [Leaf(0, 0)];
      ghost var start := nodes;
      match t
      case End(v) =>
        nodes := nodes[idx := Leaf(v.nsign, v.nesc)];
      case Branch(zero, one) =>
        var a: int, b: int := -1, -1;
        if !zero.Empty? {
          a := Visit(zero);
        }
        ghost var mid := nodes;
        if !one.Empty? {
          b := Visit(one);
        }
        ghost var before := nodes;
        nodes := nodes[idx := Inner(a, b)];
        if !zero.Empty? { AtStable(mid, nodes, a, zero); }
        if !one.Empty? { AtStable(before, nodes, b, one); }
        WellFormedAgain(before, idx, a, b);
    }
  }

  // The slot that was reserved gets its children, which lie behind it.
  lemma WellFormedAgain(nodes: seq<Node>, idx: nat, a: int, b: int)
    requires idx < |nodes| && WellFormedFrom(nodes, idx + 1)
    requires (a == -1 || idx < a < |nodes|) && (b == -1 || idx < b < |nodes|)
    ensures WellFormedFrom(nodes[idx := Inner(a, b)], idx)
  {
  }

  // Every entry from i on has its children in the table, and behind itself.
  ghost predicate WellFormedFrom(nodes: seq<Node>, i: nat) {
    forall j :: i <= j < |nodes| && nodes[j].Inner? ==>
      (nodes[j].a == -1 || j < nodes[j].a < |nodes|) && (nodes[j].b == -1 || j < nodes[j].b < |nodes|)
  }

  // flatten
  method Flatten(t: Trie) returns (nodes: seq<Node>)
    requires !t.Empty?
    ensures At(nodes, 0, t) && WellFormed(nodes) && WellFormedFrom(nodes, 0)
  {
    var f := new Flattener();
    var root := f.Visit(t);
    nodes := f.nodes;
  }

  // ---------- walking ----------

  function Depth(t: Trie): nat {
    match t
    case Empty => 0
    case End(_) => 0
    case Branch(zero, one) => 1 + if Depth(zero) > Depth(one) then Depth(zero) else Depth(one)
  }

  /** Wherever a codeword stands in a bit string, walking the flattened table
      consumes exactly the codeword and ends at its payload. */
  lemma {:induction false} WalkDecodes(nodes: seq<Node>, i: nat, t: Trie, w: seq<bool>, guard: nat, s: seq<bool>, p: nat)
    requires WellFormed(nodes) && At(nodes, i, t) && IsWord(t, w) && guard + |w| <= GUARD && Holds(s, p, w)
    ensures var r := Walk(nodes, i, guard, s, p);
      var v := Lookup(t, w).value;
      r.Read? && r.n == |w| && r.value < |nodes| && nodes[r.value] == Leaf(v.nsign, v.nesc)
    decreases |w|
  {
    if |w| > 0 {
      assert [w[0]] + w[1..] == w;
      HoldsSplit(s, p, [w[0]], w[1..]);
      assert s[p] == s[p..p + 1][0];
      var child := if w[0] then t.one else t.zero;
      assert IsWord(child, w[1..]);
      WalkDecodes(nodes, if w[0] then nodes[i].b else nodes[i].a, child, w[1..], guard + 1, s, p + 1);
    }
  }

  // No child is missing.
  predicate Complete(t: Trie) {
    match t
    case Empty => false
    case End(_) => true
    case Branch(zero, one) => Complete(zero) && Complete(one)
  }

  // The codeword that a complete trie reads from any bits.
  function Next(t: Trie, s: seq<bool>, p: nat): (w: seq<bool>)
    requires Complete(t)
    ensures IsWord(t, w) && |w| <= Depth(t) && w == Cut(s, p, |w|)
  {
    if t.End? then []
    else
      var w := Next(if Bit(s, p) then t.one else t.zero, s, p + 1);
      CutFirst(s, p, |w|);
      assert ([Bit(s, p)] + w)[1..] == w;
      [Bit(s, p)] + w
  }

  lemma {:induction false} CutFirst(s: seq<bool>, p: nat, n: nat)
    ensures Cut(s, p, n + 1) == [Bit(s, p)] + Cut(s, p + 1, n)
    decreases n
  {
    if n > 0 {
      CutFirst(s, p, n - 1);
      assert Cut(s, p, n + 1) == Cut(s, p, n) + [Bit(s, p + n)];
    } else {
      assert Cut(s, p, 1) == Cut(s, p, 0) + [Bit(s, p)];
    }
  }

  /** Walking the table of a complete code never fails, on any bits, if no
      codeword is longer than the guard allows. */
  lemma {:induction false} WalkNeverFails(nodes: seq<Node>, i: nat, t: Trie, guard: nat, s: seq<bool>, p: nat)
    requires WellFormed(nodes) && At(nodes, i, t) && Complete(t) && guard + Depth(t) <= GUARD
    ensures var r := Walk(nodes, i, guard, s, p); r.Read? && r.n == |Next(t, s, p)|
    decreases t
  {
    if t.Branch? {
      WalkNeverFails(nodes, if Bit(s, p) then nodes[i].b else nodes[i].a, if Bit(s, p) then t.one else t.zero, guard + 1, s, p + 1);
    }
  }

  // ---------- the Kraft check ----------

  // The longest codeword build accepts, and 2^-32 as the unit of its sum.
  const LONGEST := 32

  // The sum of 2^(h - length) over the codewords.
  function Kraft(t: Trie, h: nat): nat
    requires Depth(t) <= h
  {
    match t
    case Empty => 0
    case End(_) => Pow2(h)
    case Branch(zero, one) => Kraft(zero, h - 1) + Kraft(one, h - 1)
  }

  // The sum reaches 2^h exactly for complete tries, and otherwise falls short of
  // it by a multiple of 2^(h - depth).
  lemma {:induction false} KraftBound(t: Trie, h: nat)
    requires Depth(t) <= h
    ensures Kraft(t, h) <= Pow2(h)
    ensures Complete(t) <==> Kraft(t, h) == Pow2(h)
    ensures !Complete(t) && !t.Empty? ==> Kraft(t, h) + Pow2(h - Depth(t)) <= Pow2(h)
    decreases t
  {
    if t.Branch? {
      KraftBound(t.zero, h - 1);
      KraftBound(t.one, h - 1);
      PowMono(h - Depth(t), h - 1 - Depth(t.zero));
      PowMono(h - Depth(t), h - 1 - Depth(t.one));
      PowMono(h - Depth(t), h - 1);
    }
  }

  // An insertion of a new codeword adds its term to the sum.
  lemma {:induction false} InsertKraft(t: Trie, path: seq<bool>, v: Payload, h: nat)
    requires Grown(t) && Insert(t, path, v).Inserted? && Depth(t) <= h && |path| <= h
    ensures var r := Insert(t, path, v);
      Depth(r.trie) <= h && Kraft(r.trie, h) == Kraft(t, h) + if r.isNew then Pow2(h - |path|) else 0
    decreases |path|
  {
    if |path| > 0 {
      InsertKraft(if t.Empty? then Empty else if path[0] then t.one else t.zero, path[1..], v, h - 1);
    }
  }

  // abs(kraft - 1.0) > 1e-9 raises; in units of 2^-32, and exactly.
  predicate KraftAccepted(k: int) {
    1_000_000_000 * (if k >= Pow2(LONGEST) then k - Pow2(LONGEST) else Pow2(LONGEST) - k) <= Pow2(LONGEST)
  }

  lemma PowLongest()
    ensures Pow2(29) == 0x2000_0000 && Pow2(32) == 0x1_0000_0000 && Pow2(3) == 8
  {
    assert Pow2(8) == 256;
    Pow2Add(8, 8);
    Pow2Add(16, 8);
    Pow2Add(24, 5);
    Pow2Add(29, 3);
    assert Pow2(5) == 32;
  }

  /** What the tolerance lets through: codes that lack four words of 32 bits, or room
      for as much. */
  lemma KraftAcceptedIff(t: Trie)
    requires Depth(t) <= LONGEST
    ensures KraftAccepted(Kraft(t, LONGEST)) <==> Pow2(LONGEST) - Kraft(t, LONGEST) <= 4
  {
    PowLongest();
    KraftBound(t, LONGEST);
  }

  /** With codewords of at most 29 bits, as in all twelve AAC books, the check
      passes exactly for complete codes. */
  lemma KraftCheckExact(t: Trie)
    requires Depth(t) <= 29
    ensures KraftAccepted(Kraft(t, LONGEST)) <==> Complete(t)
  {
    PowLongest();
    KraftBound(t, LONGEST);
    PowMono(3, LONGEST - Depth(t));
  }

  // The words 0, 10, 110, ... without the last, all ones.
  function Comb(n: nat): Trie {
    if n == 0 then Empty else Branch(End(Payload(0, 0)), Comb(n - 1))
  }

  lemma {:induction false} CombKraft(n: nat, h: nat)
    requires 0 < n <= h
    ensures Depth(Comb(n)) == n && Kraft(Comb(n), h) == Pow2(h) - Pow2(h - n) && !Complete(Comb(n)) && Grown(Comb(n))
    decreases n
  {
    if n > 1 {
      CombKraft(n - 1, h - 1);
    } else {
      assert Comb(0) == Empty;
    }
  }

  // A single missing codeword of 30 bits or more is within the tolerance.
  lemma CombAccepted(n: nat)
    requires 30 <= n <= LONGEST
    ensures var t := Comb(n); Depth(t) == n && Grown(t) && KraftAccepted(Kraft(t, LONGEST)) && !Complete(t)
  {
    PowLongest();
    CombKraft(n, LONGEST);
    assert Pow2(0) == 1 && Pow2(1) == 2 && Pow2(2) == 4;
  }

  // ---------- build ----------

  // The trie holds exactly the codewords listed.
  ghost predicate Lists(t: Trie, leaves: seq<(seq<bool>, Payload)>) {
    forall w: seq<bool> :: Lookup(t, w) == Listed(leaves, w)
  }

  // The payload listed for w.
  function Listed(leaves: seq<(seq<bool>, Payload)>, w: seq<bool>): Option<Payload> {
    if |leaves| == 0 then None
    else if leaves[0].0 == w then Some(leaves[0].1)
    else Listed(leaves[1..], w)
  }

  // All insertions in turn; a codeword may be too long for the table's guard.
  function InsertAll(t: Trie, leaves: seq<(seq<bool>, Payload)>): Inserted
    decreases |leaves|, t
  {
    if |leaves| == 0 then Inserted(t, false)
    else if |leaves[0].0| > LONGEST then Refused(TooLong)
    else
      match Insert(t, leaves[0].0, leaves[0].1)
      case Refused(e) => Refused(e)
      case Inserted(u, _) => InsertAll(u, leaves[1..])
  }

  // Whatever the order, the trie ends up with what was in it and what is listed.
  lemma {:induction false} InsertAllLists(t: Trie, leaves: seq<(seq<bool>, Payload)>, w: seq<bool>)
    requires Grown(t) && Depth(t) <= LONGEST && InsertAll(t, leaves).Inserted?
    ensures var u := InsertAll(t, leaves).trie;
      && Grown(u) && Depth(u) <= LONGEST
      && Lookup(u, w) == if IsWord(t, w) then Lookup(t, w) else Listed(leaves, w)
    decreases |leaves|
  {
    if |leaves| > 0 {
      var path, v := leaves[0].0, leaves[0].1;
      InsertAdds(t, path, v, w);
      InsertRefuses(t, path, v);
      InsertKraft(t, path, v, LONGEST);
      InsertAllLists(Insert(t, path, v).trie, leaves[1..], w);
    }
  }

  /** The insertions of build: refused when a codeword is too long or two conflict. */
  method InsertLeaves(leaves: seq<(seq<bool>, Payload)>) returns (ok: bool, trie: Trie, kraft: int)
    ensures var r := InsertAll(Empty, leaves);
      && (ok <==> r.Inserted? && Depth(r.trie) <= LONGEST)
      && (ok ==> trie == r.trie && Grown(trie) && kraft == Kraft(trie, LONGEST))
  {
    var i := 0;
    trie, kraft := Empty, 0;
    assert leaves[0..] == leaves;
    while i < |leaves|
      invariant 0 <= i <= |leaves| && Grown(trie) && Depth(trie) <= LONGEST && kraft == Kraft(trie, LONGEST)
      invariant InsertAll(Empty, leaves) == InsertAll(trie, leaves[i..])
    {
      var path, v := leaves[i].0, leaves[i].1;
      assert leaves[i..][0] == leaves[i] && leaves[i..][1..] == leaves[i + 1..];
      if |path| > LONGEST {
        return false, trie, kraft;
      }
      var r := Insert(trie, path, v);
      if r.Refused? {
        return false, trie, kraft;
      }
      InsertKraft(trie, path, v, LONGEST);
      InsertAdds(trie, path, v, path);
      if r.isNew {
        kraft := kraft + Pow2(LONGEST - |path|);
      }
      trie := r.trie;
      i := i + 1;
    }
    ok := true;
  }

  /** build: a table for the listed codewords, in whatever order they come, unless
      one is too long, two conflict, or the Kraft check fails. */
  method Build(leaves: seq<(seq<bool>, Payload)>) returns (ok: bool, nodes: seq<Node>)
    ensures var r := InsertAll(Empty, leaves);
      && (ok <==> r.Inserted? && Depth(r.trie) <= LONGEST && KraftAccepted(Kraft(r.trie, LONGEST)))
      && (ok ==> At(nodes, 0, r.trie) && WellFormed(nodes) && WellFormedFrom(nodes, 0))
  {
    nodes := [];
    var trie, kraft;
    ok, trie, kraft := InsertLeaves(leaves);
    if !ok || !KraftAccepted(kraft) {
      return false, nodes;
    }
    PowLongest();
    assert !trie.Empty?;
    nodes := Flatten(trie);
  }

  lemma BuiltLists(leaves: seq<(seq<bool>, Payload)>)
    requires InsertAll(Empty, leaves).Inserted?
    ensures Lists(InsertAll(Empty, leaves).trie, leaves)
  {
    forall w: seq<bool> ensures Lookup(InsertAll(Empty, leaves).trie, w) == Listed(leaves, w) {
      InsertAllLists(Empty, leaves, w);
    }
  }

  // ---------- when the Kraft check is exact ----------

  // All codewords listed have at most n bits.
  ghost predicate Within(leaves: seq<(seq<bool>, Payload)>, n: nat) {
    forall k :: 0 <= k < |leaves| ==> |leaves[k].0| <= n
  }

  lemma {:induction false} InsertAllDepth(t: Trie, leaves: seq<(seq<bool>, Payload)>, n: nat)
    requires Grown(t) && Depth(t) <= n && Within(leaves, n) && InsertAll(t, leaves).Inserted?
    ensures Depth(InsertAll(t, leaves).trie) <= n
    decreases |leaves|
  {
    if |leaves| > 0 {
      assert |leaves[0].0| <= n;
      InsertAdds(t, leaves[0].0, leaves[0].1, leaves[0].0);
      InsertKraft(t, leaves[0].0, leaves[0].1, n);
      assert forall k :: 0 <= k < |leaves[1..]| ==> leaves[1..][k] == leaves[k + 1];
      InsertAllDepth(Insert(t, leaves[0].0, leaves[0].1).trie, leaves[1..], n);
    }
  }

  // The same leaves one bit deeper, on the side of the ones.
  function Deeper(leaves: seq<(seq<bool>, Payload)>): seq<(seq<bool>, Payload)> {
    if |leaves| == 0 then [] else [([true] + leaves[0].0, leaves[0].1)] + Deeper(leaves[1..])
  }

  lemma {:induction false} DeeperInserts(zero: Trie, t: Trie, leaves: seq<(seq<bool>, Payload)>, n: nat)
    requires n < LONGEST && Within(leaves, n) && InsertAll(t, leaves).Inserted?
    ensures Within(Deeper(leaves), n + 1)
    ensures InsertAll(Branch(zero, t), Deeper(leaves)) == Inserted(Branch(zero, InsertAll(t, leaves).trie), false)
    decreases |leaves|
  {
    if |leaves| > 0 {
      var path, v := leaves[0].0, leaves[0].1;
      var all := Deeper(leaves);
      assert |path| <= n;
      assert all[0] == ([true] + path, v) && all[1..] == Deeper(leaves[1..]);
      assert ([true] + path)[1..] == path;
      assert forall k :: 0 <= k < |leaves[1..]| ==> leaves[1..][k] == leaves[k + 1];
      DeeperInserts(zero, Insert(t, path, v).trie, leaves[1..], n);
      assert forall k :: 0 < k < |all| ==> all[k] == all[1..][k - 1];
    }
  }

  // What build is given for the code 0, 10, 110, ... of n words.
  function CombLeaves(n: nat): seq<(seq<bool>, Payload)> {
    if n == 0 then [] else [([false], Payload(0, 0))] + Deeper(CombLeaves(n - 1))
  }

  lemma {:induction false} CombIsListed(n: nat)
    requires n <= LONGEST
    ensures Within(CombLeaves(n), n) && InsertAll(Empty, CombLeaves(n)) == Inserted(Comb(n), false)
  {
    if n > 0 {
      var all, v := CombLeaves(n), Payload(0, 0);
      CombIsListed(n - 1);
      assert all[0] == ([false], v) && all[1..] == Deeper(CombLeaves(n - 1));
      assert [false][1..] == [];
      assert Insert(Empty, [false], v).trie == Branch(End(v), Empty);
      DeeperInserts(End(v), Empty, CombLeaves(n - 1), n - 1);
      assert forall k :: 0 < k < |all| ==> all[k] == all[1..][k - 1];
    }
  }

  /** Lists that build takes although their code is incomplete: n words, the longest
      of 30, 31 or 32 bits, and the one of n ones is missing. */
  lemma KraftCheckMisses(n: nat)
    requires 30 <= n <= LONGEST
    ensures var r := InsertAll(Empty, CombLeaves(n));
      && Within(CombLeaves(n), n) && r.Inserted? && Depth(r.trie) == n
      && KraftAccepted(Kraft(r.trie, LONGEST)) && !Complete(r.trie)
  {
    CombIsListed(n);
    CombAccepted(n);
  }

  // Among lists of at most n bits build takes exactly the complete codes.
  ghost predicate ExactUpTo(n: nat)
    requires n <= LONGEST
  {
    forall leaves :: Within(leaves, n) && InsertAll(Empty, leaves).Inserted? ==> ExactFor(leaves)
  }

  ghost predicate ExactFor(leaves: seq<(seq<bool>, Payload)>)
    requires InsertAll(Empty, leaves).Inserted?
  {
    var t := InsertAll(Empty, leaves).trie;
    Depth(t) <= LONGEST && (KraftAccepted(Kraft(t, LONGEST)) <==> Complete(t))
  }

  /** The Kraft check is exact for lists of at most n bits if and only if n <= 29. */
  lemma KraftExactIff(n: nat)
    requires n <= LONGEST
    ensures ExactUpTo(n) <==> n <= 29
  {
    if n <= 29 {
      forall leaves | Within(leaves, n) && InsertAll(Empty, leaves).Inserted? ensures ExactFor(leaves) {
        InsertAllDepth(Empty, leaves, n);
        KraftCheckExact(InsertAll(Empty, leaves).trie);
      }
    } else {
      KraftCheckMisses(n);
      assert !ExactFor(CombLeaves(n));
    }
  }

  // Bits that lead to where a child is missing.
  function DeadEnd(t: Trie): seq<bool>
    requires !t.Empty? && !Complete(t)
  {
    if t.zero.Empty? then [false]
    else if t.one.Empty? then [true]
    else if !Complete(t.zero) then [false] + DeadEnd(t.zero)
    else [true] + DeadEnd(t.one)
  }

  lemma {:induction false} DeadEndFails(nodes: seq<Node>, i: nat, t: Trie, guard: nat, s: seq<bool>, p: nat)
    requires WellFormed(nodes) && At(nodes, i, t) && !t.Empty? && !Complete(t) && guard + Depth(t) <= GUARD
    requires Holds(s, p, DeadEnd(t))
    ensures Walk(nodes, i, guard, s, p).Fail?
    decreases t
  {
    var w := DeadEnd(t);
    assert w == [w[0]] + w[1..];
    HoldsSplit(s, p, [w[0]], w[1..]);
    assert s[p] == s[p..p + 1][0];
    if !t.zero.Empty? && !t.one.Empty? {
      DeadEndFails(nodes, if w[0] then nodes[i].b else nodes[i].a, if w[0] then t.one else t.zero, guard + 1, s, p + 1);
    }
  }

  /** Over the table of a complete code any bits start with exactly one of the listed
      codewords; the walk consumes it and returns its payload. */
  lemma BuiltTableDecodes(leaves: seq<(seq<bool>, Payload)>, nodes: seq<Node>, t: Trie, s: seq<bool>, p: nat)
    requires InsertAll(Empty, leaves).Inserted? && t == InsertAll(Empty, leaves).trie
    requires Depth(t) <= LONGEST && Complete(t) && At(nodes, 0, t) && WellFormed(nodes)
    ensures var r := Walk(nodes, 0, 0, s, p);
      && r.Read? && r.value < |nodes| && nodes[r.value].Leaf?
      && Listed(leaves, Cut(s, p, r.n)) == Some(Payload(nodes[r.value].nsign, nodes[r.value].nesc))
  {
    BuiltLists(leaves);
    WalkNeverFails(nodes, 0, t, 0, s, p);
    WalkPayload(nodes, 0, t, 0, s, p);
    var w := Next(t, s, p);
    assert Lookup(t, w) == Listed(leaves, w);
  }

  /** Of all the tables build makes, those of complete codes are the ones over which
      no walk fails; up to 29 bits that is every one of them. */
  lemma BuiltTableNeverFailsIff(leaves: seq<(seq<bool>, Payload)>, nodes: seq<Node>, t: Trie)
    requires InsertAll(Empty, leaves).Inserted? && t == InsertAll(Empty, leaves).trie
    requires Depth(t) <= LONGEST && KraftAccepted(Kraft(t, LONGEST)) && At(nodes, 0, t) && WellFormed(nodes)
    ensures (forall s, p: nat :: Walk(nodes, 0, 0, s, p).Read?) <==> Complete(t)
    ensures Depth(t) <= 29 ==> Complete(t)
  {
    PowLongest();
    assert !t.Empty?;
    if Complete(t) {
      forall s, p: nat ensures Walk(nodes, 0, 0, s, p).Read? { WalkNeverFails(nodes, 0, t, 0, s, p); }
    } else {
      var w := DeadEnd(t);
      assert w[0..0 + |w|] == w;
      DeadEndFails(nodes, 0, t, 0, w, 0);
    }
    if Depth(t) <= 29 { KraftCheckExact(t); }
  }

  lemma {:induction false} WalkPayload(nodes: seq<Node>, i: nat, t: Trie, guard: nat, s: seq<bool>, p: nat)
    requires WellFormed(nodes) && At(nodes, i, t) && Complete(t) && guard + Depth(t) <= GUARD
    ensures var r, v := Walk(nodes, i, guard, s, p), Lookup(t, Next(t, s, p)).value;
      r.Read? && r.value < |nodes| && nodes[r.value] == Leaf(v.nsign, v.nesc)
    decreases t
  {
    if t.Branch? {
      var child := if Bit(s, p) then t.one else t.zero;
      WalkPayload(nodes, if Bit(s, p) then nodes[i].b else nodes[i].a, child, guard + 1, s, p + 1);
      assert Next(t, s, p)[1..] == Next(child, s, p + 1);
    }
  }
}
