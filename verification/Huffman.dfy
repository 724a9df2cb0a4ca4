/** Flattened Huffman tables and the words they delimit: codeword, sign bits and
    escapes (src/hdc2aac_remux.c:263-309). */
module Huffman {
  import opened Basics
  import opened Arith
  import opened Bits

  // An element read from a bit string, and the number of bits it took.
  datatype Parse<+V> = Fail | Read(value: V, n: nat)

  function Prepend<V>(front: seq<V>, n: nat, r: Parse<seq<V>>): Parse<seq<V>> {
    match r
    case Fail => Fail
    case Read(vs, m) => Read(front + vs, n + m)
  }

  lemma PrependNothing<V>(r: Parse<seq<V>>)
    ensures Prepend([], 0, r) == r
  {
    if r.Read? { assert [] + r.value == r.value; }
  }

  lemma PrependTwice<V>(front: seq<V>, n: nat, v: V, m: nat, r: Parse<seq<V>>)
    ensures Prepend(front, n, Prepend([v], m, r)) == Prepend(front + [v], n + m, r)
  {
    if r.Read? { assert front + ([v] + r.value) == front + [v] + r.value; }
  }

  datatype Node = Leaf(nsign: nat, nesc: nat) | Inner(a: int, b: int)

  // Children are indices into the table, or -1 for an impossible prefix.
  ghost predicate WellFormed(tree: seq<Node>) {
    |tree| > 0 && forall i :: 0 <= i < |tree| && tree[i].Inner? ==> -1 <= tree[i].a < |tree| && -1 <= tree[i].b < |tree|
  }

  // hdc_cb_sf and hdc_cbs[0..11].
  datatype Tables = Tables(sf: seq<Node>, cbs: seq<seq<Node>>) {
    ghost predicate Valid() {
      WellFormed(sf) && |cbs| == 12 && forall i :: 1 <= i < 12 ==> WellFormed(cbs[i])
    }
  }

  const GUARD := 64

  // huffman_walk: the leaf reached, counting steps in guard.
  function Walk(tree: seq<Node>, idx: nat, guard: nat, s: seq<bool>, p: nat): Parse<nat>
    requires WellFormed(tree) && idx < |tree| && guard <= GUARD
    decreases GUARD - guard, tree, s, p
  {
    if tree[idx].Leaf? then Read(idx, 0)
    else
      var next := if Bit(s, p) then tree[idx].b else tree[idx].a;
      if guard == GUARD || next < 0 then Fail
      else
        match Walk(tree, next, guard + 1, s, p + 1)
        case Fail => Fail
        case Read(leaf, n) => Read(leaf, n + 1)
  }

  lemma {:induction false} WalkLeaf(tree: seq<Node>, idx: nat, guard: nat, s: seq<bool>, p: nat)
    requires WellFormed(tree) && idx < |tree| && guard <= GUARD
    ensures var r := Walk(tree, idx, guard, s, p); r.Read? ==> r.value < |tree| && tree[r.value].Leaf?
    decreases GUARD - guard
  {
    if tree[idx].Inner? {
      var next := if Bit(s, p) then tree[idx].b else tree[idx].a;
      if guard < GUARD && next >= 0 { WalkLeaf(tree, next, guard + 1, s, p + 1); }
    }
  }

  lemma {:induction false} WalkLocal(tree: seq<Node>, idx: nat, guard: nat, s: seq<bool>, p: nat, t: seq<bool>, q: nat)
    requires WellFormed(tree) && idx < |tree| && guard <= GUARD
    requires var r := Walk(tree, idx, guard, s, p); r.Read? && Agree(s, p, t, q, r.n)
    ensures Walk(tree, idx, guard, t, q) == Walk(tree, idx, guard, s, p)
    decreases GUARD - guard
  {
    if tree[idx].Inner? {
      var r := Walk(tree, idx, guard, s, p);
      AgreeBit(s, p, t, q, r.n);
      WalkLocal(tree, if Bit(s, p) then tree[idx].b else tree[idx].a, guard + 1, s, p + 1, t, q + 1);
    }
  }

  // An escape: ones up to a zero give the width, then that many bits.
  function Width(s: seq<bool>, p: nat, i: nat): Parse<nat>
    requires i <= 16
    decreases 16 - i, s, p
  {
    if i == 16 then Fail
    else if !Bit(s, p) then Read(i, 1)
    else
      match Width(s, p + 1, i + 1)
      case Fail => Fail
      case Read(w, n) => Read(w, n + 1)
  }

  lemma {:induction false} WidthLocal(s: seq<bool>, p: nat, i: nat, t: seq<bool>, q: nat)
    requires i <= 16 && var r := Width(s, p, i); r.Read? && Agree(s, p, t, q, r.n)
    ensures Width(t, q, i) == Width(s, p, i)
    decreases 16 - i
  {
    var r := Width(s, p, i);
    AgreeBit(s, p, t, q, r.n);
    if Bit(s, p) { WidthLocal(s, p + 1, i + 1, t, q + 1); }
  }

  // One escaped magnitude.
  function EscapeParts(s: seq<bool>, p: nat): Parse<nat> {
    match Width(s, p, 4)
    case Fail => Fail
    case Read(w, n) => Read(Pow2(w) + Num(s, p + n, w), n + w)
  }

  function Escape(s: seq<bool>, p: nat): Parse<nat> { SealedEscape(SEALS, s, p) }

  function SealedEscape(seals: seq<bool>, s: seq<bool>, p: nat): Parse<nat> {
    if |seals| > 0 then SealedEscape(seals[1..], s, p) else EscapeParts(s, p)
  }

  lemma {:induction false} OpenEscape(seals: seq<bool>, s: seq<bool>, p: nat)
    ensures SealedEscape(seals, s, p) == EscapeParts(s, p)
  {
    if |seals| > 0 { OpenEscape(seals[1..], s, p); }
  }

  lemma EscapeLocal(s: seq<bool>, p: nat, t: seq<bool>, q: nat)
    requires var r := Escape(s, p); r.Read? && Agree(s, p, t, q, r.n)
    ensures Escape(t, q) == Escape(s, p)
  {
    OpenEscape(SEALS, s, p);
    OpenEscape(SEALS, t, q);
    var width := Width(s, p, 4);
    AgreeSplit(s, p, t, q, width.n, width.value);
    WidthLocal(s, p, 4, t, q);
    NumAgree(s, p + width.n, t, q + width.n, width.value);
  }

  // k escaped magnitudes.
  function Escapes(s: seq<bool>, p: nat, k: nat): Parse<seq<nat>>
    decreases k, s, p
  {
    if k == 0 then Read([], 0)
    else
      match Escape(s, p)
      case Fail => Fail
      case Read(v, n) => Prepend([v], n, Escapes(s, p + n, k - 1))
  }

  lemma {:induction false} EscapesLocal(s: seq<bool>, p: nat, k: nat, t: seq<bool>, q: nat)
    requires var r := Escapes(s, p, k); r.Read? && Agree(s, p, t, q, r.n)
    ensures Escapes(t, q, k) == Escapes(s, p, k)
    decreases k
  {
    if k > 0 {
      var first := Escape(s, p);
      AgreeSplit(s, p, t, q, first.n, Escapes(s, p + first.n, k - 1).n);
      EscapeLocal(s, p, t, q);
      EscapesLocal(s, p + first.n, k - 1, t, q + first.n);
    }
  }

  // What follows the codeword: sign bits and escapes.
  function Tail(nsign: nat, nesc: nat, s: seq<bool>, p: nat): Parse<(nat, seq<nat>)> {
    match Escapes(s, p + nsign, nesc)
    case Fail => Fail
    case Read(escapes, n) => Read((Num(s, p, nsign), escapes), nsign + n)
  }

  lemma TailLocal(nsign: nat, nesc: nat, s: seq<bool>, p: nat, t: seq<bool>, q: nat)
    requires var r := Tail(nsign, nesc, s, p); r.Read? && Agree(s, p, t, q, r.n)
    ensures Tail(nsign, nesc, t, q) == Tail(nsign, nesc, s, p)
  {
    AgreeSplit(s, p, t, q, nsign, Escapes(s, p + nsign, nesc).n);
    NumAgree(s, p, t, q, nsign);
    EscapesLocal(s, p + nsign, nesc, t, q + nsign);
  }

  // One spectral codeword: which leaf, its sign bits, its escaped magnitudes.
  datatype Word = Word(leaf: nat, signs: nat, escapes: seq<nat>)

  const ESC_HCB := 11

  // consume_codeword
  function Codeword(h: Tables, cb: nat, s: seq<bool>, p: nat): Parse<Word>
    requires h.Valid()
  {
    if cb < 1 || cb > ESC_HCB then Fail
    else
      match Walk(h.cbs[cb], 0, 0, s, p)
      case Fail => Fail
      case Read(leaf, n) =>
        WalkLeaf(h.cbs[cb], 0, 0, s, p);
        match Tail(h.cbs[cb][leaf].nsign, h.cbs[cb][leaf].nesc, s, p + n)
        case Fail => Fail
        case Read(tail, m) => Read(Word(leaf, tail.0, tail.1), n + m)
  }

  lemma CodewordLocal(h: Tables, cb: nat, s: seq<bool>, p: nat, t: seq<bool>, q: nat)
    requires h.Valid() && var r := Codeword(h, cb, s, p); r.Read? && Agree(s, p, t, q, r.n)
    ensures Codeword(h, cb, t, q) == Codeword(h, cb, s, p)
  {
    var tree := h.cbs[cb];
    var walk := Walk(tree, 0, 0, s, p);
    WalkLeaf(tree, 0, 0, s, p);
    var e := tree[walk.value];
    AgreeSplit(s, p, t, q, walk.n, Tail(e.nsign, e.nesc, s, p + walk.n).n);
    WalkLocal(tree, 0, 0, s, p, t, q);
    TailLocal(e.nsign, e.nesc, s, p + walk.n, t, q + walk.n);
  }
}
