/** Bit strings: reading fixed-width numbers, and two strings that carry the same
    bits at different places. */
module Bits {
  import opened Arith

  // Past the end, every bit reads as zero (src/hdc2aac_remux.c:66-74).
  function Bit(s: seq<bool>, p: nat): bool { p < |s| && s[p] }

  // The n bits from p on, most significant first.
  function Num(s: seq<bool>, p: nat, n: nat): (v: nat)
    ensures v < Pow2(n)
    decreases n, s, p
  {
    if n == 0 then 0 else 2 * Num(s, p, n - 1) + if Bit(s, p + n - 1) then 1 else 0
  }

  // v in n bits, most significant first.
  function Digits(v: nat, n: nat): (w: seq<bool>)
    ensures |w| == n
    decreases n, v
  {
    if n == 0 then [] else Digits(v / 2, n - 1) + [v % 2 == 1]
  }

  // t carries at q the n bits that s carries at p.
  ghost predicate Agree(s: seq<bool>, p: nat, t: seq<bool>, q: nat, n: nat)
    decreases n, s, p, t, q
  {
    q + n <= |t| && (n > 0 ==> Agree(s, p, t, q, n - 1) && Bit(s, p + n - 1) == Bit(t, q + n - 1))
  }

  lemma {:induction false} AgreeSplit(s: seq<bool>, p: nat, t: seq<bool>, q: nat, a: nat, b: nat)
    requires Agree(s, p, t, q, a + b)
    ensures Agree(s, p, t, q, a) && Agree(s, p + a, t, q + a, b)
    decreases b
  {
    if b > 0 { AgreeSplit(s, p, t, q, a, b - 1); }
  }

  lemma AgreeBit(s: seq<bool>, p: nat, t: seq<bool>, q: nat, n: nat)
    requires Agree(s, p, t, q, n) && n > 0
    ensures Bit(s, p) == Bit(t, q)
    ensures Agree(s, p + 1, t, q + 1, n - 1)
  {
    AgreeSplit(s, p, t, q, 1, n - 1);
  }

  lemma {:induction false} NumAgree(s: seq<bool>, p: nat, t: seq<bool>, q: nat, n: nat)
    requires Agree(s, p, t, q, n)
    ensures Num(s, p, n) == Num(t, q, n)
    decreases n
  {
    if n > 0 { NumAgree(s, p, t, q, n - 1); }
  }

  // t holds the string w from q on.
  ghost predicate Holds(t: seq<bool>, q: nat, w: seq<bool>) {
    q + |w| <= |t| && t[q..q + |w|] == w
  }

  lemma HoldsSplit(t: seq<bool>, q: nat, a: seq<bool>, b: seq<bool>)
    ensures Holds(t, q, a + b) <==> Holds(t, q, a) && Holds(t, q + |a|, b)
  {
    if q + |a| + |b| <= |t| {
      var w := t[q..q + |a| + |b|];
      assert w[..|a|] == t[q..q + |a|];
      assert w[|a|..] == t[q + |a|..q + |a| + |b|];
      assert w == w[..|a|] + w[|a|..];
      assert (a + b)[..|a|] == a && (a + b)[|a|..] == b;
    }
  }

  // The n bits of s from p on.
  function Cut(s: seq<bool>, p: nat, n: nat): (w: seq<bool>)
    ensures |w| == n
    decreases n, s, p
  {
    if n == 0 then [] else Cut(s, p, n - 1) + [Bit(s, p + n - 1)]
  }

  lemma {:induction false} CutAgrees(s: seq<bool>, p: nat, n: nat, t: seq<bool>, q: nat)
    requires Holds(t, q, Cut(s, p, n))
    ensures Agree(s, p, t, q, n)
    decreases n
  {
    if n > 0 {
      HoldsSplit(t, q, Cut(s, p, n - 1), [Bit(s, p + n - 1)]);
      CutAgrees(s, p, n - 1, t, q);
      assert t[q + (n - 1)] == t[q + (n - 1)..q + n][0];
    }
  }

  lemma {:induction false} NumDigits(t: seq<bool>, q: nat, v: nat, n: nat)
    requires Holds(t, q, Digits(v, n)) && v < Pow2(n)
    ensures Num(t, q, n) == v
    decreases n
  {
    if n > 0 {
      HoldsSplit(t, q, Digits(v / 2, n - 1), [v % 2 == 1]);
      NumDigits(t, q, v / 2, n - 1);
      assert t[q + (n - 1)..q + n] == [v % 2 == 1];
      assert t[q + (n - 1)] == t[q + (n - 1)..q + n][0];
    }
  }

  lemma OneDigit(t: seq<bool>, q: nat, v: nat)
    requires Holds(t, q, Digits(v, 1)) && v < 2
    ensures Bit(t, q) == (v == 1)
  {
    NumDigits(t, q, v, 1);
    assert Num(t, q, 1) == if Bit(t, q) then 1 else 0;
  }
}
