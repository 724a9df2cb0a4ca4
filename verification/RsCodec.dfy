/** decode_rs_char as a whole, and fix_header (src/frame.c:177-198) on top of it. */
module RsCodec {
  import opened Field
  import opened RsAlgebra
  import opened RsSteps
  import opened RsForney
  import opened RsTables
  import opened RsDecode
  import opened RsCorrect
  import opened RsWords
  import opened RsShortest
  import opened RsAccept
  import opened RsGenerator

  const MAX_ERRORS := NROOTS / 2

  ghost predicate Near(c: Word, d: Word) {
    IsCodeword(c) && Distance(c, d) <= MAX_ERRORS
  }

  // ---------- counting distinct places ----------

  ghost predicate DistinctInts(a: seq<int>) {
    forall i, j :: 0 <= i < j < |a| ==> a[i] != a[j]
  }

  lemma {:induction false} DistinctWithin(a: seq<int>, b: seq<int>)
    requires DistinctInts(a) && forall x :: x in a ==> x in b
    ensures |a| <= |b|
    decreases |a|
  {
    if |a| > 0 {
      var x, rest := a[|a| - 1], a[..|a| - 1];
      assert x in a;
      var k :| 0 <= k < |b| && b[k] == x;
      var b' := b[..k] + b[k + 1..];
      forall y | y in rest ensures y in b' {
        assert y in a && y != x;
        var m :| 0 <= m < |b| && b[m] == y;
        assert b'[if m < k then m else m - 1] == y;
      }
      DistinctWithin(rest, b');
    }
  }

  // ---------- what the search finds when a codeword is near ----------

  // The state after Berlekamp-Massey when ps are the places of the errors.
  ghost predicate Solved(c: Word, d: Word, s: seq<GF>, lam: seq<GF>, deg: nat) {
    var ps := Places(c, d, NN);
    && Locator(lam, s, Locators(ps), Errors(c, d, ps), InverseLocators(ps))
    && Degree(lam, deg) && deg == |ps|
  }

  lemma SolvedByBm(c: Word, d: Word, s: seq<GF>, lam: seq<GF>, el: nat, deg: nat)
    requires Near(c, d) && s == SyndromesOf(d)
    requires Makes(s, lam, el, NROOTS) && NoLonger(s, el)
    requires Degree(lam, deg)
    ensures Solved(c, d, s, lam, deg)
  {
    var ps := Places(c, d, NN);
    var xs, ys, ws := Locators(ps), Errors(c, d, ps), InverseLocators(ps);
    SyndromesExplained(c, d, s);
    LocatorsDistinct(c, d);
    FinalRoots(s, lam, el, xs, ys, ws);
    DegreeIsRootCount(lam, deg, ws);
  }

  lemma PlaceIsRoot(c: Word, d: Word, s: seq<GF>, lam: seq<GF>, deg: nat, l: nat)
    requires Solved(c, d, s, lam, deg) && l < |Places(c, d, NN)|
    ensures IsRoot(lam, Places(c, d, NN)[l] + 1)
  {
    assert InverseLocators(Places(c, d, NN))[l] == Exp(Places(c, d, NN)[l] + 1);
  }

  // A root of the locator is one more than the place of an error.
  lemma RootIsPlace(c: Word, d: Word, s: seq<GF>, lam: seq<GF>, deg: nat, i: nat)
    requires Solved(c, d, s, lam, deg) && 1 <= i <= NN && IsRoot(lam, i)
    ensures i - 1 in Places(c, d, NN)
  {
    var ps := Places(c, d, NN);
    var ws := InverseLocators(ps);
    if i - 1 !in ps {
      OneMoreRoot(c, d, i);
      forall l | 0 <= l < |ws| + 1 ensures PartEval(lam, (ws + [Exp(i)])[l], |lam|) == ZERO {
        if l < |ws| { assert (ws + [Exp(i)])[l] == ws[l]; }
      }
      DegreeIsRootCount(lam, deg, ws + [Exp(i)]);
    }
  }

  // A place that is not among the errors has another inverse locator than they have.
  lemma OneMoreRoot(c: Word, d: Word, i: nat)
    requires 1 <= i <= NN && i - 1 !in Places(c, d, NN)
    ensures Distinct(InverseLocators(Places(c, d, NN)) + [Exp(i)])
  {
    var ps := Places(c, d, NN);
    var ws := InverseLocators(ps);
    LocatorsDistinct(c, d);
    forall l | 0 <= l < |ws| ensures ws[l] != Exp(i) {
      assert ps[l] in ps;
      ExpApart(ps[l] + 1, i);
    }
  }

  // The search stops with exactly the places of the errors.
  lemma SearchFindsPlaces(c: Word, d: Word, s: seq<GF>, lam: seq<GF>, deg: nat, root: seq<int>, loc: seq<int>)
    requires Solved(c, d, s, lam, deg)
    requires Found(root, loc, lam, NN + 1) && |root| <= deg
    requires |root| < deg ==> FoundAll(root, lam, NN + 1)
    ensures |root| == deg
    ensures forall p :: p in loc <==> p in Places(c, d, NN)
  {
    var ps := Places(c, d, NN);
    PlacesSpec(c, d, NN);
    if |root| < deg {
      var up := seq(|ps|, l requires 0 <= l < |ps| => ps[l] + 1);
      forall x | x in up ensures x in root {
        var l :| 0 <= l < |up| && up[l] == x;
        PlaceIsRoot(c, d, s, lam, deg, l);
      }
      DistinctWithin(up, root);
      assert false;
    }
    LocationsArePlaces(c, d, s, lam, deg, root, loc);
    if p: int :| p in ps && p !in loc {
      forall k, l | 0 <= k < l < |loc| ensures loc[k] != loc[l] { assert root[k] < root[l]; }
      DistinctWithin(loc + [p], ps);
    }
  }

  lemma LocationsArePlaces(c: Word, d: Word, s: seq<GF>, lam: seq<GF>, deg: nat, root: seq<int>, loc: seq<int>)
    requires Solved(c, d, s, lam, deg) && Found(root, loc, lam, NN + 1)
    ensures forall p :: p in loc ==> p in Places(c, d, NN)
  {
    forall p | p in loc ensures p in Places(c, d, NN) {
      var k :| 0 <= k < |loc| && loc[k] == p;
      RootIsPlace(c, d, s, lam, deg, root[k]);
    }
  }

  // With fewer roots found than the degree, there are no more.
  lemma DoesNotSplit(lam: seq<GF>, deg: nat, root: seq<int>, loc: seq<int>)
    requires Degree(lam, deg) && Found(root, loc, lam, NN + 1) && FoundAll(root, lam, NN + 1) && |root| < deg
    ensures !Splits(lam)
  {
    forall list | RootList(lam, list) && Degree(lam, |list|) ensures false {
      DegreeUnique(lam, deg, |list|);
      forall x | x in list ensures x in root { assert IsRoot(lam, x); }
      DistinctWithin(list, root);
    }
  }

  // With as many as the degree it splits.
  lemma DoesSplit(lam: seq<GF>, root: seq<int>, loc: seq<int>)
    requires Degree(lam, |root|) && Found(root, loc, lam, NN + 1)
    ensures Splits(lam)
  {
    forall i, j | 0 <= i < j < |root| ensures root[i] != root[j] { assert root[i] < root[j]; }
    assert RootList(lam, root);
  }

  // What the correction leaves.
  ghost predicate Fixed(r: Word, d: Word, lam: seq<GF>, el: nat, deg: nat) {
    Distance(r, d) <= deg && (IsCodeword(r) <==> Degree(lam, el))
  }

  lemma FixedWord(r: Word, d: Word, s: seq<GF>, om: seq<GF>, lam: seq<GF>, el: nat,
                  root: seq<int>, loc: seq<int>, ps: seq<nat>)
    requires Found(root, loc, lam, NN + 1) && ps == PlacesOf(root)
    requires Rising(ps, NN) && Rooted(lam, Locators(ps), InverseLocators(ps)) && AllNonzero(Locators(ps))
    requires Evaluator(om, lam, s) && Repaired(r, d, ValueWord(om, lam), loc, 0) && Elsewhere(r, d, loc, 0)
    requires Solvable(om, lam, ValueWord(om, lam), root)
    requires s == SyndromesOf(d) && Makes(s, lam, el, NROOTS) && NoLonger(s, el) && Degree(lam, |root|)
    ensures Fixed(r, d, lam, el, |root|)
  {
    ChangedWithin(r, d, loc, ps);
    PlacesWithin(r, d, ps, NN);
    if Degree(lam, el) {
      DegreeUnique(lam, el, |root|);
      FullDegreeRepairs(r, d, s, om, lam, root, loc, ps);
    }
    if IsCodeword(r) { CodewordNeedsFullDegree(r, d, s, lam, el, |root|); }
  }

  lemma NearIsFixed(c: Word, d: Word, r: Word, s: seq<GF>, lam: seq<GF>, el: nat, deg: nat)
    requires Near(c, d) && Fixed(r, d, lam, el, deg) && Solved(c, d, s, lam, deg)
    requires NoLonger(s, el) && DegreeAtMost(lam, el)
    ensures r == c && deg == Distance(c, d)
  {
    assert el <= |Locators(Places(c, d, NN))|;
    assert el == deg;
    NearbyIsUnique(r, c, d);
  }

  lemma CleanWord(c: Word, d: Word)
    requires IsCodeword(d) && Near(c, d)
    ensures c == d && Distance(c, d) == 0
  {
    SameWord(d, NN);
    NearbyIsUnique(c, d, d);
  }

  // syn_error: rs_decode.c:44-57
  method AnySyndrome(s: array<GF>) returns (synError: bool)
    ensures synError <==> exists i :: 0 <= i < s.Length && s[i] != ZERO
  {
    synError := false;
    var i := 0;
    while i < s.Length
      invariant 0 <= i <= s.Length
      invariant synError <==> exists k :: 0 <= k < i && s[k] != ZERO
    {
      synError := synError || s[i] != ZERO;
      i := i + 1;
    }
  }

  // From the register to the corrected word: rs_decode.c:122-203.
  method Correct(rs: Rs, data: array<GF>, si: array<int>, lambda: array<GF>,
                 ghost s: seq<GF>, ghost el: nat, ghost c: Word)
    returns (count: int)
    requires rs.Valid() && data.Length == NN && lambda.Length == NROOTS + 1 && lambda != data
    requires s == SyndromesOf(data[..]) && Denotes(si[..], s)
    requires Makes(s, lambda[..], el, NROOTS) && Shortest(s, el, NROOTS) && NoLonger(s, el)
    modifies data
    ensures Outcome(old(data[..]), data[..], count, old(lambda[..]), el)
    ensures Near(c, old(data[..])) ==> data[..] == c && count == Distance(c, old(data[..]))
  {
    ghost var d: Word, lam := data[..], lambda[..];
    ghost var near := Near(c, d);
    var li, deg := ToIndexForm(rs, lambda);
    if near { SolvedByBm(c, d, s, lam, el, deg); }
    var root, loc;
    root, loc, count := ChienSearch(rs, li, deg, lam);
    if near { SearchFindsPlaces(c, d, s, lam, deg, root, loc); }
    if deg != count {
      DoesNotSplit(lam, deg, root, loc);
      return -1;
    }
    DoesSplit(lam, root, loc);
    Amend(rs, data, si, li, deg, root, loc, s, lam, el);
    if near { NearIsFixed(c, d, data[..], s, lam, el, deg); }
  }

  // The values are found and added; with all roots at hand this cannot fail.
  method Amend(rs: Rs, data: array<GF>, si: array<int>, li: array<int>, deg: nat, root: seq<int>, loc: seq<int>,
               ghost s: seq<GF>, ghost lam: seq<GF>, ghost el: nat)
    requires rs.Valid() && data.Length == NN && s == SyndromesOf(data[..])
    requires Makes(s, lam, el, NROOTS) && NoLonger(s, el) && Denotes(si[..], s) && Denotes(li[..], lam)
    requires Found(root, loc, lam, NN + 1) && deg == |root| <= NROOTS && Degree(lam, deg)
    modifies data
    ensures Fixed(data[..], old(data[..]), lam, el, deg)
  {
    ghost var d: Word := data[..];
    ghost var ps := PlacesOf(root);
    FoundIsRooted(root, loc, ps, lam);
    var omega, degOmega, om := ErrorEvaluator(rs, si, li, deg, s, lam);
    AlwaysSolvable(om, lam, root, loc, ps);
    var ok := Apply(rs, data, root, loc, omega, degOmega, li, deg, om, lam, ValueWord(om, lam));
    FixedWord(data[..], d, s, om, lam, el, root, loc, ps);
  }

  /** Every word within four symbols of a codeword becomes that codeword, and the
      count is the number of symbols repaired; what becomes of any other word is
      settled too (Outcome). */
  method Decode(rs: Rs, data: array<GF>) returns (count: int, ghost lam: seq<GF>, ghost el: nat)
    requires rs.Valid() && data.Length == NN
    modifies data
    ensures Outcome(old(data[..]), data[..], count, lam, el)
    ensures forall c: Word :: Near(c, old(data[..])) ==> data[..] == c && count == Distance(c, old(data[..]))
  {
    ghost var d: Word := data[..];
    var s := Syndromes(rs, data);
    ghost var sv := s[..];
    assert sv == SyndromesOf(d);
    var synError := AnySyndrome(s);
    if !synError {
      forall i | 0 <= i < NROOTS ensures sv[i] == ZERO && Syndrome(d, i) == ZERO { assert s[i] == ZERO; }
      forall c: Word | Near(c, d) ensures c == d && Distance(c, d) == 0 { CleanWord(c, d); }
      lam, el := [ONE] + seq(NROOTS, _ => ZERO), 0;
      CleanOutcome(d, lam);
      return 0, lam, el;
    }
    ghost var c: Word := d;
    if exists near: Word :: Near(near, d) { c :| Near(c, d); }
    var si, _ := ToIndexForm(rs, s);
    var lambda, length, bp := BerlekampMassey(rs, si, sv);
    lam, el := lambda[..], length;
    count := Correct(rs, data, si, lambda, sv, el, c);
    forall other: Word | Near(other, d) ensures data[..] == other && count == Distance(other, d) {
      NearbyIsUnique(other, c, d);
    }
  }

  lemma CleanOutcome(d: Word, lam: seq<GF>)
    requires lam == [ONE] + seq(NROOTS, _ => ZERO) && forall i :: 0 <= i < NROOTS ==> SyndromesOf(d)[i] == ZERO
    ensures Outcome(d, d, 0, lam, 0)
  {
    var s := SyndromesOf(d);
    forall i | 0 <= i < NROOTS ensures Coef(lam, s, i) == ZERO { ZeroProduct(lam, s, i, i + 1); }
    assert RootList(lam, []) && Degree(lam, 0);
    SameWord(d, NN);
    forall i | 0 <= i < NROOTS ensures Syndrome(d, i) == ZERO { assert s[i] == ZERO; }
  }

  lemma {:induction false} ZeroProduct(p: seq<GF>, s: seq<GF>, i: nat, n: nat)
    requires i < |s| && n <= i + 1 && n <= |p| && forall k :: 0 <= k < |s| ==> s[k] == ZERO
    ensures Conv(p, s, i, n) == ZERO
  {
    if n > 0 {
      ZeroProduct(p, s, i, n - 1);
      MulZero(p[n - 1]);
      AddZero(ZERO);
    }
  }

  // ---------- the frame header ----------

  const BLOCK_LEN := 255
  const CODEWORD_LEN := 96
  const PAD := BLOCK_LEN - CODEWORD_LEN

  type Header = h: seq<GF> | |h| == CODEWORD_LEN witness seq(CODEWORD_LEN, _ => ZERO)

  // A header is sent backwards, behind zeros that are not transmitted.
  function Block(h: Header): Word {
    seq(NN, k requires 0 <= k < NN => if k < PAD then ZERO else h[BLOCK_LEN - 1 - k])
  }

  lemma BlockEntries(h: Header)
    ensures forall k :: 0 <= k < PAD ==> Block(h)[k] == ZERO
    ensures forall i :: 0 <= i < CODEWORD_LEN ==> h[i] == Block(h)[BLOCK_LEN - 1 - i]
  {
  }

  lemma BlockIs(h: Header, w: Word)
    requires Padded(w) && forall i :: 0 <= i < CODEWORD_LEN ==> h[i] == w[BLOCK_LEN - 1 - i]
    ensures Block(h) == w
  {
    forall k | PAD <= k < NN ensures Block(h)[k] == w[k] { assert h[BLOCK_LEN - 1 - k] == w[k]; }
  }

  lemma BlockInjective(g: Header, h: Header)
    requires Block(g) == Block(h)
    ensures g == h
  {
    BlockEntries(g);
    BlockEntries(h);
  }

  // frame.c:182-184
  method LoadHeader(buf: array<GF>, start: nat) returns (hdr: array<GF>)
    requires start + CODEWORD_LEN <= buf.Length
    ensures fresh(hdr) && hdr[..] == Block(buf[start..start + CODEWORD_LEN])
  {
    hdr := new GF[BLOCK_LEN](_ => ZERO);
    var i := 0;
    while i < CODEWORD_LEN
      invariant 0 <= i <= CODEWORD_LEN
      invariant forall k :: 0 <= k < PAD ==> hdr[k] == ZERO
      invariant forall k :: BLOCK_LEN - i <= k < BLOCK_LEN ==> hdr[k] == buf[start + (BLOCK_LEN - 1 - k)]
    {
      hdr[BLOCK_LEN - i - 1] := buf[start + i];
      i := i + 1;
    }
    ghost var h := buf[start..start + CODEWORD_LEN];
    assert forall i :: 0 <= i < CODEWORD_LEN ==> h[i] == buf[start + i];
    BlockIs(h, hdr[..]);
  }

  // frame.c:191-193
  method PadIsZero(hdr: array<GF>) returns (ok: bool)
    requires hdr.Length == BLOCK_LEN
    ensures ok <==> forall k :: 0 <= k < PAD ==> hdr[k] == ZERO
  {
    var i := 0;
    while i < PAD
      invariant 0 <= i <= PAD
      invariant forall k :: 0 <= k < i ==> hdr[k] == ZERO
    {
      if hdr[i] != ZERO {
        return false;
      }
      i := i + 1;
    }
    return true;
  }

  // The header that stands in the buffer.
  ghost function HeaderIn(buf: array<GF>, start: nat): Header
    requires start + CODEWORD_LEN <= buf.Length
    reads buf
  {
    buf[start..start + CODEWORD_LEN]
  }

  // frame.c:195-196
  method StoreHeader(hdr: array<GF>, buf: array<GF>, start: nat)
    requires start + CODEWORD_LEN <= buf.Length && hdr.Length == BLOCK_LEN && hdr != buf
    requires Padded(hdr[..])
    modifies buf
    ensures forall p :: 0 <= p < buf.Length && !(start <= p < start + CODEWORD_LEN) ==> buf[p] == old(buf[p])
    ensures Block(HeaderIn(buf, start)) == hdr[..]
  {
    var i := 0;
    while i < CODEWORD_LEN
      invariant 0 <= i <= CODEWORD_LEN
      invariant forall p :: 0 <= p < buf.Length && !(start <= p < start + i) ==> buf[p] == old(buf[p])
      invariant forall p :: start <= p < start + i ==> buf[p] == hdr[BLOCK_LEN - 1 - (p - start)]
    {
      buf[start + i] := hdr[BLOCK_LEN - i - 1];
      i := i + 1;
    }
    BlockIs(HeaderIn(buf, start), hdr[..]);
  }

  /** fix_header: a header within four bytes of a valid one is restored in place; a
      rejected header is left as it was, and nothing else is touched. The decoder's
      word is stored exactly when there is one and its padding is zero. */
  method FixHeader(rs: Rs, buf: array<GF>, start: nat)
    returns (ok: bool, ghost fixed: Word, ghost count: int, ghost lam: seq<GF>, ghost el: nat)
    requires rs.Valid() && start + CODEWORD_LEN <= buf.Length
    modifies buf
    ensures !ok ==> buf[..] == old(buf[..])
    ensures buf[..start] == old(buf[..start])
    ensures buf[start + CODEWORD_LEN..] == old(buf[start + CODEWORD_LEN..])
    ensures forall h: Header :: Near(Block(h), Block(old(HeaderIn(buf, start)))) ==>
      ok && HeaderIn(buf, start) == h
    ensures Outcome(Block(old(HeaderIn(buf, start))), fixed, count, lam, el)
    ensures ok <==> count >= 0 && Padded(fixed)
    ensures ok ==> Block(HeaderIn(buf, start)) == fixed
  {
    ghost var was: Header := HeaderIn(buf, start);
    var hdr := LoadHeader(buf, start);
    var corrections;
    corrections, lam, el := Decode(rs, hdr);
    fixed, count := hdr[..], corrections;
    if corrections == -1 {
      ok := false;
      return;
    }
    ok := Settle(hdr, buf, start);
    NearHeaders(was, HeaderIn(buf, start), fixed);
  }

  // The word a near header must be is its block.
  lemma NearHeaders(was: Header, now: Header, w: Word)
    requires forall c: Word :: Near(c, Block(was)) ==> w == c
    ensures forall h: Header :: Near(Block(h), Block(was)) ==> Padded(w) && (Block(now) == w ==> now == h)
  {
    forall h: Header | Near(Block(h), Block(was)) ensures Padded(w) && (Block(now) == w ==> now == h) {
      BlockEntries(h);
      if Block(now) == w { BlockInjective(now, h); }
    }
  }

  // frame.c:191-197
  method Settle(hdr: array<GF>, buf: array<GF>, start: nat) returns (ok: bool)
    requires start + CODEWORD_LEN <= buf.Length && hdr.Length == BLOCK_LEN && hdr != buf
    modifies buf
    ensures ok <==> Padded(hdr[..])
    ensures !ok ==> buf[..] == old(buf[..])
    ensures buf[..start] == old(buf[..start])
    ensures buf[start + CODEWORD_LEN..] == old(buf[start + CODEWORD_LEN..])
    ensures ok ==> Block(buf[start..start + CODEWORD_LEN]) == hdr[..]
  {
    ok := PadIsZero(hdr);
    if ok { StoreHeader(hdr, buf, start); }
  }

  ghost predicate Padded(w: Word) { forall k :: 0 <= k < PAD ==> w[k] == ZERO }

  // ---------- a header that is accepted and is not valid ----------

  // The product of x + alpha^2 to x + alpha^n.
  function AllButFirst(n: nat): (g: seq<GF>)
    requires n > 0
    ensures |g| == n
  {
    if n == 1 then [ONE] else Times(AllButFirst(n - 1), Exp(n))
  }

  lemma {:induction false} AllButFirstRoots(n: nat, x: GF)
    requires n > 0
    ensures Eval(AllButFirst(n), x) == ZERO <==> exists k: nat :: 2 <= k <= n && Exp(k) == x
  {
    if n == 1 {
      MulZero(x);
      AddZero(ONE);
      assert [ONE][1..] == [];
    } else {
      AllButFirstRoots(n - 1, x);
      RootsOfTimes(AllButFirst(n - 1), Exp(n), x);
    }
  }

  // The coefficients as the first bytes of a header, the others zero.
  function FarHeader(): Header {
    var g := AllButFirst(NROOTS);
    seq(CODEWORD_LEN, i requires 0 <= i < CODEWORD_LEN => if i < NROOTS then g[i] else ZERO)
  }

  lemma {:induction false} HornerZero(d: seq<GF>, x: GF)
    requires forall k :: 0 <= k < |d| ==> d[k] == ZERO
    ensures Horner(d, x) == ZERO
  {
    if |d| > 0 {
      HornerZero(d[..|d| - 1], x);
      MulZero(x);
      AddZero(ZERO);
    }
  }

  // A word is its polynomial, the constant term at the end.
  lemma {:induction false} HornerIsEval(d: seq<GF>, p: seq<GF>, x: GF)
    requires |p| <= |d| && forall i :: 0 <= i < |p| ==> d[|d| - 1 - i] == p[i]
    requires forall k :: 0 <= k < |d| - |p| ==> d[k] == ZERO
    ensures Horner(d, x) == Eval(p, x)
    decreases |p|
  {
    if |p| == 0 {
      HornerZero(d, x);
    } else {
      HornerIsEval(d[..|d| - 1], p[1..], x);
      assert d[|d| - 1 - 0] == p[0];
    }
  }

  lemma FarSyndromes()
    ensures OnlyFirst(SyndromesOf(Block(FarHeader())))
  {
    var d, g := Block(FarHeader()), AllButFirst(NROOTS);
    forall i: nat | i < NROOTS ensures Syndrome(d, i) == ZERO <==> i > 0 {
      HornerIsEval(d, g, Exp(i + 1));
      AllButFirstRoots(NROOTS, Exp(i + 1));
      if i == 0 {
        forall k: nat | 2 <= k <= NROOTS ensures Exp(k) != Exp(1) { ExpApart(k, 1); }
      } else {
        assert 2 <= i + 1 <= NROOTS;
      }
    }
  }

  /** fix_header accepts this header as it is, though it is not valid. */
  lemma FarHeaderAccepted(fixed: Word, count: int, lam: seq<GF>, el: nat)
    requires Outcome(Block(FarHeader()), fixed, count, lam, el)
    ensures count == 0 && Padded(fixed) && fixed == Block(FarHeader()) && !IsCodeword(fixed)
  {
    FarSyndromes();
    FarWordAccepted(Block(FarHeader()), fixed, count, lam, el);
  }
}
