/** The parser of src/hdc2aac_remux.c:157-531, which keeps positions only, proved
    to accept exactly the frames of module HdcSyntax. */
module HdcParser {
  import opened Basics
  import opened Arith
  import opened Bits
  import opened Huffman
  import opened AacSyntax
  import opened BitIo
  import Hdc = HdcSyntax

  // ---------- Huffman codewords ----------

  // huffman_walk
  method HuffmanWalk(tree: seq<Node>, br: BitReader) returns (rc: int, nsign: nat, nesc: nat)
    requires WellFormed(tree)
    modifies br
    ensures var r := Walk(tree, 0, 0, br.S(), old(br.pos));
      && (rc == 0 <==> r.Read?) && (rc == 0 || rc == -1)
      && (rc == 0 ==>
           && br.pos == old(br.pos) + r.n
           && r.value < |tree| && tree[r.value] == Leaf(nsign, nesc))
  {
    var idx, guard := 0, 0;
    ghost var s, p := br.S(), br.pos;
    while !tree[idx].Leaf?
      invariant 0 <= idx < |tree| && 0 <= guard <= GUARD && br.pos == p + guard
      invariant Walk(tree, 0, 0, s, p) == match Walk(tree, idx, guard, s, p + guard) case Fail => Fail case Read(leaf, n) => Read(leaf, n + guard)
      decreases GUARD - guard
    {
      var b := br.ReadBit();
      var next := if b == 1 then tree[idx].b else tree[idx].a;
      guard := guard + 1;
      if guard > GUARD {
        return -1, 0, 0;
      }
      if next < 0 {
        return -1, 0, 0;
      }
      idx := next;
    }
    nsign, nesc := tree[idx].nsign, tree[idx].nesc;
    rc := 0;
  }

  // consume_sf
  method ConsumeSf(h: Tables, br: BitReader) returns (rc: int)
    requires h.Valid()
    modifies br
    ensures var r := One(h, Scale, br.S(), old(br.pos));
      (rc == 0 <==> r.Read?) && (rc == 0 || rc == -1) && (rc == 0 ==> br.pos == old(br.pos) + r.n)
  {
    OpenItem(SEALS, h, Scale, br.S(), br.pos);
    var nsign, nesc;
    rc, nsign, nesc := HuffmanWalk(h.sf, br);
  }

  // One escape: i bits after the ones.
  method ConsumeEscape(br: BitReader) returns (rc: int)
    modifies br
    ensures var r := Escape(br.S(), old(br.pos));
      (rc == 0 <==> r.Read?) && (rc == 0 || rc == -1) && (rc == 0 ==> br.pos == old(br.pos) + r.n)
  {
    ghost var s, p := br.S(), br.pos;
    OpenEscape(SEALS, s, p);
    var i := 4;
    while i < 16
      invariant 4 <= i <= 16 && br.pos == p + (i - 4)
      invariant Width(s, p, 4) == match Width(s, p + (i - 4), i) case Fail => Fail case Read(w, n) => Read(w, n + (i - 4))
    {
      var b := br.ReadBit();
      if b == 0 {
        break;
      }
      i := i + 1;
    }
    if i >= 16 {
      return -1;
    }
    br.Skip(i);
    return 0;
  }

  // consume_codeword
  method ConsumeCodeword(h: Tables, cb: nat, br: BitReader) returns (rc: int)
    requires h.Valid()
    modifies br
    ensures var r := Codeword(h, cb, br.S(), old(br.pos));
      (rc == 0 <==> r.Read?) && (rc == 0 || rc == -1) && (rc == 0 ==> br.pos == old(br.pos) + r.n)
  {
    if cb < 1 || cb > ESC_HCB {
      return -1;
    }
    var nsign, nesc;
    rc, nsign, nesc := HuffmanWalk(h.cbs[cb], br);
    if rc < 0 {
      return -1;
    }
    br.Skip(nsign);
    rc := ConsumeEscapes(nesc, br);
  }

  method ConsumeEscapes(nesc: nat, br: BitReader) returns (rc: int)
    modifies br
    ensures var r := Escapes(br.S(), old(br.pos), nesc);
      (rc == 0 <==> r.Read?) && (rc == 0 || rc == -1) && (rc == 0 ==> br.pos == old(br.pos) + r.n)
  {
    ghost var s, p := br.S(), br.pos;
    ghost var done: seq<nat> := [];
    PrependNothing(Escapes(s, p, nesc));
    var k := 0;
    while k < nesc
      invariant 0 <= k <= nesc && br.pos >= p
      invariant Escapes(s, p, nesc) == Prepend(done, br.pos - p, Escapes(s, br.pos, nesc - k))
    {
      ghost var q, one := br.pos, Escape(s, br.pos);
      rc := ConsumeEscape(br);
      if rc < 0 {
        return -1;
      }
      PrependTwice(done, q - p, one.value, one.n, Escapes(s, br.pos, nesc - k - 1));
      done := done + [one.value];
      k := k + 1;
    }
    rc := 0;
  }

  // ---------- window groups ----------

  class Ics {
    var windowSequence: nat
    var windowShape: nat
    var maxSfb: nat
    var sfg: nat
    var numWindows: nat
    var groupLen: seq<nat>
    var numSwb: nat
    var offsets: seq<seq<nat>>
    var sections: seq<seq<Section>>
    var books: seq<seq<nat>>

    constructor ()
      ensures windowSequence == windowShape == maxSfb == sfg == 0
    {
      windowSequence, windowShape, maxSfb, sfg, numWindows, numSwb := 0, 0, 0, 0, 0, 0;
      groupLen, offsets, sections, books := [], [], [], [];
    }

    ghost function Fields(): Window
      reads this
    {
      Window(windowSequence, windowShape, maxSfb, sfg)
    }

    // What window_grouping derives from the fields.
    ghost predicate Grouped(w: Window)
      reads this
    {
      && w == Fields() && maxSfb <= w.NumSwb()
      && numWindows == (if w.Short() then 8 else 1) && numSwb == w.NumSwb()
      && groupLen == w.Groups() && |offsets| == |groupLen|
      && forall g :: 0 <= g < |groupLen| ==> OffsetsOf(w, groupLen[g], offsets[g])
    }
  }

  ghost predicate OffsetsOf(w: Window, len: nat, row: seq<nat>) {
    |row| == w.NumSwb() + 1 && forall i: nat :: i < |row| ==> row[i] == BandOffset(w, len, i)
  }

  // The group lengths of eight short windows.
  method ShortGroups(sfg: nat) returns (len: seq<nat>)
    ensures len == GroupLengths(sfg, 7)
  {
    len := [1];
    var i := 0;
    while i < 7
      invariant 0 <= i <= 7 && len == GroupLengths(sfg, i)
    {
      if (sfg / Pow2(6 - i)) % 2 == 0 {
        len := len + [1];
      } else {
        len := len[|len| - 1 := len[|len| - 1] + 1];
      }
      i := i + 1;
    }
  }

  // Band offsets of a group: accumulated widths, times the group's length.
  method ShortOffsets(len: nat, ghost w: Window) returns (row: seq<nat>)
    requires w.Short()
    ensures OffsetsOf(w, len, row)
  {
    row := [];
    var offset, i := 0, 0;
    while i < NUM_SWB_SHORT
      invariant 0 <= i <= NUM_SWB_SHORT && |row| == i && offset == len * SWB_SHORT[i]
      invariant forall j: nat :: j < i ==> row[j] == BandOffset(w, len, j)
    {
      var width := (if i + 1 == NUM_SWB_SHORT then 128 - SWB_SHORT[i] else SWB_SHORT[i + 1] - SWB_SHORT[i]) * len;
      Widths(i);
      row := row + [offset];
      assert len * SWB_SHORT[i + 1] == len * SWB_SHORT[i] + (SWB_SHORT[i + 1] - SWB_SHORT[i]) * len;
      offset := offset + width;
      i := i + 1;
    }
    row := row + [offset];
  }

  lemma Widths(i: nat)
    requires i < NUM_SWB_SHORT
    ensures SWB_SHORT[i] < SWB_SHORT[i + 1] && SWB_SHORT[15] == 128
  {
  }

  // window_grouping
  method WindowGrouping(ics: Ics) returns (rc: int)
    requires ics.windowSequence != EIGHT_SHORT ==> ics.sfg == 0
    modifies ics
    ensures ics.Fields() == old(ics.Fields())
    ensures rc == 0 || rc == -1
    ensures rc == 0 <==> ics.maxSfb <= ics.Fields().NumSwb()
    ensures rc == 0 ==> ics.Grouped(ics.Fields())
  {
    ghost var w := ics.Fields();
    if ics.windowSequence == EIGHT_SHORT {
      ics.numWindows := 8;
      ics.numSwb := NUM_SWB_SHORT;
      if ics.maxSfb > ics.numSwb {
        return -1;
      }
      ics.groupLen := ShortGroups(ics.sfg);
      ics.offsets := [];
      var g := 0;
      while g < |ics.groupLen|
        invariant 0 <= g <= |ics.groupLen| && |ics.offsets| == g
        invariant ics.Fields() == w && ics.groupLen == GroupLengths(w.grouping, 7) && ics.numWindows == 8 && ics.numSwb == NUM_SWB_SHORT
        invariant forall k :: 0 <= k < g ==> OffsetsOf(w, ics.groupLen[k], ics.offsets[k])
      {
        var row := ShortOffsets(ics.groupLen[g], w);
        ics.offsets := ics.offsets + [row];
        g := g + 1;
      }
    } else {
      ics.numWindows := 1;
      ics.groupLen := [1];
      ics.numSwb := NUM_SWB_LONG;
      if ics.maxSfb > ics.numSwb {
        return -1;
      }
      ics.offsets := [SWB_LONG];
    }
    rc := 0;
  }

  // ---------- section data ----------

  ghost predicate InBands(maxSfb: nat, secs: seq<Section>) {
    forall i :: 0 <= i < |secs| ==> secs[i].start <= secs[i].end <= maxSfb
  }

  // The escape loop and the last increment.
  method ParseLength(br: BitReader, short: bool) returns (len: int)
    modifies br
    ensures var r := Hdc.Length(short, 0, br.S(), old(br.pos));
      if r.Read? then len == r.value && br.pos == old(br.pos) + r.n else len == -1
  {
    ghost var s, p := br.S(), br.pos;
    var sectBits, sectLim := Hdc.SectBits(short), Hdc.SectLim(short);
    var total: nat := 0;
    var incr := br.ReadBits(sectBits);
    while incr == Hdc.SectEsc(short)
      invariant total <= sectLim && br.pos >= p + sectBits && incr == Num(s, br.pos - sectBits, sectBits)
      invariant Hdc.Length(short, 0, s, p) == match Hdc.Length(short, total, s, br.pos - sectBits)
        case Fail => Fail case Read(v, n) => Read(v, br.pos - sectBits - p + n)
      decreases sectLim - total
    {
      total := total + incr;
      if total > sectLim {
        return -1;
      }
      incr := br.ReadBits(sectBits);
    }
    return total + incr;
  }

  lemma {:induction false} BooksAppend(secs: seq<Section>, sec: Section)
    requires sec.start <= sec.end
    ensures Books(secs + [sec]) == Books(secs) + Repeat(sec.cb, sec.end - sec.start)
    decreases |secs|
  {
    if |secs| == 0 {
      assert [sec][1..] == [];
    } else {
      assert (secs + [sec])[0] == secs[0] && (secs + [sec])[1..] == secs[1..] + [sec];
      BooksAppend(secs[1..], sec);
    }
  }

  // One section: codebook, length, and the checks on both.
  method ParseSection(br: BitReader, short: bool, maxSfb: nat, k: nat) returns (rc: int, sec: Section)
    modifies br
    ensures var r := Hdc.OneSection(short, maxSfb, k, br.S(), old(br.pos));
      (rc == 0 <==> r.Read?) && (rc == 0 || rc == -1) && (rc == 0 ==> sec == r.value && br.pos == old(br.pos) + r.n)
  {
    Hdc.OpenSection(SEALS, short, maxSfb, k, br.S(), br.pos);
    sec := Section(0, k, k);
    var cb := br.ReadBits(4);
    if cb == 12 {
      return -1, sec;
    }
    var len := ParseLength(br, short);
    if len < 0 {
      return -1, sec;
    }
    if len > Hdc.SectLim(short) || k + len > maxSfb {
      return -1, sec;
    }
    return 0, Section(cb, k, k + len);
  }

  ghost predicate GroupFound(maxSfb: nat, secs: seq<Section>, books: seq<nat>) {
    InBands(maxSfb, secs) && |secs| <= Hdc.MAX_SECTIONS && books == Books(secs) && |books| == maxSfb
  }

  // The sections of one group, and the codebook of each of its bands.
  method ParseGroup(br: BitReader, short: bool, maxSfb: nat) returns (rc: int, secs: seq<Section>, books: seq<nat>)
    modifies br
    ensures var r := Hdc.GroupSections(short, maxSfb, br.S(), old(br.pos));
      && (rc == 0 <==> r.Read?) && (rc == 0 || rc == -1)
      && (rc == 0 ==> secs == r.value && br.pos == old(br.pos) + r.n)
    ensures rc == 0 ==> GroupFound(maxSfb, secs, books)
  {
    ghost var s, p := br.S(), br.pos;
    Hdc.OpenGroup(SEALS, short, maxSfb, s, p);
    secs, books := [], [];
    var k: nat, i := 0, 0;
    PrependNothing(Hdc.Sections(short, maxSfb, 0, 0, s, p));
    while k < maxSfb
      invariant 0 <= i <= Hdc.MAX_SECTIONS && k <= maxSfb && |secs| == i && br.pos >= p
      invariant InBands(maxSfb, secs) && books == Books(secs) && |books| == k
      invariant Hdc.Sections(short, maxSfb, 0, 0, s, p) == Prepend(secs, br.pos - p, Hdc.Sections(short, maxSfb, k, i, s, br.pos))
      decreases Hdc.MAX_SECTIONS - i
    {
      if i >= Hdc.MAX_SECTIONS || i >= Hdc.SectLim(short) {
        return -1, secs, books;
      }
      ghost var q, one := br.pos, Hdc.OneSection(short, maxSfb, k, s, br.pos);
      var sec;
      rc, sec := ParseSection(br, short, maxSfb, k);
      if rc < 0 {
        return -1, secs, books;
      }
      PrependTwice(secs, q - p, sec, one.n, Hdc.Sections(short, maxSfb, sec.end, i + 1, s, br.pos));
      BooksAppend(secs, sec);
      books := books + Repeat(sec.cb, sec.end - sec.start);
      secs := secs + [sec];
      k := sec.end;
      i := i + 1;
    }
    rc := 0;
  }

  ghost predicate Sectioned(ics: Ics, groups: nat, maxSfb: nat)
    reads ics
  {
    && |ics.sections| == |ics.books| == groups
    && forall g :: 0 <= g < groups ==> GroupFound(maxSfb, ics.sections[g], ics.books[g])
  }

  // parse_section_data
  method ParseSectionData(br: BitReader, ics: Ics) returns (rc: int)
    requires ics.Grouped(ics.Fields())
    modifies br, ics`sections, ics`books
    ensures var w := ics.Fields();
      var r := Hdc.SectionData(w.Short(), w.maxSfb, |w.Groups()|, br.S(), old(br.pos));
      && (rc == 0 <==> r.Read?) && (rc == 0 || rc == -1)
      && (rc == 0 ==> ics.sections == r.value && br.pos == old(br.pos) + r.n && Sectioned(ics, |w.Groups()|, w.maxSfb))
  {
    ghost var s, p, groups := br.S(), br.pos, |ics.groupLen|;
    var short := ics.windowSequence == EIGHT_SHORT;
    ics.sections, ics.books := [], [];
    var g := 0;
    PrependNothing(Hdc.SectionData(short, ics.maxSfb, groups, s, p));
    while g < |ics.groupLen|
      invariant 0 <= g <= groups && br.pos >= p && Sectioned(ics, g, ics.maxSfb)
      invariant Hdc.SectionData(short, ics.maxSfb, groups, s, p)
        == Prepend(ics.sections, br.pos - p, Hdc.SectionData(short, ics.maxSfb, groups - g, s, br.pos))
    {
      ghost var q, one := br.pos, Hdc.GroupSections(short, ics.maxSfb, s, br.pos);
      var secs, books;
      rc, secs, books := ParseGroup(br, short, ics.maxSfb);
      if rc < 0 {
        return -1;
      }
      PrependTwice(ics.sections, q - p, secs, one.n, Hdc.SectionData(short, ics.maxSfb, groups - g - 1, s, br.pos));
      ics.sections, ics.books := ics.sections + [secs], ics.books + [books];
      g := g + 1;
    }
    rc := 0;
  }

  // ---------- scale factors ----------

  // What one band adds to the items.
  function BandItems(cb: nat, noisy: bool): seq<Item> {
    if cb == ZERO_HCB then [] else if cb == NOISE_HCB && !noisy then [Fixed(9)] else [Scale]
  }

  lemma ScaleStep(books: seq<nat>, noisy: bool)
    requires |books| > 0
    ensures ScaleItems(books, noisy) == BandItems(books[0], noisy) + ScaleItems(books[1..], noisy || books[0] == NOISE_HCB)
  {
  }

  lemma {:induction false} ItemsAppend(h: Tables, a: seq<Item>, b: seq<Item>, s: seq<bool>, p: nat)
    requires h.Valid()
    ensures Items(h, a + b, s, p) == match Items(h, a, s, p) case Fail => Fail case Read(v, n) => Prepend(v, n, Items(h, b, s, p + n))
    decreases |a|
  {
    if |a| == 0 {
      assert [] + b == b;
      PrependNothing(Items(h, b, s, p));
    } else {
      assert (a + b)[0] == a[0] && (a + b)[1..] == a[1..] + b;
      var one := One(h, a[0], s, p);
      if one.Read? {
        ItemsAppend(h, a[1..], b, s, p + one.n);
        var rest := Items(h, a[1..], s, p + one.n);
        if rest.Read? { PrependJoin([one.value], one.n, rest.value, rest.n, Items(h, b, s, p + one.n + rest.n)); }
      }
    }
  }

  lemma PrependJoin<V>(a: seq<V>, n: nat, b: seq<V>, m: nat, r: Parse<seq<V>>)
    ensures Prepend(a, n, Prepend(b, m, r)) == Prepend(a + b, n + m, r)
  {
    if r.Read? { assert a + (b + r.value) == a + b + r.value; }
  }

  // all from p on reads as done so far, n bits, and then what remains.
  ghost predicate Pending(h: Tables, all: seq<Item>, done: seq<Value>, rest: seq<Item>, s: seq<bool>, p: nat, q: nat) {
    h.Valid() && p <= q && Items(h, all, s, p) == Prepend(done, q - p, Items(h, rest, s, q))
  }

  lemma PendingMore(h: Tables, all: seq<Item>, done: seq<Value>, a: seq<Item>, b: seq<Item>, s: seq<bool>, p: nat, q: nat)
    requires Pending(h, all, done, a + b, s, p, q)
    ensures var r := Items(h, a, s, q);
      if r.Read? then Pending(h, all, done + r.value, b, s, p, q + r.n) else Items(h, all, s, p) == Fail
  {
    ItemsAppend(h, a, b, s, q);
    var r := Items(h, a, s, q);
    JoinAfter(Items(h, all, s, p), done, q - p, Items(h, a + b, s, q), r, Items(h, b, s, q + if r.Read? then r.n else 0));
  }

  lemma JoinAfter<V>(x: Parse<seq<V>>, done: seq<V>, d: nat, whole: Parse<seq<V>>, r: Parse<seq<V>>, later: Parse<seq<V>>)
    requires x == Prepend(done, d, whole)
    requires whole == match r case Fail => Fail case Read(v, n) => Prepend(v, n, later)
    ensures if r.Read? then x == Prepend(done + r.value, d + r.n, later) else x == Fail
  {
    if r.Read? { PrependJoin(done, d, r.value, r.n, later); }
  }

  lemma SingleItem(h: Tables, item: Item, s: seq<bool>, p: nat)
    requires h.Valid()
    ensures Items(h, [item], s, p) == match One(h, item, s, p) case Fail => Fail case Read(v, n) => Read([v], n)
  {
    assert [item][1..] == [];
    assert Items(h, [], s, p) == Read([], 0);
    var one := One(h, item, s, p);
    if one.Read? { assert [one.value] + [] == [one.value]; }
  }

  // The switch on the codebook of a band.
  method ConsumeBand(h: Tables, br: BitReader, cb: nat, noisy: bool) returns (rc: int)
    requires h.Valid()
    modifies br
    ensures var r := Items(h, BandItems(cb, noisy), br.S(), old(br.pos));
      (rc == 0 <==> r.Read?) && (rc == 0 || rc == -1) && (rc == 0 ==> br.pos == old(br.pos) + r.n)
  {
    if cb == ZERO_HCB {
      return 0;
    }
    if cb == NOISE_HCB && !noisy {
      OpenItem(SEALS, h, Fixed(9), br.S(), br.pos);
      SingleItem(h, Fixed(9), br.S(), br.pos);
      br.Skip(9);
      return 0;
    }
    SingleItem(h, Scale, br.S(), br.pos);
    rc := ConsumeSf(h, br);
  }

  // parse_scale_factors
  method ParseScaleFactors(h: Tables, br: BitReader, ics: Ics) returns (rc: int)
    requires h.Valid() && Sectioned(ics, |ics.sections|, ics.maxSfb)
    modifies br
    ensures var r := Items(h, ScaleList(ics.sections), br.S(), old(br.pos));
      (rc == 0 <==> r.Read?) && (rc == 0 || rc == -1) && (rc == 0 ==> br.pos == old(br.pos) + r.n)
  {
    ghost var s, p := br.S(), br.pos;
    ghost var all := ScaleList(ics.sections);
    ghost var done: seq<Value> := [];
    OpenScales(SEALS, ics.sections);
    PrependNothing(Items(h, all, s, p));
    assert ics.sections[0..] == ics.sections;
    var noisy, g := false, 0;
    while g < |ics.books|
      invariant 0 <= g <= |ics.books|
      invariant Pending(h, all, done, ScaleItems(AllBooks(ics.sections[g..]), noisy), s, p, br.pos)
    {
      ghost var later := AllBooks(ics.sections[g + 1..]);
      assert ics.sections[g..][0] == ics.sections[g] && ics.sections[g..][1..] == ics.sections[g + 1..];
      var book := ics.books[g];
      assert book[0..] == book;
      rc, noisy, done := ParseGroupScales(h, br, book, noisy, all, done, later, p);
      if rc < 0 {
        return -1;
      }
      g := g + 1;
    }
    assert AllBooks(ics.sections[g..]) == [];
    rc := 0;
  }

  // The bands of one group; later holds the codebooks of the groups after it.
  method ParseGroupScales(h: Tables, br: BitReader, book: seq<nat>, was: bool, ghost all: seq<Item>, ghost before: seq<Value>,
                          ghost later: seq<nat>, ghost p: nat)
    returns (rc: int, noisy: bool, ghost done: seq<Value>)
    requires Pending(h, all, before, ScaleItems(book + later, was), br.S(), p, br.pos)
    modifies br
    ensures rc == 0 || rc == -1
    ensures if rc == 0 then Pending(h, all, done, ScaleItems(later, noisy), br.S(), p, br.pos) else Items(h, all, br.S(), p) == Fail
  {
    done := before;
    noisy := was;
    assert book[0..] == book;
    var sfb := 0;
    while sfb < |book|
      invariant 0 <= sfb <= |book|
      invariant Pending(h, all, done, ScaleItems(book[sfb..] + later, noisy), br.S(), p, br.pos)
    {
      ghost var rest := book[sfb..] + later;
      assert rest[0] == book[sfb] && rest[1..] == book[sfb + 1..] + later;
      ScaleStep(rest, noisy);
      ghost var items := BandItems(book[sfb], noisy);
      ghost var now := noisy || book[sfb] == NOISE_HCB;
      PendingMore(h, all, done, items, ScaleItems(rest[1..], now), br.S(), p, br.pos);
      done := done + var r := Items(h, items, br.S(), br.pos); if r.Read? then r.value else [];
      rc := ConsumeBand(h, br, book[sfb], noisy);
      if rc < 0 {
        return;
      }
      noisy := noisy || book[sfb] == NOISE_HCB;
      sfb := sfb + 1;
    }
    assert book[sfb..] + later == later;
    rc := 0;
  }

  // ---------- spectral data ----------

  // How spectral data is consumed: codeword by codeword, none past the end.
  ghost predicate Consumed(h: Tables, items: seq<Item>, s: seq<bool>, p: nat, rc: int, q: nat)
    requires h.Valid()
  {
    var r := Items(h, items, s, p);
    && (rc == 0 || rc == -1)
    && (rc == 0 <==> r.Read? && (|items| > 0 ==> p + r.n <= |s|))
    && (rc == 0 ==> q == p + r.n)
  }

  // One codeword, checked against the end.
  method ConsumeChecked(h: Tables, br: BitReader, cb: nat) returns (rc: int)
    requires h.Valid()
    modifies br
    ensures Consumed(h, [Spectral(cb)], br.S(), old(br.pos), rc, br.pos)
  {
    OpenItem(SEALS, h, Spectral(cb), br.S(), br.pos);
    SingleItem(h, Spectral(cb), br.S(), br.pos);
    rc := ConsumeCodeword(h, cb, br);
    if rc < 0 {
      return -1;
    }
    if br.Overrun() {
      return -1;
    }
  }

  lemma ConsumedJoin(h: Tables, a: seq<Item>, b: seq<Item>, s: seq<bool>, p: nat, q: nat, rc: int, end: nat)
    requires h.Valid() && Consumed(h, a, s, p, 0, q) && Consumed(h, b, s, q, rc, end)
    ensures Consumed(h, a + b, s, p, rc, end)
  {
    ItemsAppend(h, a, b, s, p);
  }

  lemma ConsumedFails(h: Tables, a: seq<Item>, b: seq<Item>, s: seq<bool>, p: nat, q: nat)
    requires h.Valid() && Consumed(h, a, s, p, -1, q)
    ensures Consumed(h, a + b, s, p, -1, q)
  {
    ItemsAppend(h, a, b, s, p);
    if Items(h, a, s, p).Fail? { assert a != []; }
  }

  // One more piece of total: either it is consumed too, or total cannot be.
  lemma ConsumedNext(h: Tables, total: seq<Item>, done: seq<Item>, piece: seq<Item>, later: seq<Item>,
                     s: seq<bool>, p: nat, q: nat, rc: int, end: nat)
    requires h.Valid() && Consumed(h, done, s, p, 0, q) && Consumed(h, piece, s, q, rc, end)
    requires total == done + (piece + later)
    ensures total == done + piece + later
    ensures rc == 0 ==> Consumed(h, done + piece, s, p, 0, end)
    ensures rc != 0 ==> Consumed(h, total, s, p, -1, end)
  {
    assert done + (piece + later) == done + piece + later;
    ConsumedJoin(h, done, piece, s, p, q, rc, end);
    if rc != 0 { ConsumedFails(h, done + piece, later, s, p, end); }
  }

  // The loop over the coefficients of one section.
  method ConsumeSection(h: Tables, br: BitReader, cb: nat, start: nat, end: nat) returns (rc: int)
    requires h.Valid()
    modifies br
    ensures Consumed(h, Codewords(cb, start, end), br.S(), old(br.pos), rc, br.pos)
  {
    ghost var s, p := br.S(), br.pos;
    ghost var done: seq<Item> := [];
    var k := start;
    while k < end
      invariant Consumed(h, done, s, p, 0, br.pos)
      invariant Codewords(cb, start, end) == done + Codewords(cb, k, end)
      decreases end - k
    {
      ghost var q, later := br.pos, Codewords(cb, k + Step(cb), end);
      rc := ConsumeChecked(h, br, cb);
      ConsumedNext(h, Codewords(cb, start, end), done, [Spectral(cb)], later, s, p, q, rc, br.pos);
      if rc < 0 {
        return -1;
      }
      done := done + [Spectral(cb)];
      k := k + Step(cb);
    }
    assert done + [] == done;
    rc := 0;
  }

  lemma GroupStep(w: Window, len: nat, secs: seq<Section>, i: nat)
    requires i < |secs|
    ensures GroupItems(w, len, secs[i..]) == SectionItems(w, len, secs[i]) + GroupItems(w, len, secs[i + 1..])
  {
    assert secs[i..][0] == secs[i] && secs[i..][1..] == secs[i + 1..];
  }

  // The switch on the codebook of a section.
  method ConsumeOne(h: Tables, br: BitReader, offsets: seq<nat>, sec: Section, ghost w: Window, ghost len: nat) returns (rc: int)
    requires h.Valid() && w.maxSfb <= w.NumSwb() && OffsetsOf(w, len, offsets) && sec.start <= sec.end <= w.maxSfb
    modifies br
    ensures Consumed(h, SectionItems(w, len, sec), br.S(), old(br.pos), rc, br.pos)
  {
    rc := 0;
    if HasSpectrum(sec.cb) {
      rc := ConsumeSection(h, br, sec.cb, offsets[sec.start], offsets[sec.end]);
    }
  }

  // The sections of one group.
  method ConsumeGroup(h: Tables, br: BitReader, offsets: seq<nat>, secs: seq<Section>, ghost w: Window, ghost len: nat) returns (rc: int)
    requires h.Valid() && w.maxSfb <= w.NumSwb() && OffsetsOf(w, len, offsets) && InBands(w.maxSfb, secs)
    modifies br
    ensures Consumed(h, GroupItems(w, len, secs), br.S(), old(br.pos), rc, br.pos)
  {
    ghost var s, p := br.S(), br.pos;
    ghost var done: seq<Item> := [];
    var i := 0;
    assert secs[0..] == secs;
    while i < |secs|
      invariant 0 <= i <= |secs| && Consumed(h, done, s, p, 0, br.pos)
      invariant GroupItems(w, len, secs) == done + GroupItems(w, len, secs[i..])
    {
      ghost var q, items, later := br.pos, SectionItems(w, len, secs[i]), GroupItems(w, len, secs[i + 1..]);
      GroupStep(w, len, secs, i);
      rc := ConsumeOne(h, br, offsets, secs[i], w, len);
      ConsumedNext(h, GroupItems(w, len, secs), done, items, later, s, p, q, rc, br.pos);
      if rc < 0 {
        return -1;
      }
      done := done + items;
      i := i + 1;
    }
    assert done + [] == done;
    rc := 0;
  }

  // parse_spectral_data
  method ParseSpectralData(h: Tables, br: BitReader, ics: Ics) returns (rc: int)
    requires h.Valid() && ics.Grouped(ics.Fields()) && Sectioned(ics, |ics.groupLen|, ics.maxSfb)
    modifies br
    ensures Consumed(h, SpectrumList(ics.Fields(), ics.sections), br.S(), old(br.pos), rc, br.pos)
  {
    ghost var s, p, w, lens := br.S(), br.pos, ics.Fields(), ics.groupLen;
    ghost var done: seq<Item> := [];
    OpenSpectrum(SEALS, w, ics.sections);
    var g := 0;
    assert ics.sections[0..] == ics.sections && lens[0..] == lens;
    while g < |ics.groupLen|
      invariant 0 <= g <= |lens| && Consumed(h, done, s, p, 0, br.pos)
      invariant SpectrumItems(w, lens, ics.sections) == done + SpectrumItems(w, lens[g..], ics.sections[g..])
    {
      ghost var q, items := br.pos, GroupItems(w, lens[g], ics.sections[g]);
      ghost var later := SpectrumItems(w, lens[g + 1..], ics.sections[g + 1..]);
      SpectrumStep(w, lens, ics.sections, g);
      rc := ConsumeGroup(h, br, ics.offsets[g], ics.sections[g], w, lens[g]);
      ConsumedNext(h, SpectrumItems(w, lens, ics.sections), done, items, later, s, p, q, rc, br.pos);
      if rc < 0 {
        return -1;
      }
      done := done + items;
      g := g + 1;
    }
    assert done + [] == done;
    rc := 0;
  }

  lemma SpectrumStep(w: Window, lens: seq<nat>, groups: seq<seq<Section>>, g: nat)
    requires g < |lens| == |groups|
    ensures SpectrumItems(w, lens[g..], groups[g..])
      == GroupItems(w, lens[g], groups[g]) + SpectrumItems(w, lens[g + 1..], groups[g + 1..])
  {
    assert lens[g..][0] == lens[g] && lens[g..][1..] == lens[g + 1..];
    assert groups[g..][0] == groups[g] && groups[g..][1..] == groups[g + 1..];
  }

  // ---------- noise shaping ----------

  // The coefficients of one filter.
  method ConsumeCoefs(h: Tables, br: BitReader, bits: nat, order: nat)
    requires h.Valid()
    modifies br
    ensures var r := Items(h, Repeat(Fixed(bits), order), br.S(), old(br.pos)); r.Read? && br.pos == old(br.pos) + r.n
  {
    ghost var s, p := br.S(), br.pos;
    ghost var all := Repeat(Fixed(bits), order);
    ghost var done: seq<Value> := [];
    PrependNothing(Items(h, all, s, p));
    var j := 0;
    while j < order
      invariant 0 <= j <= order && Pending(h, all, done, Repeat(Fixed(bits), order - j), s, p, br.pos)
    {
      ghost var item := Fixed(bits);
      OpenItem(SEALS, h, item, s, br.pos);
      SingleItem(h, item, s, br.pos);
      PendingMore(h, all, done, [item], Repeat(item, order - j - 1), s, p, br.pos);
      done := done + [Number(Num(s, br.pos, bits))];
      br.Skip(bits);
      j := j + 1;
    }
  }

  // One filter of a window.
  method ConsumeFilter(h: Tables, br: BitReader, short: bool, coefRes: nat)
    requires h.Valid()
    modifies br
    ensures var r := OneFilter(h, short, coefRes, br.S(), old(br.pos)); r.Read? && br.pos == old(br.pos) + r.n
  {
    OpenFilter(SEALS, h, short, coefRes, br.S(), br.pos);
    br.Skip(LengthBits(short));
    var order := br.ReadBits(OrderBits(short));
    if order > 0 {
      br.Skip(1);
      var compress := br.ReadBits(1);
      ConsumeCoefs(h, br, 3 + coefRes - compress, order);
    }
  }

  // What follows the number of filters of a window.
  method ConsumeShaping(h: Tables, br: BitReader, short: bool, filters: nat)
    requires h.Valid()
    modifies br
    ensures var r := ShapingData(h, short, filters, br.S(), old(br.pos)); r.Read? && br.pos == old(br.pos) + r.n
  {
    if filters == 0 {
      return;
    }
    var coefRes := br.ReadBits(1);
    ghost var s, p := br.S(), br.pos;
    ghost var done: seq<Filter> := [];
    PrependNothing(Filters(h, short, coefRes, filters, s, p));
    var f := 0;
    while f < filters
      invariant 0 <= f <= filters && br.pos >= p
      invariant Filters(h, short, coefRes, filters, s, p) == Prepend(done, br.pos - p, Filters(h, short, coefRes, filters - f, s, br.pos))
    {
      ghost var q, one := br.pos, OneFilter(h, short, coefRes, s, br.pos);
      ConsumeFilter(h, br, short, coefRes);
      PrependTwice(done, q - p, one.value, one.n, Filters(h, short, coefRes, filters - f - 1, s, br.pos));
      done := done + [one.value];
      f := f + 1;
    }
  }

  // One window: its number of filters, if stated, and the filters.
  method ConsumeWindow(h: Tables, br: BitReader, short: bool) returns (rc: int)
    requires h.Valid()
    modifies br
    ensures var r := Hdc.OneWindow(h, short, br.S(), old(br.pos));
      (rc == 0 <==> r.Read?) && (rc == 0 || rc == -1) && (rc == 0 ==> br.pos == old(br.pos) + r.n)
  {
    Hdc.OpenWindow(SEALS, h, short, br.S(), br.pos);
    var filters := 1;
    if short {
      filters := br.ReadBits(1);
    }
    ConsumeShaping(h, br, short, filters);
    if br.Overrun() {
      return -1;
    }
    rc := 0;
  }

  // parse_tns_hdc
  method ParseTns(h: Tables, br: BitReader, ics: Ics) returns (rc: int, from: nat, to: nat, longSkip: bool)
    requires h.Valid() && ics.Grouped(ics.Fields())
    modifies br
    ensures var w := ics.Fields();
      var r := Hdc.TnsWindows(h, w.Short(), ics.numWindows, br.S(), old(br.pos));
      && (rc == 0 <==> r.Read?) && (rc == 0 || rc == -1)
      && (rc == 0 ==> from == old(br.pos) && to == br.pos == from + r.n && longSkip == !w.Short())
  {
    ghost var s, p := br.S(), br.pos;
    var short := ics.windowSequence == EIGHT_SHORT;
    from, to, longSkip := br.pos, br.pos, false;
    ghost var done: seq<Shaping> := [];
    PrependNothing(Hdc.TnsWindows(h, short, ics.numWindows, s, p));
    var w := 0;
    while w < ics.numWindows
      invariant 0 <= w <= ics.numWindows && br.pos >= p && longSkip == (w > 0 && !short)
      invariant Hdc.TnsWindows(h, short, ics.numWindows, s, p)
        == Prepend(done, br.pos - p, Hdc.TnsWindows(h, short, ics.numWindows - w, s, br.pos))
    {
      if !short {
        longSkip := true;
      }
      ghost var q, one := br.pos, Hdc.OneWindow(h, short, s, br.pos);
      rc := ConsumeWindow(h, br, short);
      if rc < 0 {
        return;
      }
      PrependTwice(done, q - p, one.value, one.n, Hdc.TnsWindows(h, short, ics.numWindows - w - 1, s, br.pos));
      done := done + [one.value];
      w := w + 1;
    }
    to := br.pos;
    rc := 0;
  }

  // ---------- channels ----------

  // channel_span_t
  datatype ChannelSpan = ChannelSpan(ggPos: nat, secsfFrom: nat, secsfTo: nat, specFrom: nat, specTo: nat)

  // The span record of a channel the specification placed.
  ghost predicate SpanOf(span: ChannelSpan, placed: Hdc.Placed) {
    && span.ggPos == placed.at
    && span.secsfFrom == placed.at + 8 && span.secsfTo == span.specFrom == placed.at + 8 + placed.codingLen
    && span.specTo == placed.at + 8 + placed.codingLen + placed.specLen
  }

  // parse_channel
  method ParseChannel(h: Tables, br: BitReader, ics: Ics) returns (rc: int, ch: ChannelSpan)
    requires h.Valid() && ics.Grouped(ics.Fields())
    modifies br, ics`sections, ics`books
    ensures var r := Hdc.ChannelData(h, ics.Fields(), br.S(), old(br.pos));
      && (rc == 0 <==> r.Read?) && (rc == 0 || rc == -1)
      && (rc == 0 ==> SpanOf(ch, r.value) && br.pos == old(br.pos) + r.n)
  {
    Hdc.OpenChannel(SEALS, h, ics.Fields(), br.S(), br.pos);
    var ggPos := br.pos;
    ch := ChannelSpan(ggPos, 0, 0, 0, 0);
    br.Skip(8);
    var secsfFrom := br.pos;
    rc := ParseSectionData(br, ics);
    if rc < 0 {
      return;
    }
    rc := ParseScaleFactors(h, br, ics);
    if rc < 0 {
      return;
    }
    var secsfTo := br.pos;
    rc := ParseSpectralData(h, br, ics);
    if rc < 0 {
      return;
    }
    ch := ChannelSpan(ggPos, secsfFrom, secsfTo, secsfTo, br.pos);
  }
}
