/** From the FM encoder to the decoded bits (src/decode.c:296-437, 451-472). The sender
    is described cell by cell, and bit by bit for interleaver IV, with the inverses of
    the receiver's formulas; what it sends is returned. */
module FmChain {
  import opened Basics
  import opened Arith
  import opened FmInterleaver
  import opened RoundTrip
  import opened TailBiting
  import opened ConvStreams
  import ConvFrames
  import Iv = InterleaverIv

  // A soft bit received for a code bit, whatever its loudness.
  predicate Says(x: int, bit: int) { -127 <= x <= 127 && if bit == 1 then x > 0 else x < 0 }

  // ---------- P1 and PIDS ----------

  // The five outputs of six that are sent, in order: output number k.
  function FmCoded(u: seq<int>, k: nat): int
    requires 8 <= |u| && 2 * k < 5 * |u|
  {
    var v := k % 5;
    Stream(Fm, u, 2 * (k / 5) + (if v < 3 then 0 else 1), if v < 3 then v else v - 3)
  }

  lemma FmIndex(len: nat, k: nat)
    requires 2 * k < 5 * len
    ensures 2 * (k / 5) + (if k % 5 < 3 then 0 else 1) < len
  {
  }

  ghost predicate IsFmFrames(u: seq<int>, pids: seq<seq<int>>) {
    && |u| == P1_LEN && Bits(u) && |pids| == 16 && forall bc :: 0 <= bc < 16 ==> |pids[bc]| == PIDS_LEN && Bits(pids[bc])
  }

  // Cell c of the matrix carries the output that its place stands for: one of P1 in
  // the rounds below 1142, or of the PIDS frame of its block.
  ghost predicate FmCellSent(u: seq<int>, pids: seq<seq<int>>, cells: seq<int>, c: nat)
    requires IsFmFrames(u, pids) && |cells| == CELLS && c < CELLS
  {
    EveryCellRead(c);
    var p := SpotOf(c);
    if p.OfP1() then Says(cells[c], FmCoded(u, p.P1Index()))
    else Says(cells[c], FmCoded(pids[p.PidsIndex() / PIDS_ENCODED], p.PidsIndex() % PIDS_ENCODED))
  }

  ghost predicate FmSent(u: seq<int>, pids: seq<seq<int>>, cells: seq<int>) {
    IsFmFrames(u, pids) && |cells| == CELLS && forall c: nat :: c < CELLS ==> FmCellSent(u, pids, cells, c)
  }

  lemma {:induction false} P1BitsAt(cells: seq<int>, n: nat, k: nat)
    requires |cells| == CELLS && k < n <= P1_ENCODED
    ensures P1Cell(k) < CELLS && P1Bits(cells, n)[k] == cells[P1Cell(k)]
  {
    P1Places(k);
    if k < n - 1 { P1BitsAt(cells, n - 1, k); }
  }

  lemma {:induction false} PidsBitsAt(cells: seq<int>, bc: nat, n: nat, k: nat)
    requires |cells| == CELLS && bc < 16 && k < n <= PIDS_ENCODED
    ensures PidsCell(PIDS_ENCODED * bc + k) < CELLS && PidsBits(cells, bc, n)[k] == cells[PidsCell(PIDS_ENCODED * bc + k)]
  {
    PidsPlaces(PIDS_ENCODED * bc + k);
    if k < n - 1 { PidsBitsAt(cells, bc, n - 1, k); }
  }

  lemma P1Received(u: seq<int>, pids: seq<seq<int>>, cells: seq<int>, k: nat)
    requires FmSent(u, pids, cells) && k < P1_ENCODED
    ensures Says(P1Bits(cells, P1_ENCODED)[k], FmCoded(u, k))
  {
    P1Places(k);
    P1BitsAt(cells, P1_ENCODED, k);
    assert FmCellSent(u, pids, cells, P1Cell(k));
  }

  lemma PidsReceived(u: seq<int>, pids: seq<seq<int>>, cells: seq<int>, bc: nat, k: nat)
    requires FmSent(u, pids, cells) && bc < 16 && k < PIDS_ENCODED
    ensures Says(PidsBits(cells, bc, PIDS_ENCODED)[k], FmCoded(pids[bc], k))
  {
    var i := PIDS_ENCODED * bc + k;
    PidsPlaces(i);
    PidsBitsAt(cells, bc, PIDS_ENCODED, k);
    assert FmCellSent(u, pids, cells, PidsCell(i));
    DivUnique(i, PIDS_ENCODED, bc, k);
  }

  /** Soft bits for the outputs that are sent, spread out, are a frame that carries
      the bits. */
  lemma SpreadCarries(u: seq<int>, xs: seq<int>, out: seq<int>)
    requires Bits(u) && 32 <= |u| && |u| % 2 == 0 && 2 * |xs| == 5 * |u| && |out| == 3 * |u| && Spread(out, xs)
    requires forall k: nat :: k < |xs| ==> Says(xs[k], FmCoded(u, k))
    ensures Carries(Fm, u, out)
  {
    forall j: nat, m: nat | j < |u| && m < 3 ensures CarriesAt(Fm, u, out, j, m) {
      DivUnique(3 * j + m, 6, j / 2, 3 * (j % 2) + m);
      DivUnique(|xs|, 5, |u| / 2, 0);
      if Sent(Fm, j, m) {
        var v := 3 * (j % 2) + m;
        var k := 5 * (j / 2) + v;
        DivUnique(k, 5, j / 2, v);
        assert out[OutAt(k)] == xs[k];
        assert FmCoded(u, k) == Stream(Fm, u, j, m);
      }
    }
  }

  /** decode_process_p1: what was sent for P1 comes out, whatever the loudness of the
      soft bits and whatever was sent for PIDS. */
  method DecodeP1(cells: array<int>, viterbi: array<int>) returns (out: array<int>)
    requires cells.Length == CELLS && viterbi.Length == 3 * P1_LEN && cells != viterbi
    requires forall c :: 0 <= c < CELLS ==> -127 <= cells[c] <= 127
    modifies viterbi
    ensures fresh(out) && out.Length == P1_LEN
    ensures forall u, pids :: FmSent(u, pids, cells[..]) ==> out[..] == u
  {
    InterleaverI(cells, viterbi);
    ghost var xs, input := P1Bits(cells[..], P1_ENCODED), viterbi[..];
    forall k: nat | k < P1_ENCODED ensures -127 <= xs[k] <= 127 { P1BitsAt(cells[..], P1_ENCODED, k); }
    SpreadIsDepunctured(input, xs, P1_LEN);
    out := ConvFrames.DecodeInput(Fm, viterbi[..], P1_LEN);
    forall u, pids | FmSent(u, pids, cells[..]) ensures out[..] == u {
      forall k: nat | k < |xs| ensures Says(xs[k], FmCoded(u, k)) { P1Received(u, pids, cells[..], k); }
      SpreadCarries(u, xs, input);
    }
  }

  /** decode_process_pids: and so does what was sent for PIDS in block bc. */
  method DecodePids(cells: array<int>, bc: nat, viterbi: array<int>) returns (out: array<int>)
    requires cells.Length == CELLS && bc < 16 && viterbi.Length == 3 * PIDS_LEN && cells != viterbi
    requires forall c :: 0 <= c < CELLS ==> -127 <= cells[c] <= 127
    modifies viterbi
    ensures fresh(out) && out.Length == PIDS_LEN
    ensures forall u, pids :: FmSent(u, pids, cells[..]) ==> out[..] == pids[bc]
  {
    InterleaverII(cells, viterbi, bc);
    ghost var xs, input := PidsBits(cells[..], bc, PIDS_ENCODED), viterbi[..];
    forall k: nat | k < PIDS_ENCODED ensures -127 <= xs[k] <= 127 { PidsBitsAt(cells[..], bc, PIDS_ENCODED, k); }
    SpreadIsDepunctured(input, xs, PIDS_LEN);
    out := ConvFrames.DecodeInput(Fm, viterbi[..], PIDS_LEN);
    forall u, pids | FmSent(u, pids, cells[..]) ensures out[..] == pids[bc] {
      forall k: nat | k < |xs| ensures Says(xs[k], FmCoded(pids[bc], k)) { PidsReceived(u, pids, cells[..], bc, k); }
      SpreadCarries(pids[bc], xs, input);
    }
  }

  const FIRST_P1: seq<nat> := [
    138600, 322632, 323208, 230616, 46584, 184608, 576, 0, 92592, 276624,
    299916, 115308, 115884, 23292, 207900, 345924, 161892, 161316, 253908, 69300]
  const FIRST_PIDS: seq<nat> := [
    13321, 13033, 13609, 13177, 13465, 13249, 13537, 12961, 13393, 13105,
    13357, 13069, 13645, 13213, 13501, 13285, 13573, 12997, 13429, 13141]

  lemma BlockCell(block: nat, p: nat)
    ensures CellOf(block, p, 0) == 23040 * block + 36 * p
  {
    OpenCell(SEALS, block, p, 0);
  }

  lemma PidsRound(p: nat)
    ensures CellOf(0, p, P1_ROUNDS) == 12961 + 36 * p
  {
    OpenCell(SEALS, 0, p, P1_ROUNDS);
  }

  lemma FirstRow(j: nat, p: nat)
    requires j < 20
    ensures (j / 20 + p * 7) % 16 == (7 * p) % 16 && j / 320 == 0 && j % 20 == j
    ensures j / 200 == 0 && (j / 20) % 10 + P1_ROUNDS == P1_ROUNDS
  {
  }

  lemma RowZero(j: nat, p: nat)
    requires j < 20 && V(j) == p
    ensures P1Cell(j) == 23040 * ((7 * p) % 16) + 36 * p && PidsCell(j) == 12961 + 36 * p
  {
    FirstRow(j, p);
    BlockCell((7 * p) % 16, p);
    PidsRound(p);
  }

  lemma FirstHalf(j: nat)
    requires j < 10
    ensures FIRST_P1[j] == 23040 * ((7 * PM_V[j]) % 16) + 36 * PM_V[j] && FIRST_PIDS[j] == 12961 + 36 * PM_V[j]
  {
  }

  lemma SecondHalf(j: nat)
    requires 10 <= j < 20
    ensures FIRST_P1[j] == 23040 * ((7 * PM_V[j]) % 16) + 36 * PM_V[j] && FIRST_PIDS[j] == 12961 + 36 * PM_V[j]
  {
  }

  lemma PmAt(j: nat)
    requires j < 20
    ensures V(j) == PM_V[j]
  {
    OpenV(SEALS, j);
  }

  /** The cells of the first twenty soft bits of P1 and of the first PIDS frame. */
  lemma FirstCells(j: nat)
    requires j < 20
    ensures P1Cell(j) == FIRST_P1[j] && PidsCell(j) == FIRST_PIDS[j]
  {
    PmAt(j);
    RowZero(j, V(j));
    if j < 10 { FirstHalf(j); } else { SecondHalf(j); }
  }

  // ---------- interleaver IV ----------

  // The four outputs of six that are sent for P3 and P4, in order: output number k.
  function IvCoded(u: seq<int>, k: nat): int
    requires 8 <= |u| && k < 2 * |u|
  {
    var v := k % 2;
    Stream(P3, u, k / 2, 2 * v)
  }

  // frames[f] are the bits decoded at the f-th frame since the reset. Soft bit w of
  // those fed since then is the output that its reading step stands for.
  ghost predicate IvSent(wide: bool, frames: seq<seq<int>>, fed: seq<int>) {
    && (forall f :: 0 <= f < |frames| ==> |frames[f]| == Iv.FrameLen(wide) && Bits(frames[f]))
    && forall w: nat :: w < |fed| && Iv.ReadAt(wide, w) / Iv.Symbols(wide) < |frames| ==> IvBitSent(wide, frames, fed, w)
  }

  ghost predicate IvBitSent(wide: bool, frames: seq<seq<int>>, fed: seq<int>, w: nat)
    requires forall f :: 0 <= f < |frames| ==> |frames[f]| == Iv.FrameLen(wide)
    requires w < |fed| && Iv.ReadAt(wide, w) / Iv.Symbols(wide) < |frames|
  {
    var g, n := Iv.ReadAt(wide, w), Iv.Symbols(wide);
    Says(fed[w], IvCoded(frames[g / n], g % n))
  }

  lemma {:induction false} ReadsAt(wide: bool, fed: seq<int>, start: nat, n: nat, k: nat)
    requires start >= Iv.N(wide) && k < n
    ensures |Iv.Reads(wide, fed, start, n)| == n
    ensures Iv.Reads(wide, fed, start, n)[k] == Iv.Fed(fed, Iv.Source(wide, start + k))
    decreases n
  {
    ReadsLength(wide, fed, start, n);
    ReadsLength(wide, fed, start, n - 1);
    if k < n - 1 { ReadsAt(wide, fed, start, n - 1, k); }
  }

  lemma {:induction false} ReadsLength(wide: bool, fed: seq<int>, start: nat, n: nat)
    requires start >= Iv.N(wide)
    ensures |Iv.Reads(wide, fed, start, n)| == n
  {
    if n > 0 { ReadsLength(wide, fed, start, n - 1); }
  }

  lemma FrameStart(f: nat, n: nat, k: nat)
    requires k < n
    ensures (f * n + k) / n == f && (f * n + k) % n == k
  {
    assert f * n == n * f;
    DivUnique(f * n + k, n, f, k);
  }

  lemma IvReceived(wide: bool, frames: seq<seq<int>>, fed: seq<int>, start: nat, n: nat, f: nat, k: nat)
    requires IvSent(wide, frames, fed) && f < |frames| && k < n == Iv.Symbols(wide) && start == f * n
    requires Iv.N(wide) <= start && |fed| == start + n
    ensures |Iv.Reads(wide, fed, start, n)| == n && Says(Iv.Reads(wide, fed, start, n)[k], IvCoded(frames[f], k))
  {
    ReadsAt(wide, fed, start, n, k);
    FrameStart(f, n, k);
    Iv.SourceIsWritten(wide, start + k);
    var w := Iv.Source(wide, start + k);
    Iv.SourceDetermines(wide, start + k, w);
    assert IvBitSent(wide, frames, fed, w);
  }

  lemma IvSpreadCarries(wide: bool, u: seq<int>, xs: seq<int>, out: seq<int>)
    requires Bits(u) && |u| == Iv.FrameLen(wide) && |xs| == Iv.Symbols(wide) && |out| == 3 * |u|
    requires Iv.Spread(out, xs, 3 * |u|) && forall k: nat :: k < |xs| ==> Says(xs[k], IvCoded(u, k))
    ensures Carries(P3, u, out)
  {
    forall j: nat, m: nat | j < |u| && m < 3 ensures CarriesAt(P3, u, out, j, m) {
      DivUnique(3 * j + m, 6, j / 2, 3 * (j % 2) + m);
      if Sent(P3, j, m) {
        var k := 2 * j + m / 2;
        DivUnique(k, 2, j, m / 2);
        assert Iv.OutAt(k) == 3 * j + m;
        assert out[Iv.OutAt(k)] == xs[k];
      }
    }
  }

  // Frames are taken up whole.
  lemma FedWhole(iv: Iv.Interleaver)
    requires iv.Valid()
    ensures |iv.fed| % Iv.Symbols(iv.wide) == 0
  {
    var n, big := Iv.Symbols(iv.wide), Iv.N(iv.wide);
    assert big == n * 16;
    assert iv.laps * big == n * (16 * iv.laps);
    DivUnique(|iv.fed|, n, 16 * iv.laps + iv.i / n, 0);
  }

  ghost predicate Soft(xs: seq<int>) { forall k :: 0 <= k < |xs| ==> -127 <= xs[k] <= 127 }

  lemma ReadsAreSoft(wide: bool, fed: seq<int>, start: nat, n: nat)
    requires start >= Iv.N(wide) && Soft(fed)
    ensures |Iv.Reads(wide, fed, start, n)| == n && Soft(Iv.Reads(wide, fed, start, n))
  {
    ReadsLength(wide, fed, start, n);
    forall k: nat | k < n ensures -127 <= Iv.Reads(wide, fed, start, n)[k] <= 127 { ReadsAt(wide, fed, start, n, k); }
  }

  /** The decoding in decode_push_px1 and decode_push_px2, of what Push has left: once
      a lap has passed, what was sent comes out frame by frame. */
  method DecodeIv(wide: bool, viterbi: seq<int>, ghost fed: seq<int>, ghost start: nat) returns (out: array<int>)
    requires Iv.N(wide) <= start && start % Iv.Symbols(wide) == 0 && |fed| == start + Iv.Symbols(wide) && Soft(fed)
    requires 3 * Iv.FrameLen(wide) <= |viterbi|
    requires Iv.Spread(viterbi, Iv.Reads(wide, fed, start, Iv.Symbols(wide)), 3 * Iv.FrameLen(wide))
    ensures fresh(out) && out.Length == Iv.FrameLen(wide)
    ensures forall frames :: IvSent(wide, frames, fed) && start / Iv.Symbols(wide) < |frames| ==>
      out[..] == frames[start / Iv.Symbols(wide)]
  {
    var len := Iv.FrameLen(wide);
    ghost var n, f := Iv.Symbols(wide), start / Iv.Symbols(wide);
    ghost var xs := Iv.Reads(wide, fed, start, n);
    ReadsAreSoft(wide, fed, start, n);
    Iv.SpreadIsDepunctured(viterbi, xs, wide);
    out := ConvFrames.DecodeInput(P3, viterbi[..3 * len], len);
    ghost var got := out[..];
    forall frames | IvSent(wide, frames, fed) && f < |frames| ensures got == frames[f] {
      FrameReceived(wide, viterbi, fed, start, frames);
    }
  }

  lemma FrameReceived(wide: bool, viterbi: seq<int>, fed: seq<int>, start: nat, frames: seq<seq<int>>)
    requires Iv.N(wide) <= start && start % Iv.Symbols(wide) == 0 && |fed| == start + Iv.Symbols(wide)
    requires 3 * Iv.FrameLen(wide) <= |viterbi|
    requires Iv.Spread(viterbi, Iv.Reads(wide, fed, start, Iv.Symbols(wide)), 3 * Iv.FrameLen(wide))
    requires IvSent(wide, frames, fed) && start / Iv.Symbols(wide) < |frames|
    ensures |frames[start / Iv.Symbols(wide)]| == Iv.FrameLen(wide)
    ensures Carries(P3, frames[start / Iv.Symbols(wide)], viterbi[..3 * Iv.FrameLen(wide)])
  {
    var n, f := Iv.Symbols(wide), start / Iv.Symbols(wide);
    var xs := Iv.Reads(wide, fed, start, n);
    assert start == f * n;
    AllReceived(wide, frames, fed, start, n, f, xs);
    IvSpreadCarries(wide, frames[f], xs, viterbi[..3 * Iv.FrameLen(wide)]);
  }

  lemma AllReceived(wide: bool, frames: seq<seq<int>>, fed: seq<int>, start: nat, n: nat, f: nat, xs: seq<int>)
    requires IvSent(wide, frames, fed) && f < |frames| && n == Iv.Symbols(wide) && start == f * n
    requires Iv.N(wide) <= start && |fed| == start + n && xs == Iv.Reads(wide, fed, start, n)
    ensures |xs| == n && |frames[f]| == Iv.FrameLen(wide) && Bits(frames[f])
    ensures forall k: nat :: k < n ==> Says(xs[k], IvCoded(frames[f], k))
  {
    ReadsLength(wide, fed, start, n);
    forall k: nat | k < n ensures Says(xs[k], IvCoded(frames[f], k)) { IvReceived(wide, frames, fed, start, n, f, k); }
  }
}
