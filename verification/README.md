# nrsc5 in Dafny

A model of the exact parts of the nrsc5 HD Radio receiver, behind its floating-point
front end, and proofs about it. One module per file; a module's header names the source
lines it models. Loops and in-place updates of the C code are methods over arrays and
classes, each proved against a specification; the theorems are lemmas about the
specifications and about the state of the classes.

- **Reed-Solomon decoder** (Gf256, Field, RsTables, RsDecode, RsSteps, RsShortest, RsForney,
  RsCorrect, RsWords, RsAccept, RsAlgebra, RsCodec, RsGenerator). GF(256) is defined by carry-less multiplication; the
  log tables are proved to implement it. Berlekamp-Massey, Chien search and Forney's formula are
  the loops of the source, and together restore any word within four symbols of a codeword.
- **Viterbi decoder** (Trellis, Metrics, MetricRefinement, Viterbi, ViterbiDecoder, TailBiting,
  RoundTrip, ConvStreams, ConvFrames). Paths of a trellis and their correlation are the
  specification; the 16-bit machine refines exact integers, its output is maximum-likelihood, and
  noise-free frames are returned as sent, where what is sent is written out bit by bit.
- **HDC to AAC remuxer** (Bits, Huffman, AacSyntax, HdcSyntax, AacStream, RawBlock, Transcode,
  BitIo, HdcParser, Remuxer, Trie). Two grammars: the one the remuxer reads, with its limits, and
  the raw data block of ISO/IEC 14496-3. What is written means what was read. A sender
  (AacSender, WindowSender, FrameSender) lays a frame out in both with every width and count
  written out apart from the grammars: both readers find it, and the remuxer turns the one into
  the other bit for bit. The Huffman tables are any that the table generator builds.
- **Interleavers** (InterleaverIv, FmInterleaver, AmInterleaver, AmDecoder, AmSide). Each index
  formula is given an explicit inverse; from these follow exactly-once reading, partition of the
  matrices, round trips and the three-frame diversity delay. FmChain, AmChain and AmSideChain go
  on from the sender's bits through matrix, deinterleaver and decoder back to the bits.
- **Frame layer** (Crc, Hdlc, AudioPdu, AudioSender). Checksums, HDLC framing in chunks, and the
  splitting of a layer-2 PDU into audio packets, against a sender that lays one out.
- **Output** (Elastic, ElasticQueue, Lot, LotSender). The elastic buffer as a queue, and file reassembly.
- **Recorder and audio queue** (Recorder, AudioBuffers, AudioQueue, AudioThreads). Overlapping recordings cut
  from one stream, and the shared buffer pool as linked lists and as a protocol of threads.

Input and output are values here: files and reports are sequences that grow, random choices of
the scheduler are the order of the steps.

## Findings

Places where the code does less than its comments or its standards promise. A lemma or
contract says exactly when all is well.

- The comment at `src/rs_init.c:76` calls the test there a test of primitivity. It accepts 0x11b,
  which is not primitive (Gf256.NonPrimitiveAccepted, AcceptedIsPrimitiveIff). The polynomial in
  use is primitive.
- The decoder does not compare the degree of the locator with the length of the register
  (`src/rs_decode.c:152-158`). A word near no codeword is accepted whenever the locator has as
  many roots as its degree; the result is a codeword if and only if that degree is the length
  (RsCodec.Correct). A header is shown that is accepted unchanged and is not valid
  (RsCodec.FarHeaderAccepted).
- The Kraft check of `support/hdc2aac/gen_hcb_trees.py:211-214` should hold exactly for complete
  codes. Its tolerance admits incomplete codes with codewords of 30, 31 or 32 bits; it is exact
  for codewords of at most n bits if and only if n is at most 29 (Trie.KraftCheckMisses,
  KraftExactIff).
- `src/frame.c:353-354` sets bit 5 of an escaped octet where RFC 1662 complements it, so senders
  may escape only octets that have it (Hdlc.UnstuffIff, ControlOctetLost). A frame that ends in
  an escape is invalid by section 4.3 of RFC 1662; here the octet that follows it in the buffer
  is taken as escaped, for such frames and no others, and a message can be delivered twice
  (Hdlc.DanglingIff, CutFrameDelivered,
  ExampleDelivered).
- The number of fragments of a file is computed in 32 bits and wraps for sizes near 2^32; such a
  file is reported without contents (Lot.ReportCoversIff, WrappedReported).
- A file that is completed by its header is not reported when the same packet brings a new
  fragment that is too long (Lot.CompletionToldIff, OverlookedFile).
- The stored name of a file ends at its first zero, so that a name with a zero in it never equals
  its stored copy, and every repetition of such a header empties the slot (Lot.HeaderAgain).
- A title or artist of more than 255 characters never equals its stored copy, so that every
  repetition of the tag starts a new song (Recorder.RepeatHeardIff). A finished
  track stays in the list when there is no post-roll; it is closed and does no harm.
- A change of program does not signal, and can leave producer and player both waiting
  (AudioQueue.ChangeStrandsIff, ChangeCanStrand).
- The program of a packet is tested before the producer waits for a buffer, and not again, so
  that a packet of the old program can be queued after a change (AudioQueue.StaleIff).

## Model

| member | source | states |
|---|---|---|
| `Gf256.AcceptedIsPrimitiveIff` | src/rs_init.c:63-81 | a polynomial that passes the test after the table loop makes 255 different powers if and only if x^85, x^51 and x^15 are not 1 |
| `Gf256.NonPrimitiveAccepted` | src/rs_init.c:75-81 | the test alone is not enough: 0x11b passes although x has order 51, so the tables are wrong for it |
| `Gf256.PolyIsPrimitive` | src/frame.c:788 | 0x11d, which the program uses, passes and is primitive |
| `Gf256.EveryByteIsAPower` | src/rs_init.c:67-74 | every nonzero byte is then a power of x, so index_of is filled everywhere |
| `Field.MulAssoc` | src/rs_init.c:63-74 | carry-less multiplication modulo the polynomial, defined without tables, is associative; with the lemmas beside it GF(256) is a field |
| `Field.ExpDistinct` | src/rs_init.c:67-74 | the 255 powers of the generator are different |
| `Field.LogExists` | src/rs_init.c:68 | every nonzero element has a logarithm |
| `RsTables.Modnn` | src/rs_char.h:23-29 | the folding loop ends, and its result is x mod 255 for every x |
| `RsTables.InitTables` | src/rs_init.c:63-81 | the loop fills alpha_to with the powers of x, and index_of inverts them exactly when the polynomial has no short period |
| `RsTables.InitRs` | src/rs_init.c:63-81 | for 0x11d the two tables are exponential and logarithm of the field, zero included |
| `RsTables.Rs.Product` | src/rs_decode.c:39 | alpha_to[modnn(i + k)] is the field product |
| `RsTables.Rs.AddTerm` | src/rs_decode.c:135-138 | the guarded exclusive-or adds the product also when the factor is zero |
| `RsDecode.Syndromes` | src/rs_decode.c:30-42 | the in-place Horner loop evaluates the word at alpha^1 to alpha^8 |
| `RsDecode.ToIndexForm` | src/rs_decode.c:122-128 | logarithm form of a polynomial, and its degree |
| `RsDecode.Discrepancy` | src/rs_decode.c:84-90 | the discrepancy is a coefficient of the product of locator and syndromes |
| `RsDecode.Step` | src/rs_decode.c:83-119 | one Berlekamp-Massey turn keeps: lambda generates the syndromes so far with a register of length el, b is the last failing polynomial scaled and shifted, no register is shorter than el, and no errors that explain the syndromes are fewer |
| `RsDecode.BerlekampMassey` | src/rs_decode.c:74-120 | so do all eight turns |
| `RsSteps.StepKeep` | src/rs_decode.c:97-104 | a correction without growth makes the next coefficient vanish |
| `RsSteps.StepGrow` | src/rs_decode.c:105-112 | with growth too, and the register then has length r - el |
| `RsSteps.GrowIsShort` | src/rs_decode.c:105-112 | growth happens only when there really are that many errors |
| `RsShortest.OuterSwap` | src/rs_decode.c:84-90 | multiplying the syndromes by two polynomials, the order does not matter |
| `RsShortest.GrowIsShortest` | src/rs_decode.c:105-112 | Massey: when a register of length el fails at step r, every register for r + 1 syndromes has length r + 1 - el at least |
| `RsShortest.OnlyFirstRegister` | src/rs_decode.c:83-120 | when only the first syndrome is not zero, the shortest register has length one and lambda is 1 |
| `RsSteps.FinalRoots` | src/rs_decode.c:122-128 | at the end the inverse error locators are roots of lambda, whose degree is at most their number |
| `RsAlgebra.Vandermonde` | src/rs_decode.c:30-42 | as many consecutive zero power sums as locators force all error values to zero |
| `RsAlgebra.LongZeroRun` | src/rs_decode.c:83-120 | a run of zero coefficients as long as the number of errors makes lambda vanish at every inverse locator |
| `RsCorrect.Advance` | src/rs_decode.c:133-139 | the incremental registers evaluate lambda at alpha^i |
| `RsCorrect.ChienSearch` | src/rs_decode.c:129-150 | the search finds exactly the roots of lambda, or stops early with as many as its degree |
| `RsCorrect.ErrorEvaluator` | src/rs_decode.c:163-175 | omega is the product of locator and syndromes modulo z^8, with its degree |
| `RsCorrect.EvalDeriv` | src/rs_decode.c:188-194 | the even-step loop evaluates the formal derivative of lambda |
| `RsForney.EvaluatorValue` | src/rs_decode.c:177-194 | at an inverse locator omega is the error value times the derivative |
| `RsForney.DerivNonzero` | src/rs_decode.c:195-198 | the derivative does not vanish at a root when lambda has as many as its degree, so the code cannot give up there |
| `RsCorrect.Apply` | src/rs_decode.c:181-203 | when the values are solvable every located symbol gets its error value added, and no other symbol changes |
| `RsWords.SyndromesExplained` | src/rs_decode.c:30-42 | the syndromes are the power sums of the difference to any codeword |
| `RsWords.MinimumDistance` | src/frame.c:788 | two codewords that differ in at most eight places are equal |
| `RsWords.NearbyIsUnique` | src/frame.c:788 | a word is within four places of at most one codeword |
| `RsCodec.SearchFindsPlaces` | src/rs_decode.c:129-158 | with at most four errors the search stops with exactly their places |
| `RsCodec.Decode` | src/rs_decode.c:16-210 | bounded-distance correction: a word within four symbols of a codeword becomes that codeword, and the number of differences is returned; every other word has the outcome that Outcome says |
| `RsAccept.ValuesExplain` | src/rs_decode.c:159-203 | the converse of the error-value formula: when the product of locator and syndromes ends at the degree of the locator, the values explain the syndromes |
| `RsAccept.ExplainedIsCodeword` | src/rs_decode.c:199-202 | adding errors that explain the syndromes makes a codeword |
| `RsCodec.DoesNotSplit` | src/rs_decode.c:152-158 | when the search gives up, lambda has fewer roots than its degree |
| `RsCodec.FixedWord` | src/rs_decode.c:163-203 | when lambda has as many roots as its degree, the result is a codeword if and only if that degree is the length of the shortest register |
| `RsCodec.Correct` | src/rs_decode.c:122-204 | for every word: given up exactly when lambda has too few roots, and then nothing changes; else at most deg(lambda) symbols change, and the result is a codeword if and only if deg(lambda) is el |
| `RsAccept.FarWordAccepted` | src/rs_decode.c:152-158 | a word of which only the first syndrome is not zero is accepted unchanged with count 0, though it is no codeword |
| `RsCodec.FarSyndromes` | src/rs_decode.c:30-42 | the header made of the coefficients of (x + alpha^2) ... (x + alpha^8) is such a word |
| `RsCodec.FarHeaderAccepted` | src/frame.c:186-197 | fix_header accepts that header as it is |
| `RsCodec.FixHeader` | src/frame.c:177-198 | a 96-byte header within four bytes of a valid one is restored in place; the corrected word is stored exactly when decoding does not give up and its padding is zero; a refused header is left as it was; no other byte is touched |
| `RsGenerator.RootsOfTimes` | src/rs_init.c:104-112 | multiplying by a linear factor adds its root and no other |
| `RsGenerator.GeneratorRoots` | src/rs_init.c:100-113 | the generator polynomial vanishes at alpha^1 to alpha^8 and nowhere else |
| `RsGenerator.CodewordsVanishAtRoots` | src/rs_decode.c:30-42 | a word passes the syndrome test if and only if it vanishes at every root of the generator |
| `RsGenerator.MultiplyIn` | src/rs_init.c:101-113 | the inner loop multiplies by the next factor in place |
| `RsGenerator.FormGenerator` | src/rs_init.c:100-116 | the loops build the generator polynomial, in index form |
| `Trellis.Antipodal` | src/conv_gen.h:32-62 | because every generator has its first and last tap, one branch metric and its negative serve all four branches of a butterfly |
| `Trellis.EdgePred` | src/conv_dec.c:116-130 | the two predecessors that vstate_lshift gives are the only ones in the trellis |
| `Trellis.IdealIsUpperBound` | src/conv_gen.h:32-62 | no path has a larger correlation than the exact metric of the state it ends in |
| `Trellis.SurvivorAttains` | src/conv_dec.c:269-282 | the survivor read off the selections is a path that attains the metric |
| `Trellis.SurvivorIsBest` | src/conv_dec.c:304-334 | the survivor of the best end state is best of all paths |
| `Metrics.FloorHolds` | src/conv_gen.h:76-101 | the smallest metric never decreases |
| `Metrics.Spread` | src/conv_gen.h:76-101 | two metrics differ by at most twice the amplitude of the last k-1 steps |
| `MetricRefinement.Headroom` | src/conv_dec.c:370 | between two normalisations the metrics stay within 0 to 32767 for depuncturable input |
| `MetricRefinement.MachineRefinesIdeal` | src/conv_dec.c:402-427 | the wrapped, normalised 16-bit metrics are the exact integers minus the total subtracted |
| `MetricRefinement.SelectionsRefined` | src/conv_gen.h:89-98 | normalisation and 16-bit storage change no decision |
| `MetricRefinement.StoredNonnegative` | src/conv_dec.c:318-319 | stored metrics are not negative, so the protocol error branch is unreachable |
| `Viterbi.LshiftIsPred` | src/conv_dec.c:116-130 | the mask arithmetic is the predecessor function of the trellis |
| `Viterbi.GenStateInfo` | src/conv_dec.c:139-154 | the input bit that leads to a state, and the register before it |
| `Viterbi.GenerateTrellis` | src/conv_dec.c:217-245 | outputs and input bits of every state |
| `Viterbi.GenBranchMetrics` | src/conv_gen.h:64-74 | branch metrics are the correlations of the even registers |
| `Viterbi.AcsButterfly` | src/conv_gen.h:32-62 | the two new sums and two selections, stored as -1 and 0, and nothing else |
| `Viterbi.Normalise` | src/conv_gen.h:89-98 | the minimum is subtracted from every sum |
| `Viterbi.GenPathMetrics` | src/conv_gen.h:76-101 | one step of the machine: sums and path row are those of the specification |
| `ViterbiDecoder.ConvDecode` | src/conv_dec.c:402-427 | metrics and path store after the wrap-around run are those of the machine on the wrapped input |
| `ViterbiDecoder.VisitIsModular` | src/conv_dec.c:407-412 | step i visits frame index (len - 32 + i) mod len |
| `ViterbiDecoder.Traceback` | src/conv_dec.c:269-339 | the bits are read off the survivor of the best end state, 32 steps in |
| `ViterbiDecoder.Decode` | src/conv_dec.c:429-453 | for input the depuncturers can produce there is no protocol error and the output is the middle of a maximum-likelihood path |
| `ConvFrames.DepuncturedIsBounded` | src/decode.c:296-342 | every depunctured frame within +-127 satisfies the amplitude bound |
| `ConvFrames.ConvDecodeFrame` | src/conv_dec.c:455-478 | for all five entry points: return value positive, output maximum-likelihood, equal to the sent bits when the frame is noise-free, and so whenever the frame carries three streams that are written out as sums of delayed bits |
| `ConvStreams.OutputIsStream` | src/conv_dec.c:463-477 | each of the fifteen code outputs is the sum, modulo two, of the delayed bits written out for it; for the first AM code u[j] + u[j-1] + u[j-3] + u[j-5] + u[j-6] + u[j-7] + u[j-8] at output 1, and so on |
| `ConvStreams.CarriesCleanly` | src/decode.c:39-53 | a frame whose signs are those streams at the places written out for each puncturing pattern, zeros elsewhere, is a noise-free frame |
| `ConvFrames.DecodeInput` | src/conv_dec.c:455-478 | decoding any depunctured frame returns u whenever the frame carries the streams of u |
| `ConvFrames.StreamsCountNone` | src/decode.c:234-277 | and bit_errors then counts none |
| `TailBiting.TruePathFits` | src/decode.c:241-248 | the register that bit_errors uses walks a path that agrees with a noise-free frame everywhere |
| `TailBiting.BestFits` | src/conv_dec.c:304-339 | a best path over a noise-free frame agrees with it everywhere |
| `RoundTrip.InverseFm0` | src/decode.c:39-45 | two of three punctured FM outputs at three steps give back an input bit |
| `RoundTrip.InverseE` | src/decode.c:47-53 | so do the outputs of the first AM code |
| `RoundTrip.NoiseFreeRoundTrip` | src/conv_dec.c:429-453 | for each of the five code and puncturing patterns, decoding a noise-free tail-biting encoding returns the bits, whatever the positive amplitudes |
| `ConvFrames.BitErrors` | src/decode.c:234-259 | the re-encoding loop counts the transmitted outputs whose sign is wrong |
| `ConvFrames.NoErrorsIff` | src/decode.c:234-259 | it counts none if and only if the frame is a noise-free encoding of the bits |
| `ConvFrames.PunctureIsSent` | src/decode.c:261-277 | the puncture tables are the patterns of the depuncturers |
| `ConvFrames.NoErrorsIsRoundTrip` | src/decode.c:234-277 | after decoding a noise-free frame the error count is zero |
| `Huffman.WalkLocal` | src/hdc2aac_remux.c:263-279 | a walk depends only on the bits it consumes |
| `Huffman.CodewordLocal` | src/hdc2aac_remux.c:287-309 | so does a codeword with its sign and escape bits |
| `AacSyntax.ItemsLocal` | src/hdc2aac_remux.c:311-372 | and so does any list of scale factors or spectral codewords: a span can be moved |
| `AacSyntax.ShapingLocal` | src/hdc2aac_remux.c:391-418 | and the filter data of a window |
| `AacSyntax.GroupsCover` | src/hdc2aac_remux.c:173-183 | the window groups are not empty and cover the eight windows |
| `RawBlock.LengthTransfers` | src/hdc2aac_remux.c:235-243 | a section length accepted under the extra limits is the same in the target grammar |
| `RawBlock.CodingTransfers` | src/hdc2aac_remux.c:449-452 | a copied section and scale-factor span reads the same in the target grammar |
| `RawBlock.TnsParses` | src/hdc2aac_remux.c:562-567 | the inserted filter count and the copied filter span together are long-window TNS data |
| `RawBlock.RestParses` | src/hdc2aac_remux.c:547-570 | a channel stream is read back wherever it stands |
| `RawBlock.IcsParses` | src/hdc2aac_remux.c:533-545 | the emitted window fields are read back |
| `RawBlock.BlockParses` | src/hdc2aac_remux.c:572-597 | element identifier, tag, element and end marker make a raw data block |
| `Transcode.FrameFound` | src/hdc2aac_remux.c:460-531 | what the parser accepts has all its parts at the places it recorded |
| `Transcode.MeaningPreserved` | src/hdc2aac_remux.c:572-597 | the emitted block, read with the target grammar, says what the packet said: channels, window, grouping, MS mask, TNS, gains, sections, scale factors, spectrum |
| `Transcode.SpansCopied` | src/hdc2aac_remux.c:553-569 | the spans of every channel stand bit for bit in the block |
| `Transcode.BlockGrowth` | src/hdc2aac_remux.c:572-597 | the block is at most 17 bits longer than what was read |
| `AacSender.WalkFollows` | src/hdc2aac_remux.c:263-279 | a walk over the bits of a branch of the table ends in its leaf |
| `AacSender.WalkOnly` | src/hdc2aac_remux.c:263-279 | and a walk that succeeds has followed a branch of at most 64 bits |
| `AacSender.EscapeRead` | src/hdc2aac_remux.c:299-307 | ones for each bit the width has beyond four, a zero and the bits below the leading one: read as the magnitude, for all from 16 to 65535 |
| `AacSender.CodewordsTile` | src/hdc2aac_remux.c:350-367 | the codewords of books 1 to 4 carry four coefficients each, those of books 5 to 11 two, and together exactly those from k to end |
| `AacSender.SectionCarries` | src/hdc2aac_remux.c:343-372 | a section of book 1 to 11 carries exactly the coefficients from its first band to its last, in every window of the group, with band widths written out apart from the offset tables; any other book carries none |
| `AacSender.BandTables` | src/hdc2aac_remux.c:45-54 | both offset tables are the running sums of those widths |
| `AacSender.ScalesRead` | src/hdc2aac_remux.c:311-341 | no scale for book 0, nine plain bits for the first band of book 13 and a codeword for every other band, of all groups in turn |
| `AacSender.GroupsRead` | src/hdc2aac_remux.c:213-261 | sections laid out with four-bit books and lengths in steps of 3 or 5 bits are read as what they are |
| `AacSender.SectionsOnly` | src/hdc2aac_remux.c:225-257 | and no other sections are accepted: they cover all bands in at most 60 or 51 sections, none of book 12, the last not empty |
| `WindowSender.FilterRead` | src/hdc2aac_remux.c:404-417 | filters laid out in widths 4 and 3 or 6 and 5, direction, compression, and coefficients of 2 to 4 bits are read as what they are |
| `WindowSender.WindowsRead` | src/hdc2aac_remux.c:391-421 | so is the shaping data of all windows, with a filter count in short windows only |
| `WindowSender.GroupsAre` | src/hdc2aac_remux.c:173-183 | seven grouping bits, a zero before every group but the first and a one for every further window, give back the lengths of the groups |
| `FrameSender.ContentRead` | src/hdc2aac_remux.c:460-531 | a frame laid out field by field in HDC syntax is found by the reader whatever follows it, and every part at the place where it stands |
| `FrameSender.FrameRead` | src/hdc2aac_remux.c:460-531 | it is accepted if and only if a fill element begun behind it has its four bits, and says what was sent |
| `FrameSender.AacRead` | src/hdc2aac_remux.c:572-597 | the same frame laid out field by field in AAC syntax is found by the reader of that syntax |
| `FrameSender.BlockWritten` | src/hdc2aac_remux.c:572-597 | the block emitted for the one is the other, bit for bit |
| `FrameSender.AcceptedFields` | src/hdc2aac_remux.c:469-502 | what is accepted is of a known kind, with its reserved bit clear, no more bands than there are, and a stereo mode below three |
| `FrameSender.SilentSendable` | src/hdc2aac_remux.c:460-531 | there are such frames |
| `BitIo.BitReader.ReadBits` | src/hdc2aac_remux.c:76-81 | most significant bit first; zeros past the end |
| `BitIo.BitReader.Peek` | src/hdc2aac_remux.c:83-96 | the same value without moving |
| `BitIo.BitWriter.WriteBits` | src/hdc2aac_remux.c:123-126 | the digits are appended, unless the buffer overflows |
| `BitIo.BitWriter.Align` | src/hdc2aac_remux.c:128-131 | zeros up to the next byte boundary |
| `BitIo.BitWriter.CopyBits` | src/hdc2aac_remux.c:133-142 | the cut of the source is appended |
| `HdcParser.HuffmanWalk` | src/hdc2aac_remux.c:263-279 | the loop with its guard is the walk of the specification |
| `HdcParser.ConsumeCodeword` | src/hdc2aac_remux.c:287-309 | accepts and consumes exactly a codeword |
| `HdcParser.WindowGrouping` | src/hdc2aac_remux.c:157-211 | group lengths, band counts and scaled band offsets, or refusal when there are too many bands |
| `HdcParser.ParseSectionData` | src/hdc2aac_remux.c:213-261 | accepts exactly the section data within the limits, and ends on every input |
| `HdcParser.ParseScaleFactors` | src/hdc2aac_remux.c:311-341 | accepts and consumes exactly the scale factors that the sections call for |
| `HdcParser.ParseSpectralData` | src/hdc2aac_remux.c:343-372 | likewise the spectral codewords |
| `HdcParser.ParseTns` | src/hdc2aac_remux.c:378-422 | the filter span, and the long-window flag |
| `HdcParser.ParseChannel` | src/hdc2aac_remux.c:444-458 | the spans of a channel |
| `Remuxer.ParseHdcFrame` | src/hdc2aac_remux.c:460-531 | accepts exactly the frames of the HDC grammar, and records where everything lies |
| `Remuxer.EmitRawBlock` | src/hdc2aac_remux.c:572-597 | writes exactly the block of the specification, padded, or reports overflow |
| `Remuxer.WriteAdtsHeader` | src/hdc2aac_remux.c:599-611 | seven header bytes and no other |
| `Remuxer.HeaderDecodes` | src/hdc2aac_remux.c:599-611 | the header fields decode to syncword, profile, sampling index, channels, total length and fullness |
| `Remuxer.RemuxFrame` | src/hdc2aac_remux.c:632-657 | returns a frame exactly for accepted packets with room, leaves the rest of the buffer alone |
| `Remuxer.OutputHeader` | src/hdc2aac_remux.c:653 | the length field of an output frame is its length |
| `Remuxer.OutputMeaning` | src/hdc2aac_remux.c:649-656 | the block of an output frame says what the packet said |
| `Remuxer.OutputGrowth` | src/hdc2aac_remux.c:593-596 | the block is at most three bytes longer than the packet |
| `Remuxer.SmallPacketsFit` | src/hdc2aac_remux.c:111-117 | packets up to 4093 bytes never overflow the writer |
| `FrameSender.PacketTaken` | src/hdc2aac_remux.c:632-657 | a packet whose bits are those of a frame is remuxed if and only if its block fits the buffers |
| `FrameSender.PacketRemuxed` | src/hdc2aac_remux.c:632-657 | behind the seven header bytes the output is that frame in AAC syntax and less than a byte of zeros |
| `FrameSender.PacketHeader` | src/hdc2aac_remux.c:632-657 | and the header states its channels and the length |
| `Trie.PrefixFree` | support/hdc2aac/gen_hcb_trees.py:80-85 | no codeword of a trie is a prefix of another |
| `Trie.InsertAdds` | support/hdc2aac/gen_hcb_trees.py:87-105 | an insertion adds its codeword and changes no other |
| `Trie.InsertRefuses` | support/hdc2aac/gen_hcb_trees.py:89-102 | it is refused if and only if a codeword conflicts |
| `Trie.Flattener.Visit` | support/hdc2aac/gen_hcb_trees.py:113-128 | the table holds the trie, children behind their parents |
| `Trie.Flatten` | support/hdc2aac/gen_hcb_trees.py:107-131 | the flattened table is well formed and represents the trie |
| `Trie.WalkDecodes` | src/hdc2aac_remux.c:263-279 | walking the table over a codeword consumes exactly the codeword and ends in its payload |
| `Trie.WalkNeverFails` | src/hdc2aac_remux.c:263-279 | over a complete code no bit string makes the walk fail |
| `Trie.KraftBound` | support/hdc2aac/gen_hcb_trees.py:211-214 | the Kraft sum is one exactly for complete codes, and otherwise short by at least one longest codeword |
| `Trie.KraftCheckExact` | support/hdc2aac/gen_hcb_trees.py:211-214 | up to 29 bits the check with tolerance 1e-9 accepts exactly the complete codes |
| `Trie.KraftAcceptedIff` | support/hdc2aac/gen_hcb_trees.py:211-214 | the tolerance of 1e-9 admits exactly the codes that are short by at most four units of 2^-32 |
| `Trie.KraftExactIff` | support/hdc2aac/gen_hcb_trees.py:206-214 | the check is exact for lists of leaves of at most n bits if and only if n is at most 29, for every n up to the 32 that the length check admits |
| `Trie.KraftCheckMisses` | support/hdc2aac/gen_hcb_trees.py:206-214 | for n of 30, 31 or 32 the check passes for a list of leaves of at most n bits whose code is not complete, and build makes a table of it |
| `Trie.InsertLeaves` | support/hdc2aac/gen_hcb_trees.py:205-210 | the loop inserts all leaves or refuses, and sums up their Kraft terms |
| `Trie.Build` | support/hdc2aac/gen_hcb_trees.py:201-216 | a table of the trie is built exactly when all leaves fit and the Kraft check passes |
| `Trie.BuiltLists` | support/hdc2aac/gen_hcb_trees.py:205-210 | the trie holds exactly the listed codewords, in whatever order they came |
| `Trie.BuiltTableDecodes` | support/hdc2aac/gen_hcb_trees.py:201-216 | over a built table of a complete code every bit string starts with exactly one listed codeword, and the walk returns its payload |
| `Trie.BuiltTableNeverFailsIff` | src/hdc2aac_remux.c:263-279 | over a built table no bit string makes the walk fail if and only if its code is complete, as it is up to 29 bits |
| `InterleaverIv.AddressTime` | src/decode.c:362-369 | within a lap every step reads a cell of its own |
| `InterleaverIv.TimeAddress` | src/decode.c:362-369 | and every cell has its step |
| `InterleaverIv.FirstCellsWide` | src/decode.c:364-369 | cells that the first steps of a lap read, as numbers, for long frames |
| `InterleaverIv.FirstCellsNarrow` | src/decode.c:364-369 | and for short ones |
| `InterleaverIv.ReadExactlyOnce` | src/decode.c:361-375 | over any run every soft bit written is read once, after it was written and before its cell is overwritten |
| `InterleaverIv.CellsMore` | src/decode.c:373-374 | a step keeps: the cells hold the latest lap of what was fed |
| `InterleaverIv.Interleaver.Process` | src/decode.c:344-376 | the output is the permuted reads spread over 3 * frame_len values, and ready means every one of them was fed since the reset |
| `InterleaverIv.Interleaver.Push` | src/decode.c:393-414 | two half frames make a frame; before the first even block nothing is taken |
| `InterleaverIv.SpreadIsDepunctured` | src/decode.c:370-371 | what is handed to the decoder is a depunctured frame of its pattern |
| `FmChain.IvReceived` | src/decode.c:344-414 | when every frame was sent over the next lap of cells, the reads of a ready step are the code bits of one frame, with their signs |
| `FmChain.DecodeIv` | src/decode.c:397-414 | and decoding the output returns that frame |
| `FmInterleaver.P1Places` | src/decode.c:307-318 | every P1 soft bit comes from a cell of its own in the first 1142 rounds |
| `FmInterleaver.PidsPlaces` | src/decode.c:331-338 | every PIDS soft bit comes from a cell of its own in the other ten rounds |
| `FmInterleaver.EveryCellRead` | src/decode.c:451-467 | every cell of the matrix is read once, by P1 or by one of the sixteen PIDS frames |
| `FmInterleaver.InterleaverI` | src/decode.c:296-322 | the loop reads those cells in order, with a zero after every fifth |
| `FmInterleaver.InterleaverII` | src/decode.c:324-342 | so does the one for PIDS block bc |
| `FmInterleaver.SpreadIsDepunctured` | src/decode.c:319-320 | its output is a depunctured frame of exactly three soft bits per decoded bit |
| `FmInterleaver.InterleaveExists` | src/decode.c:451-467 | any P1 and PIDS bits fit one matrix together |
| `FmInterleaver.P1Recovered` | src/decode.c:296-322 | deinterleaving inverts interleaving for P1 |
| `FmInterleaver.PidsRecovered` | src/decode.c:324-342 | and for PIDS |
| `FmChain.SpreadCarries` | src/decode.c:319-320 | soft bits with the signs of punctured code bits, two outputs of three at odd steps and all three at even ones, spread out are a frame that carries the bits |
| `FmChain.DecodeP1` | src/decode.c:451-467 | deinterleaving and decoding a matrix in which a P1 frame and sixteen PIDS frames were sent returns the P1 frame |
| `FmChain.DecodePids` | src/decode.c:324-342 | so for each of the sixteen PIDS frames |
| `FmChain.FirstCells` | src/decode.c:307-338 | the first twenty places of both, as literal cells |
| `AmInterleaver.BitMapPlaces` | src/decode.c:67-72 | bit_map sends 0 to 749 one-to-one to cells that are not training cells |
| `AmInterleaver.BitMapCovers` | src/sync.c:698-704 | and onto all of them |
| `AmInterleaver.ChineseUnique` | src/decode.c:84-87 | the block and cell indices determine n modulo 3000 |
| `AmInterleaver.MainPlaces` | src/decode.c:79-92 | the undelayed groups bl and bu: every n has a place of its own |
| `AmInterleaver.MainCovers` | src/decode.c:79-92 | and every place is taken |
| `AmInterleaver.SpreadPlaces` | src/decode.c:84-97 | the delayed groups ml and mu, and all four of service mode MA3: every n has a place of its own |
| `AmInterleaver.SpreadCovers` | src/decode.c:119-140 | and every place is taken |
| `AmInterleaver.LeftPlaces` | src/decode.c:102-108 | group el likewise |
| `AmInterleaver.LeftCovers` | src/decode.c:102-108 | and every place is taken |
| `AmInterleaver.UpperPlaces` | src/decode.c:109-115 | group eu likewise |
| `AmInterleaver.UpperCovers` | src/decode.c:109-115 | and every place is taken |
| `AmInterleaver.TablesTile` | src/decode.c:26-32 | the delay tables of each output tile its rows |
| `AmInterleaver.PlacesOwned` | src/decode.c:143-173 | so every place of an output belongs to a soft bit of a group |
| `AmInterleaver.OwnersPlaced` | src/decode.c:143-173 | and to one only |
| `AmInterleaver.PidsPlaces` | src/decode.c:479-491 | the 120 soft bits of a PIDS column come from different bits of thirty cells |
| `AmInterleaver.PidsCovers` | src/decode.c:479-491 | and take them all |
| `AmInterleaver.PidsRows` | src/sync.c:673 | those cells are all but the two training rows |
| `AmDecoder.GroupsCover` | src/decode.c:77-98 | every bit of every data cell is taken by exactly one soft bit of exactly one group |
| `AmDecoder.FillGroup` | src/decode.c:77-98 | the loop fills an array with its group |
| `AmDecoder.Assemble` | src/decode.c:143-151 | the loop over the delay tables puts every soft bit of the four groups at its place |
| `AmDecoder.Depuncture` | src/decode.c:183-196 | the soft bits in order, zeros at positions 1, 4 and 7 of fifteen |
| `AmDecoder.FrameIsDepunctured` | src/decode.c:512-516 | each of the eight P1 frames is a depunctured frame of its pattern |
| `AmDecoder.LineShifts` | src/decode.c:175-181 | after the move the delay line holds the three latest frames |
| `AmDecoder.Deinterleaver.EndOfFrame` | src/decode.c:547-553 | the delayed groups come out exactly three frames late, the frame for the decoder is made from the latest matrices and those three frames back, signs included, and when the wait is over all delayed data has been written since the reset |
| `AmChain.FrameCarried` | src/decode.c:183-196 | when the groups hold the code bits of frames at the places written out for the sender, one for a one, each frame for the decoder carries its bits |
| `AmChain.RunReceived` | src/decode.c:504-553 | over any run of matrices in which the sender delays its groups by three frames, the decoder is fed frames that carry the bits sent three frames ago |
| `AmChain.DecodeFrame` | src/decode.c:510-516 | and decoding returns them |
| `AmChain.MatrixExists` | src/decode.c:77-98 | any frames fit the cells of a matrix |
| `AmSide.FillRows` | src/decode.c:152-162 | the loops over rows and delay tables put every soft bit at the place it owns |
| `AmSide.PlacedBits` | src/decode.c:152-162 | soft bit n of a group is at row n / count, column given by the delay table |
| `AmSide.ReadSide` | src/decode.c:100-116 | the loops read el and eu from their cells |
| `AmSide.SideFrame` | src/decode.c:100-213 | P3 in service mode MA1: every bit of both matrices at its place, then signs with zeros at positions 1, 4 and 5 of six |
| `AmSide.SideIsDepunctured` | src/decode.c:526-532 | the result is a depunctured frame of the pattern that bit_errors_e2 counts with |
| `AmSide.PidsFrame` | src/decode.c:474-502 | every soft bit of both PIDS columns at its place, zeros for a disabled column |
| `AmSideChain.SideCarried` | src/decode.c:198-213 | when the cells of both matrices hold the code bits of a P3 frame of service mode MA1, the frame for the decoder carries its bits |
| `AmSideChain.DecodeSide` | src/decode.c:526-532 | and decoding returns them |
| `AmSideChain.PidsCarried` | src/decode.c:474-502 | likewise for the two PIDS columns, which cell and which bit of it written out |
| `AmSideChain.DecodePids` | src/decode.c:474-502 | and decoding returns the PIDS bits |
| `Crc.FcsTabIs` | src/frame.c:108-141 | every entry of the table is the bitwise remainder of its index |
| `Crc.CrcTabIs` | src/frame.c:76-106 | likewise for the table of the packet checksum |
| `Crc.Fcs16` | src/frame.c:154-160 | the table loop computes the bitwise frame check sequence |
| `Crc.PacketCrc` | src/frame.c:146-152 | the table loop computes the bitwise packet checksum |
| `Crc.ValidIff` | src/frame.c:143-144 | a message with two more octets leaves 0xF0B8 if and only if they are its complemented check sequence, low octet first |
| `Crc.PacketCrcIff` | src/frame.c:629-639 | a packet with its last byte leaves zero if and only if that byte is its checksum |
| `Hdlc.UnstuffIff` | src/frame.c:347-360 | unstuffing undoes RFC 1662 stuffing if and only if every octet the sender escaped has bit 5 set |
| `Hdlc.MinimalRestorable` | src/frame.c:347-360 | a sender that escapes only flags and escapes is always understood |
| `Hdlc.ControlOctetLost` | src/frame.c:353-354 | a sender that also escapes octet 0 is not understood |
| `Hdlc.DanglingIff` | src/frame.c:351-357 | what follows a frame in the buffer is taken for a part of it if and only if the frame ends in an escape that escapes nothing |
| `Hdlc.CutFrameDelivered` | src/frame.c:351-357 | a message whose frame ends in an escaped octet is delivered again when the frame is sent again and given up behind its last escape |
| `Hdlc.ExampleDelivered` | src/frame.c:351-385 | so is the message 0xd9 of a sender that escapes only flags and escapes |
| `Hdlc.UnescapeHdlc` | src/frame.c:347-360 | in place, without overwriting what is still to be read: the unstuffed octets at the front, all others as they were |
| `Hdlc.ProtocolThenCheck` | src/frame.c:366-384 | an accepted frame has at least three octets, so the length passed on does not wrap |
| `Hdlc.AcceptedIff` | src/frame.c:366-384 | a frame is delivered as message m if and only if it is protocol octet, m and the check sequence |
| `Hdlc.Receiver.AasPush` | src/frame.c:362-386 | unstuffs the buffer in place and delivers the message if there is one |
| `Hdlc.Receiver.ParseHdlc` | src/frame.c:388-410 | buffer, write position and messages are those of the octet-by-octet receiver on values; what was delivered stays; the messages are those of the frames between flags |
| `Hdlc.StreamDelivers` | src/frame.c:388-410 | behind a flag the messages of a stream are delivered one for one, whatever padding and abandoned frames stand between them |
| `Hdlc.ReceiverDelivers` | src/frame.c:362-410 | after any noise and a flag, exactly the messages of the stream, in order, and nothing for padding and abandoned frames |
| `Hdlc.ChunksDoNotMatter` | src/frame.c:388-410 | however a stream is cut into calls, the receiver ends in the same state |
| `Hdlc.ReceiversAgree` | src/frame.c:388-410 | receivers that began with equal buffers and took in the same octets agree in everything |
| `Hdlc.StartDoesNotMatter` | src/frame.c:388-410 | what the buffer held at first does not matter as long as no frame ends in a dangling escape |
| `AudioPdu.LocationsRoundTrip` | src/frame.c:334-345 | parse_location inverts the 12-bit and the 16-bit packing |
| `AudioSender.HeaderRoundTrip` | src/frame.c:200-215 | fields laid out one after another, low bit first, in widths 4, 2, 3, 2, 5, 6, 3, 1, 1, 6, 6, 1, 8 from byte 8 on, are given back wherever the model keeps them, for all values |
| `AudioSender.ModeTables` | src/frame.c:286-332 | location width and average packet number of every codec mode, as two literal tables |
| `AudioSender.WholePacketNumber` | src/frame.c:617-646 | the sequence number of the header is that of the first whole packet; the first is a back half and the last a front half exactly when so marked |
| `AudioSender.ExpansionRoundTrip` | src/frame.c:217-284 | a header expansion laid out entry by entry is read to its end, and the program is that of its last program entry |
| `AudioPdu.ParseLocation` | src/frame.c:334-345 | reads the location, inside the table |
| `AudioPdu.ReadLocations` | src/frame.c:564-570 | accepts exactly the tables that grow from la_location on and end inside the audio |
| `AudioPdu.ParseHef` | src/frame.c:217-284 | bytes used and program number of a header expansion, never beyond the length given |
| `AudioPdu.TakePackets` | src/frame.c:626-654 | packet after packet up to its location, one checksum byte each, consecutive slots, first and last shape |
| `AudioPdu.ReadSlot` | src/frame.c:616-621 | the read position is the only one 0 to 31 slots before the first packet that sequence number and latency allow |
| `AudioPdu.PduEnds` | src/frame.c:560-570 | an audio PDU ends beyond its header and inside the audio |
| `AudioPdu.TakePdu` | src/frame.c:543-656 | a damaged header is restored first; the PDU is refused exactly when its locations are |
| `AudioPdu.FrameProcess` | src/frame.c:535-657 | the PDUs taken follow each other from the first byte, and the loop ends because each moves it on |
| `AudioSender.SentIsAcceptable` | src/frame.c:560-614 | an audio PDU laid out by a sender, header, table, expansion and packets, is accepted |
| `AudioSender.SentIsTaken` | src/frame.c:543-656 | and what is taken from it are its fields, locations, program and packets, every one with its bytes, slot and shape |
| `AudioSender.ReadSlotLaws` | src/frame.c:616-621 | modulo 32 the read slot is 0 for the first PDU of a sequence without latency, moves on by the average packet number from one PDU to the next, and back by two for each step of latency |
| `AudioPdu.PacketIsPart` | src/frame.c:630-655 | a pushed packet with its checksum byte is one part of its PDU |
| `AudioPdu.EveryByteTaken` | src/frame.c:543-656 | every byte before the end lies in a header area or a packet |
| `AudioPdu.NoByteTwice` | src/frame.c:543-656 | and in one only |
| `Elastic.Buffer.Push` | src/output.c:47-91 | the slot becomes what the push makes of it; only stream 0 is taken |
| `Elastic.Buffer.Read` | src/output.c:112-172 | the slot is reported if complete, then emptied, and reading steps on |
| `Elastic.Buffer.Advance` | src/output.c:100-175 | as many reads as frames, unless never aligned |
| `Elastic.ReadsStepOn` | src/output.c:172 | the read position steps through the slots modulo 64 |
| `Elastic.ReceivedMadeOf` | src/output.c:58-90 | a slot holds one push, or the front and back half that met in it, flagged exactly when a part was |
| `Elastic.Delivered` | src/output.c:112-128 | an event is one full push or front and back of one slot, empty and flagged exactly when a part had a checksum error, and no push is in two events |
| `ElasticQueue.PutRefines` | src/output.c:47-91 | a push into the next slot appends to a queue |
| `ElasticQueue.GetRefines` | src/output.c:112-172 | a read takes the head of that queue |
| `ElasticQueue.BufferIsQueue` | src/output.c:47-175 | over every run in step, reported and waiting packets are together those pushed, in order |
| `ElasticQueue.ReportsInOrder` | src/output.c:47-175 | what is reported is a prefix of what was pushed, at most 64 behind |
| `Lot.ReportCoversIff` | src/output.c:928-949 | a reported file lies whole in its slot; its contents cover its size if and only if size + 255 does not wrap in 32 bits, that is up to 65536 bytes; otherwise they are empty |
| `Lot.WrappedReported` | src/output.c:928-949 | one packet whose header claims 0xffff_ff01 bytes has the file reported with empty contents |
| `Lot.CompletionToldIff` | src/output.c:837-949 | a packet that completes a file, by its header or by its fragment, has it reported, if and only if it does not come with a fragment that is too long and new |
| `Lot.OverlookedFile` | src/output.c:916-924 | a file of one byte, its fragment there before its header, is not reported when the header comes with 257 bytes of another fragment |
| `Lot.HeaderAgain` | src/output.c:857-889 | a header that comes again leaves the slot as it is if and only if there is no zero in its name; one that says something else empties it; the first one keeps the fragments that came before it |
| `Lot.RunReports` | src/output.c:800-952 | over any run every complete file is reported, as long as no packet overlooks one in this way |
| `Lot.AcceptKeeps` | src/output.c:910-924 | a slot keeps the first accepted copy of each fragment, and bytes_so_far the sum of their lengths |
| `Lot.Store.FindLot` | src/output.c:734-744 | the slot that holds the lot, if one does |
| `Lot.Store.FindFreeLot` | src/output.c:746-767 | a free slot, or one of least timestamp, emptied |
| `Lot.Store.Locate` | src/output.c:826-833 | at most one slot holds a lot; the slot found or made is the one used last |
| `Lot.Store.Describe` | src/output.c:837-908 | changed metadata empties the slot; unchanged metadata keeps its fragments |
| `Lot.Store.AddFragment` | src/output.c:910-926 | the first copy is kept padded, and every one that is not too long reported |
| `Lot.Store.Report` | src/output.c:928-950 | the file is reported when all its fragments are there, as their concatenation in order |
| `Lot.Store.ProcessLot` | src/output.c:800-952 | for every packet: the new slot and the events, header, fragment and file, are those of Now and Heard; no other slot changes; the slot starts anew when it is given to another file |
| `Lot.Reassembled` | src/output.c:928-949 | whatever the order and repetitions, a complete slot holds the object, zero-padded to whole fragments |
| `LotSender.HeaderRoundTrip` | src/output.c:844-873 | expiry in packed fields, size, mime and name, laid out by a sender behind a version, are given back, for all values |
| `LotSender.PacketRoundTrip` | src/output.c:802-824 | so are repeat count, lot, sequence number, header and data of a packet |
| `Recorder.RingTurns` | src/recorder.c:692-701 | the ring goes on holding the latest frames |
| `Recorder.RingSlot` | src/recorder.c:501-505 | oldest first from the start index that start_new_song computes |
| `Recorder.Track.Feed` | src/recorder.c:669-687 | an open track goes on following the stream, until its post-roll is over |
| `Recorder.Track.Finalize` | src/recorder.c:341-358 | closed; kept if and only if long enough and named |
| `Recorder.Recorder.FeedOne` | src/recorder.c:668-690 | one turn over the linked list: a track whose post-roll is over is unlinked, and its song gets a finished file; otherwise nothing is finished |
| `Recorder.Recorder.OnHdc` | src/recorder.c:652-702 | every open track hears the frame and the ring takes it in; refused frames change nothing |
| `Recorder.Recorder.WritePreroll` | src/recorder.c:500-510 | a new file begins with the last frames heard, as many as the ring has room for |
| `Recorder.Recorder.EndTrack` | src/recorder.c:449-460 | the song that is on goes into post-roll, or is finished when there is none |
| `Recorder.Recorder.StartNewSong` | src/recorder.c:447-524 | the new track leads the list and the old one ends where it starts |
| `Recorder.Recorder.OnId3` | src/recorder.c:704-761 | a tag starts a song unless it repeats the current one or is the first and not wanted |
| `Recorder.Recorder.Destroy` | src/recorder.c:609-634 | a clean shutdown closes the open files as runs up to the last frame, each named after its tag and kept by the same rule, and then every song has exactly one finished file |
| `Recorder.FinishedFile` | src/recorder.c:447-702 | over any run a finished file is the last min(heard, capacity) frames before its song, the song up to the next one, and exactly max(1, N) post-roll frames when there is post-roll; its counters add up, title and artist are those of the tag that started its song, clipped, and it is kept if and only if it is long enough and its names are proper |
| `Recorder.EverySongOnce` | src/recorder.c:447-702 | over any run every song has exactly one file, finished or open in the list |
| `Recorder.OnlyNewestIsOn` | src/recorder.c:183-191 | at most one open track is not in post-roll: that of the newest song |
| `Recorder.RepeatHeardIff` | src/recorder.c:713-718 | a repeated tag is recognised as the song that is on if and only if title and artist have at most 255 characters |
| `AudioBuffers.Buffers.constructor` | src/main.c:179-190 | sixteen free buffers |
| `AudioBuffers.Buffers.Push` | src/main.c:147-171 | a free buffer goes to the end of the queue with the samples, or the caller is blocked |
| `AudioBuffers.Buffers.Take` | src/main.c:690-695 | the head of the queue goes to the player |
| `AudioBuffers.Buffers.Release` | src/main.c:701-706 | and then to the free list |
| `AudioBuffers.Buffers.ChangeProgram` | src/main.c:307-322 | the queue goes to the front of the free list |
| `AudioBuffers.Buffers.Reset` | src/main.c:117-133 | the walk to the end of the queue has the same effect |
| `AudioQueue.StartInv` | src/main.c:179-190 | at the start all buffers are free and no thread waits |
| `AudioQueue.StepKeeps` | src/main.c:135-177 | every step of producer, player and program change keeps the buffers and the order of the packets |
| `AudioQueue.RunKeeps` | src/main.c:672-710 | so does every interleaving |
| `AudioQueue.NeverStuck` | src/main.c:149-150 | in step, producer and player never both wait, so a single signal wakes the one that does |
| `AudioQueue.StaysInStep` | src/main.c:681-682 | every step but a change of program keeps them in step |
| `AudioQueue.RunsInStep` | src/main.c:672-710 | no run without a change of program gets stuck |
| `AudioQueue.ProducerServed` | src/main.c:700-706 | a waiting producer gets a buffer within the next two steps of the player |
| `AudioQueue.FileRun` | src/main.c:147-151 | on one program from a file, the packets played are the first ones pushed, all of them and in order |
| `AudioQueue.ChangeStrandsIff` | src/main.c:307-322 | a change of program leaves both threads waiting at the next step of the player if and only if the producer waits and no buffer is with the player |
| `AudioQueue.ChangeCanStrand` | src/main.c:307-322 | a run in which both wait with all sixteen buffers free |
| `AudioQueue.StaleIff` | src/main.c:144-161 | after a change of program a packet of another program can still be queued if and only if the producer holds one, waiting or just woken |
| `AudioQueue.RunOneOld` | src/main.c:144-161 | over any run at most one packet of another program is in the queue or with the producer |
| `AudioThreads.Threads.PushAudioBuffer` | src/main.c:135-177 | what the call does to the linked lists is what the step of the protocol does to its state |
| `AudioThreads.Threads.Look` | src/main.c:680-697 | so does taking a buffer |
| `AudioThreads.Threads.Finish` | src/main.c:697-706 | and giving it back |
| `AudioThreads.Threads.ChangeProgram` | src/main.c:307-322 | and a change of program |
| `AudioThreads.DeviceHears` | src/main.c:672-710 | on one program from a file, the device is given the samples pushed, the first ones, all and in order |

## Left out

- RsCodec.Decode: for the parameters of `src/frame.c:788` and no erasures; other symbol sizes, roots and erasure lists have no caller.
- ViterbiDecoder.Decode: only non-recursive tail-biting codes of constraint length 7 and 9, the only ones built; the SIMD metric functions are not modelled.
- RoundTrip.NoiseFreeRoundTrip: the soft bits must have the sign of the code bits, of any amplitude; nothing is said about a bound on errors beyond maximum likelihood.
- Trie.Build: trie nodes are values here, since no two of them share a child; exceptions are a refused result.
- Trie.KraftBound: the sum is in units of the longest codeword, exact integers in place of the float sum, which is exact in that range.
- The literal tables of `src/hcb_trees.h`, and the enumeration of codebooks that `gen_hcb_trees.py` reads them from: any table it can build is covered.
- HdcParser.ParseSectionData: the fixed arrays of `ics_t` are sequences; that the code stays inside them follows from the proved limits of 60 sections and 64 bands.
- Remuxer.ParseHdcFrame: the payload of a fill element is detected and dropped, as in the code, and not read.
- `support/hdc2aac/hdc2aac.c`, which is the remuxer with file access around it.
- FmInterleaver.InterleaverI: with the parameters of decode_process_p1; the branch for M other than 1 has no caller.
- AmDecoder.FillGroup: the source fills several arrays in one loop; here one array after the other, as in AmSide.ReadSide.
- Descrambling, bit order and PCI detection in `src/decode.c:279-294` and `src/frame.c:659-756`.
- AudioPdu.FrameProcess: fixed data in front of the audio and the report of service parameters are left out; a PDU that breaks what the code takes for granted (no packets in an enhanced stream, a header expansion that runs into the packets) ends the model's run, where the code's arithmetic would wrap.
- Hdlc.Receiver.ParseHdlc: the octet behind the buffer, which unstuffing may read, is one extra cell.
- Elastic.Buffer.Push: packet data has no size limit, where the source has a buffer of one PDU per slot; decoding to audio is not modelled.
- Elastic.Buffer.Advance: one program at a time; the programs do not share state.
- Lot.Store.ProcessLot: the warnings of the log; wrap-around of the use counter after 2^32 packets; a size above 65536 bytes with every slot of the fragment table filled ends outside the contract, where the code reads past the table.
- Ports other than LOT, the SIG table and ID3 parsing.
- Recorder.Recorder.OnHdc: allocation and file opening succeed; cover art, paths and packaging are left out, and times enter as frame counts.
- AudioBuffers.Buffers.Push: the test of the program number comes before it (AudioThreads.Threads.PushAudioBuffer); that there is an audio device is taken for granted.
- AudioQueue.RunsInStep: threads are steps that hold the mutex from wait to wait; spurious wake-ups are included, thread creation and exit are not.
- The receiver front end (acquisition, synchronisation, decimation), device access, event reporting and the command line.
