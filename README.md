# DAB OFDM demodulator core, modelled in Dafny

This project models the core of `dab-ofdm-rust`, an OFDM demodulator for DAB
radio (ETSI EN 300 401), and proves properties of that model. It covers:

- **The two sample buffers.** `LinearBucket` fills from the front up to a
  fixed capacity. `CircularBucket` keeps the most recent items behind a
  wrapping write cursor. Both are classes over a backing `array`. A ghost
  `history` records what the circular bucket was fed, and its invariant ties
  each cell to an item of that history.
- **The parameter tables.**
  - The OFDM frame sizes derived by `OfdmParameters::new`, with its three
    assertions as an error result.
  - The per-mode DAB table with its five checks.
  - The OFDM parameters of each DAB mode.
  - The bit budgets of a decoded frame: FIC, MSC, FIB, FIG and CIF.
- **The two constructions the standard defines.**
  - The frequency-interleaving carrier map of clause 14.6.1. The
    linear-congruential walk `pi` is proved to visit every bin once for
    power-of-two FFT lengths, so the map is a permutation of the carriers.
  - The phase reference symbol (PRS) of clause 14.3.2. It is built exactly:
    each bin is zero or a unit phasor at a multiple of 90 degrees.
- **The demodulator.**
  - Its free helpers: slice arithmetic, DQPSK, the soft-bit demapper, the
    relative phase, the centred magnitude spectrum, the float remainder, and
    the PLL rotation with its Chebyshev sine polynomial.
  - The `OfdmDemodulator` state machine with all six states, whose handlers
    are proved against specification functions of the frame. The machine
    finds the NULL symbol by a power dip, reads the NULL and PRS, corrects
    the coarse and fine frequency offsets and the time offset, reads a
    frame, and turns it into soft bits.
  - The invariant every handler keeps, and termination of `process`.

Sample values are exact complex numbers over `real`. The FFT, the inverse FFT,
`20 log10 |z|` and `atan2` are uninterpreted function fields of a `Dsp` value
that the demodulator is built with. Subscribers are modelled by the ghost
sequence `bitsOut` of frames handed to them.

## Model

| member | source | states |
|---|---|---|
| LinearBuckets.LinearBucket.constructor | crates/ofdm/src/linear_bucket.rs:52-57 | a fresh backing array of `capacity` copies of the default value, and an empty bucket |
| LinearBuckets.LinearBucket.Reset | crates/ofdm/src/linear_bucket.rs:13-15 | the bucket is empty and valid again |
| LinearBuckets.LinearBucket.IsFull | crates/ofdm/src/linear_bucket.rs:25-27 | full when `length` equals the capacity; `Consume` then takes nothing |
| LinearBuckets.LinearBucket.Iter | crates/ofdm/src/linear_bucket.rs:29-32 | exactly the `length` valid items are exposed |
| LinearBuckets.LinearBucket.Index | crates/ofdm/src/linear_bucket.rs:93-100 | indexing is defined only below `length` and gives the item iteration yields there |
| LinearBuckets.LinearBucket.Consume | crates/ofdm/src/linear_bucket.rs:59-69 | takes `min(len, free space)` items, none when full; they are appended to the valid data and every other cell is unchanged |
| LinearBuckets.LinearBucket.SetItems | crates/ofdm/src/linear_bucket.rs:34-37 | writing through the mutable iterator replaces the valid items and leaves the cells past them as they were |
| LinearBuckets.LinearBucket.ConsumeFromIterator | crates/ofdm/src/linear_bucket.rs:71-90 | as written: appends the iterator's items in order until the bucket is full or the items run out, and returns 0 |
| LinearBuckets.LinearBucket.ConsumeFromIteratorCounted | crates/ofdm/src/linear_bucket.rs:71-90 | as the doc comment promises: the same filling, returning the number of items stored |
| LinearBuckets.IteratorCopyMiscount | crates/ofdm/src/linear_bucket.rs:76-89 | one item fed to an empty bucket of capacity 1 is stored, yet 0 items are reported; the counted copy reports 1 |
| CircularBuckets.CircularBucket.constructor | crates/ofdm/src/circular_bucket.rs:65-71 | `capacity` default cells, cursor 0, empty, with no history |
| CircularBuckets.CircularBucket.Reset | crates/ofdm/src/circular_bucket.rs:12-16 | cursor and length are 0 and the data is unchanged |
| CircularBuckets.CircularBucket.Consume | crates/ofdm/src/circular_bucket.rs:73-91 | returns `len` with `consume_all`, else `min(len, free space)`; writes the items from the cursor, later ones overwriting earlier ones; the cursor moves on by that count modulo the capacity; the length becomes `min(capacity, length + n)`; the cells keep the last `length` items |
| CircularBuckets.CircularBucket.WriteItems | crates/ofdm/src/circular_bucket.rs:85-88 | the copy loop appends its items to the history, advances the cursor and keeps the window invariant |
| CircularBuckets.CircularBucket.WriteAtCursor | crates/ofdm/src/circular_bucket.rs:86-87 | one item goes to the cursor cell only, and the cursor wraps to the next cell |
| CircularBuckets.CircularWriteKeepsWindow | crates/ofdm/src/circular_bucket.rs:85-88 | writing items from the cursor extends the window of history the cells hold by that many items, up to the capacity |
| CircularBuckets.CircularWriteLeavesRest | crates/ofdm/src/circular_bucket.rs:85-88 | a write that does not wrap leaves every other cell as it was |
| CircularBuckets.ReadFromNewCursor | crates/ofdm/src/circular_bucket.rs:85-89 | after a bucket has been fed a whole capacity, iteration reads every cell from the cursor the write left |
| CircularBuckets.ItemsAfterConsumeWhenFull | crates/ofdm/src/circular_bucket.rs:31-39 | once a bucket has been fed at least its capacity since its reset, iterating after a consume yields the last `capacity` items fed, oldest first, so the iteration as written and the corrected one agree |
| CircularBuckets.ShortFillReadsStaleCells | crates/ofdm/src/circular_bucket.rs:31-39 | a bucket fed at most half its capacity right after a reset iterates none of the items fed, only the cells after them as they were |
| CircularBuckets.CircularWriteSnoc | crates/ofdm/src/circular_bucket.rs:85-88 | writing one more item updates exactly the cell `(start + count) % capacity` |
| CircularBuckets.CursorStep | crates/ofdm/src/circular_bucket.rs:87 | the cursor after `k` wrapping increments is `(start + k) % capacity` |
| CircularBuckets.FullWindowInOrder | crates/ofdm/src/circular_bucket.rs:108-120 | a full bucket read from the cursor yields the last `capacity` items consumed, oldest first |
| CircularBuckets.CircularBucket.IsFull | crates/ofdm/src/circular_bucket.rs:26-28 | full when `length` equals the capacity; `Items` and `ItemsAfterConsumeWhenFull` state what a full bucket iterates |
| CircularBuckets.CircularBucket.Items | crates/ofdm/src/circular_bucket.rs:30-39 | iteration yields `length` items; when full, they are the last `capacity` items consumed, oldest first |
| CircularBuckets.CircularBucket.Iter | crates/ofdm/src/circular_bucket.rs:108-120 | the iterator loop, starting at the cursor with `remain_length` counting down, yields exactly `Items()` |
| CircularBuckets.CircularBucket.ConsumeAllThenIter | crates/ofdm/src/ofdm_demodulator.rs:271-274 | `consume` with `consume_all` followed by `iter` appends all of the items to the history, leaves the cells written from the old cursor on with wrap-around (`CircularWrite`), moves the cursor on by the item count modulo the capacity and the length to `min(capacity, length + count)`, and yields `length` cells read from the new write cursor, as `ItemsAfterConsume` of the old cells, cursor and length states |
| CircularBuckets.CircularBucket.IterOldestFirst | crates/ofdm/src/circular_bucket.rs:30-39 | corrected iteration: the items consumed since the last reset that are still held, oldest first, full or not |
| CircularBuckets.PartialIterReadsPastCursor | crates/ofdm/src/circular_bucket.rs:31-39 | capacity 2 fed `[7]`: the iteration as written yields the untouched cell `[0]`, the corrected one `[7]` |
| CircularBuckets.CircularBucket.Index | crates/ofdm/src/circular_bucket.rs:140-147 | `bucket[i]` for `i < length` is item `i` of iteration |
| OfdmParameters.NewOfdmParameters | crates/ofdm/src/ofdm_parameters.rs:40-70 | succeeds iff the three assertions hold, and otherwise names the first one that fails; the five inputs are stored unchanged; the cyclic prefix, DQPSK symbol count (at least 1), output samples, output bits and input samples follow the frame structure |
| OfdmParameters.FrameLayout | crates/ofdm/src/ofdm_parameters.rs:52-53 | symbol `i` fits in the frame, its FFT window ends where the next symbol starts, and the NULL symbol fills the rest of `nb_input_samples` exactly |
| OfdmParameters.OutputBitsPerSymbol | crates/ofdm/src/ofdm_parameters.rs:54-56 | the output holds `2 K` bits for each DQPSK symbol |
| DabParameters.GetDabParameters | crates/dab_core/src/dab_parameters.rs:27-82 | every mode's row passes all five checks, so the function never panics; the carrier count is even, positive and below the FFT length, which is a multiple of four; the NULL symbol is longer than the cyclic prefix |
| DabParameters.DabFftIsPowerOfTwo | crates/dab_core/src/dab_parameters.rs:28-73 | every mode's FFT length is `2^k` with `k >= 3` |
| DabOfdmParameters.GetDabOfdmParameters | crates/dab_ofdm/src/dab_ofdm_parameters.rs:6-15 | `OfdmParameters::new` succeeds on every mode's row, and the five fields passed on are the table's |
| DabOfdmParameters.DabOfdmDerivedSizes | crates/dab_ofdm/src/dab_ofdm_parameters.rs:8-14 | cyclic prefixes of 504, 126, 63 and 252 samples; frames of 96, 24, 24 and 48 ms at 2.048 MHz |
| DabRadioParameters.GetDabRadioParameters | crates/dab_radio/src/dab_radio_parameters.rs:55-89 | neither assertion can fail; FIC and MSC symbols make up the data symbols, FIC and MSC bits make up the frame, and the three divisions are exact |
| DabRadioParameters.FibAndCifSizes | crates/dab_radio/src/dab_radio_parameters.rs:68-70 | every mode has 768-bit FIBs and 55296-bit CIFs |
| DabRadioParameters.ModeIBitBudget | crates/dab_radio/src/dab_radio_parameters.rs:64-69 | mode I: a 9216-bit FIC, 2304-bit FIGs and a 230400-bit frame |
| DabRadioParameters.OutputBitsMatchFrameBits | crates/dab_radio/src/dab_radio_parameters.rs:64-65 | the demodulator's `nb_output_bits` equals the radio layer's bits per frame for every mode |
| PiTable.Pi | crates/dab_ofdm/src/dab_ofdm_carrier_map.rs:19-26 | the walk's bin at each step is a bin of the FFT |
| PiTable.PiInjective | crates/dab_ofdm/src/dab_ofdm_carrier_map.rs:20-26 | for `N = 2^k`, `k >= 3`, the first `N` steps of the walk visit `N` different bins |
| DabOfdmCarrierMap.PiStep | crates/dab_ofdm/src/dab_ofdm_carrier_map.rs:24-26 | the walk's update is `(13 pi + N/4 - 1) mod N` |
| DabOfdmCarrierMap.BandTest | crates/dab_ofdm/src/dab_ofdm_carrier_map.rs:14-40 | the routine's band test is "transmitted bin", and its carrier index is the carrier that bin holds |
| DabOfdmCarrierMap.CarrierOf | crates/dab_ofdm/src/dab_ofdm_carrier_map.rs:35-40 | a transmitted bin holds a carrier below `K`; bins below DC give the lower half of the carriers |
| DabOfdmCarrierMap.BinOfCarrierOf | crates/dab_ofdm/src/dab_ofdm_carrier_map.rs:35-40 | the carrier index has an inverse, so bins map to carriers one to one |
| DabOfdmCarrierMap.CarrierOfInjective | crates/dab_ofdm/src/dab_ofdm_carrier_map.rs:35-40 | different transmitted bins hold different carriers |
| DabOfdmCarrierMap.Entries | crates/dab_ofdm/src/dab_ofdm_carrier_map.rs:20-43 | the walk writes at most one entry per step, each below `K` |
| DabOfdmCarrierMap.EntryOrigin | crates/dab_ofdm/src/dab_ofdm_carrier_map.rs:31-42 | each entry is the carrier of a transmitted bin visited earlier |
| DabOfdmCarrierMap.EntriesDistinct | crates/dab_ofdm/src/dab_ofdm_carrier_map.rs:20-43 | for `N = 2^m`, `m >= 3`, no carrier is entered twice |
| DabOfdmCarrierMap.PiVisitsEveryBin | crates/dab_ofdm/src/dab_ofdm_carrier_map.rs:20-26 | for `N = 2^m`, `m >= 3`, every bin is visited within the first `N` steps |
| DabOfdmCarrierMap.CarrierMapIsPermutation | crates/dab_ofdm/src/dab_ofdm_carrier_map.rs:20-43 | for `N = 2^m`, `m >= 3`, and even `K < N`, exactly `K` entries are written and they are the carriers `0..K-1`, each once |
| DabOfdmCarrierMap.GetDabOfdmCarrierMap | crates/dab_ofdm/src/dab_ofdm_carrier_map.rs:3-44 | fails exactly when an assertion fails, leaving the map as it was; otherwise it succeeds iff the entries fit, the map starts with the walk's entries and the slots after them keep their values |
| DabOfdmCarrierMap.DabCarrierMapIsPermutation | crates/dab_ofdm/src/dab_ofdm_carrier_map.rs:20-42 | for every DAB mode the map is filled completely, with each carrier exactly once |
| DabOfdmCarrierMap.DabModeIsDemodulable | crates/ofdm/src/ofdm_demodulator.rs:131-133 | every DAB mode's parameters and carrier map meet what the demodulator's constructor needs |
| DabOfdmCarrierMap.ModeIFirstEntry | crates/dab_ofdm/src/dab_ofdm_carrier_map.rs:24-41 | mode I's first entry is carrier 255, from bin 511 |
| DabOfdmCarrierMap.TwelveBinWalk | crates/dab_ofdm/src/dab_ofdm_carrier_map.rs:24-26 | with `N = 12` the walk cycles through six bins: `0, 2, 4, 6, 8, 10, 0, ...` |
| DabOfdmCarrierMap.TwelveBinWalkRepeats | crates/dab_ofdm/src/dab_ofdm_carrier_map.rs:9-12 | the assertions admit `N = 12, K = 8`, for which the map repeats carriers and misses others: the assertions alone do not make the map one to one |
| DabOfdmPhaseReferenceSymbol.BinValue | crates/dab_ofdm/src/dab_ofdm_phase_reference_symbol.rs:164-166 | a written bin is one of `1, i, -1, -i`; a zero bin is 0 |
| DabOfdmPhaseReferenceSymbol.PhasorPeriodic | crates/dab_ofdm/src/dab_ofdm_phase_reference_symbol.rs:162-166 | phase multiples four apart give the same value |
| DabOfdmPhaseReferenceSymbol.HTableRepeatsEvery16 | crates/dab_ofdm/src/dab_ofdm_phase_reference_symbol.rs:124-129 | each row of the h-table is periodic with period 16 |
| DabOfdmPhaseReferenceSymbol.ModeITiles | crates/dab_ofdm/src/dab_ofdm_phase_reference_symbol.rs:22-71 | mode I's segments tile the carriers without gap or overlap, in blocks of 32 bins |
| DabOfdmPhaseReferenceSymbol.ModeIVTiles | crates/dab_ofdm/src/dab_ofdm_phase_reference_symbol.rs:97-122 | mode IV's segments tile the carriers without gap or overlap, in blocks of 32 bins |
| DabOfdmPhaseReferenceSymbol.PrsSegmentsTile | crates/dab_ofdm/src/dab_ofdm_phase_reference_symbol.rs:22-122 | every mode's table tiles `[-K/2, -1]` and `[1, K/2]`, with `K` the mode's carrier count |
| DabOfdmPhaseReferenceSymbol.PositionInSegment | crates/dab_ofdm/src/dab_ofdm_phase_reference_symbol.rs:159-161 | column `c` of segment `j` is write position `32 j + c`, at frequency `start + c` |
| DabOfdmPhaseReferenceSymbol.PositionOfIndex | crates/dab_ofdm/src/dab_ofdm_phase_reference_symbol.rs:168-176 | each write lands inside the buffer, and different writes land on different indices |
| DabOfdmPhaseReferenceSymbol.ZeroedIsUnwritten | crates/dab_ofdm/src/dab_ofdm_phase_reference_symbol.rs:148-152 | the zeroing loop leaves the buffer in the state before any write |
| DabOfdmPhaseReferenceSymbol.WriteNextPosition | crates/dab_ofdm/src/dab_ofdm_phase_reference_symbol.rs:158-177 | each bin's write extends the written prefix by one position |
| DabOfdmPhaseReferenceSymbol.FullyWritten | crates/dab_ofdm/src/dab_ofdm_phase_reference_symbol.rs:158-178 | after the last write the buffer is the PRS spectrum |
| DabOfdmPhaseReferenceSymbol.GetDabOfdmPhaseReferenceSymbolFft | crates/dab_ofdm/src/dab_ofdm_phase_reference_symbol.rs:132-179 | the symmetry assertion never fails; the size assertion fails exactly when the buffer is not larger than `K`, and then the buffer is unchanged; otherwise the buffer is the PRS spectrum |
| DabOfdmPhaseReferenceSymbol.SegmentBinPhase | crates/dab_ofdm/src/dab_ofdm_phase_reference_symbol.rs:158-177 | bin `c` of segment `j` is the phasor `h[row][c] + n`, at index `f` for `f > 0` and `f + N` for `f < 0` |
| DabOfdmPhaseReferenceSymbol.SpectrumSupport | crates/dab_ofdm/src/dab_ofdm_phase_reference_symbol.rs:148-177 | exactly the bins `1..=K/2` and `N-K/2..N` are non-zero, so DC and the bins beyond the carriers stay zero |
| OfdmDsp.SpanSlice | crates/ofdm/src/ofdm_demodulator.rs:701-704 | a range of `length` items from `start` |
| OfdmDsp.ChunkSlice | crates/ofdm/src/ofdm_demodulator.rs:706-710 | each chunk spans `length` items |
| OfdmDsp.ChunkSlicesTile | crates/ofdm/src/ofdm_demodulator.rs:706-710 | consecutive chunks abut, and `count` chunks stay within `count * length` items |
| OfdmDsp.ChunkSlicesDisjoint | crates/ofdm/src/ofdm_demodulator.rs:706-710 | chunks with different indices do not overlap |
| OfdmDsp.ConcatChunks | crates/ofdm/src/ofdm_demodulator.rs:479-503 | blocks written chunk by chunk are read back chunk by chunk |
| OfdmDsp.TruncToInt | crates/ofdm/src/ofdm_demodulator.rs:698 | the float-to-integer cast rounds towards zero |
| OfdmDsp.QuantiseToSoftBit | crates/ofdm/src/ofdm_demodulator.rs:683-699 | the result is a valid `i8`, in `[-127, 127]` for components in `[-1, 1]`, with the opposite sign to the component |
| OfdmDsp.QuantiseFullScale | crates/ofdm/src/ofdm_demodulator.rs:690-698 | `1` gives `-127`, `-1` gives `127`, and `0` gives `0` |
| OfdmDsp.QuantiseIsOdd | crates/ofdm/src/ofdm_demodulator.rs:696-698 | within full scale, negating the component negates the soft bit |
| OfdmDsp.SoftBitPair | crates/ofdm/src/ofdm_demodulator.rs:667-680 | both soft bits of a symbol are in `[-127, 127]`, as the subscriber's doc comment promises |
| OfdmDsp.DiagonalSymbolFullScale | crates/ofdm/src/ofdm_demodulator.rs:671-676 | with the max-component scaling, a symbol with `re = im` in magnitude gets full-scale bits on both components |
| OfdmDsp.SoftBits | crates/ofdm/src/ofdm_demodulator.rs:660-681 | two soft bits per input symbol, all within `[-127, 127]` |
| OfdmDsp.CalculateSoftBits | crates/ofdm/src/ofdm_demodulator.rs:660-681 | the output slice holds the symbol's soft bits in carrier-map order, first bits then second bits, and nothing outside the slice changes |
| OfdmDsp.DqpskBin | crates/ofdm/src/ofdm_demodulator.rs:644-657 | every DQPSK output reads a bin of the FFT |
| OfdmDsp.DqpskBinRange | crates/ofdm/src/ofdm_demodulator.rs:641-657 | the bins read are `1..=K/2` and `N-K/2..N`, never the DC bin 0 |
| OfdmDsp.DqpskBinsDistinct | crates/ofdm/src/ofdm_demodulator.rs:644-657 | with `N > K` different outputs read different bins |
| OfdmDsp.DqpskReadsEveryCarrierBin | crates/ofdm/src/ofdm_demodulator.rs:644-657 | every carrier bin is read by some output |
| OfdmDsp.DqpskSharesBinWhenFftIsFull | crates/ofdm/src/ofdm_demodulator.rs:638-657 | at `N == K`, which the routine's assertions admit, the first and last outputs both read bin `N/2` |
| OfdmDsp.CalculateDqpsk | crates/ofdm/src/ofdm_demodulator.rs:630-658 | the output slice holds `x0[b] * conj(x1[b])` for each output's bin, negative frequencies first, and nothing outside the slice changes |
| OfdmDsp.DqpskIgnoresCommonRotation | crates/ofdm/src/ofdm_demodulator.rs:648-655 | a unit phase rotation common to both symbols cancels out of every DQPSK output |
| OfdmDsp.ConjProductScales | crates/ofdm/src/ofdm_demodulator.rs:557 | `conj(c a) (c b) = abs(c)^2 conj(a) b` |
| OfdmDsp.UnitRotationStep | crates/ofdm/src/ofdm_demodulator.rs:557 | for a unit `c`, the relative phase of `c a` and `c b` is that of `a` and `b` |
| OfdmDsp.CalculateRelativePhase | crates/ofdm/src/ofdm_demodulator.rs:554-561 | in place, each bin becomes `conj(x[i]) x[i+1]` of the original values, and the last becomes 0 |
| OfdmDsp.RelativePhaseIgnoresCommonRotation | crates/ofdm/src/ofdm_demodulator.rs:305-309 | the relative phase does not see a common unit phase rotation of the bins |
| OfdmDsp.CalculateMagnitudeSpectrum | crates/ofdm/src/ofdm_demodulator.rs:563-572 | the output is the dB magnitude spectrum rotated by `N/2` |
| OfdmDsp.MagnitudeSpectrumCentred | crates/ofdm/src/ofdm_demodulator.rs:324-329 | entry `N/2 + f` of the rotated spectrum is frequency `f` |
| OfdmDsp.MagnitudeSpectrumReadsEachBinOnce | crates/ofdm/src/ofdm_demodulator.rs:565-571 | the rotation reads every bin exactly once |
| OfdmDsp.L1Average | crates/ofdm/src/ofdm_demodulator.rs:546-552 | a block's mean L1 norm is non-negative |
| OfdmDsp.FloatRemainder | crates/ofdm/src/ofdm_demodulator.rs:542 | the float `%` keeps the sign of the dividend and lies strictly inside `(-b, b)` |
| OfdmDsp.FloatRemainderInsideRange | crates/ofdm/src/ofdm_demodulator.rs:541-542 | an offset already inside the wrap range is left unchanged |
| OfdmDsp.MaxByLast | crates/ofdm/src/ofdm_demodulator.rs:403-409 | `max_by` with this comparator returns a position of the maximum, the last one on ties |
| OfdmDsp.FastSine | crates/ofdm/src/ofdm_demodulator.rs:576-597 | the Horner form of `g(x^2) (x^2 - 1/4) x` with the six constants; its zeros and oddness are stated by `FastSineZeros` and `FastSineOdd` |
| OfdmDsp.FastSineZeros | crates/ofdm/src/ofdm_demodulator.rs:593-596 | the polynomial has the zeros of `sin(2 pi x)` at `0` and `±1/2` |
| OfdmDsp.FastSineOdd | crates/ofdm/src/ofdm_demodulator.rs:576-597 | the polynomial is odd, like the sine it approximates |
| OfdmDsp.CyclicPhaseError | crates/ofdm/src/ofdm_demodulator.rs:616-628 | the `atan2` argument of the sum of `suffix[i] conj(prefix[i])` over the cyclic prefix, for a symbol at least as long as its prefix |
| OfdmDsp.Ceil | crates/ofdm/src/ofdm_demodulator.rs:606 | the ceiling is the least integer not below `x` |
| OfdmDsp.WrapHalfTurn | crates/ofdm/src/ofdm_demodulator.rs:601-608 | the PLL phase is brought into `[-1/2, 1/2]` by taking off a whole number of turns |
| OfdmDsp.ApplyPllSample | crates/ofdm/src/ofdm_demodulator.rs:599-613 | each sample is rotated according to its own position only |
| OfdmDsp.ApplyPllPrefix | crates/ofdm/src/ofdm_demodulator.rs:599-613 | rotating a prefix of the block gives the prefix of the rotated block |
| OfdmDsp.ApplyPllInPlace | crates/ofdm/src/ofdm_demodulator.rs:599-614 | in place, the first `count` samples become their PLL rotations and the rest are unchanged |
| OfdmDemodulators.DefaultSettings | crates/ofdm/src/ofdm_demodulator.rs:46-62 | the defaults are usable, with a non-zero stride; the power update rate is in `[0, 1]`; the dip start threshold is below the end threshold |
| OfdmDemodulators.BlockAverages | crates/ofdm/src/ofdm_demodulator.rs:246-247 | `chunks_exact` gives `len / size` block averages, all non-negative |
| OfdmDemodulators.DecimatedCount | crates/ofdm/src/ofdm_demodulator.rs:517-528 | the decimation keeps `ceil(n / stride)` blocks, so it is empty exactly when there is no block |
| OfdmDemodulators.DecimatedPicksEveryStride | crates/ofdm/src/ofdm_demodulator.rs:517-521 | the `k`-th block kept is block `k * stride` |
| OfdmDemodulators.DecimatedStep | crates/ofdm/src/ofdm_demodulator.rs:520 | a block is kept exactly when its index is a multiple of the stride |
| OfdmDemodulators.SmoothedL1Average | crates/ofdm/src/ofdm_demodulator.rs:526-532 | with no block the average is kept; otherwise, for beta in `[0, 1]`, it ends between the old average and the mean of the decimated blocks |
| OfdmDemodulators.SignalAverageStaysNonNegative | crates/ofdm/src/ofdm_demodulator.rs:513-533 | fed L1 averages, a non-negative signal average stays non-negative, a zero stride over an input without a whole block included |
| OfdmDemodulators.ScanPowerDip | crates/ofdm/src/ofdm_demodulator.rs:246-259 | the block loop as a fold of one step per block average; what it finds is stated by `ScanFindsFirstEnd` and `ScanStaysEnded` |
| OfdmDemodulators.ScanFindsFirstEnd | crates/ofdm/src/ofdm_demodulator.rs:246-259 | the scan stops at the first block that ends the dip; when none does it reads every block and reports whether the dip started |
| OfdmDemodulators.ScanStaysEnded | crates/ofdm/src/ofdm_demodulator.rs:249-253 | once the dip has ended, further blocks change nothing |
| OfdmDemodulators.MaxCarrierOffsetBins | crates/ofdm/src/ofdm_demodulator.rs:323-325 | with the asserted range below 1, the search window around DC stays inside the `N` bins |
| OfdmDemodulators.CoarseOffsetBin | crates/ofdm/src/ofdm_demodulator.rs:324-340 | the chosen offset is within the window and at the last highest peak; a negative window size gives 0 |
| OfdmDemodulators.CoarseDelta | crates/ofdm/src/ofdm_demodulator.rs:342-354 | a fast update jumps to the measured offset; for a slow beta in `[0, 1]` the new offset lies between the old and the measured one |
| OfdmDemodulators.FineFrequencyWrap | crates/ofdm/src/ofdm_demodulator.rs:536-538 | the wrap range of the fine offset is positive |
| OfdmDemodulators.CoarseUpdateKeepsTotalOffset | crates/ofdm/src/ofdm_demodulator.rs:354-358 | moving `delta` from the fine to the coarse offset keeps their sum while the fine offset does not wrap |
| OfdmDemodulators.PeakWeight | crates/ofdm/src/ofdm_demodulator.rs:395-400 | the weight is 1 at the expected peak and falls no lower than the distance probability inside a symbol |
| OfdmDemodulators.FineTimePeak | crates/ofdm/src/ofdm_demodulator.rs:387-410 | the peak is the last position of the highest weighted impulse sample |
| OfdmDemodulators.FineTimePeakHeight | crates/ofdm/src/ofdm_demodulator.rs:412-419 | the weighted peak's value less the mean of the unweighted response, the height compared with the threshold |
| OfdmDemodulators.PrsSlice | crates/ofdm/src/ofdm_demodulator.rs:429-432 | for offsets a peak can give, the kept slice starts at `null + offset` and ends exactly at the buffer's capacity |
| OfdmDemodulators.FineFrequencyCorrection | crates/ofdm/src/ofdm_demodulator.rs:460-476 | `-beta` times the fine frequency error of the average cyclic-prefix phase error over the frame's symbols, a fraction of a bin |
| OfdmDemodulators.FrameSpectra | crates/ofdm/src/ofdm_demodulator.rs:479-486 | one spectrum of `N` bins per symbol: the FFT of the samples after its cyclic prefix |
| OfdmDemodulators.FrameDqpsk | crates/ofdm/src/ofdm_demodulator.rs:489-495 | one block of `K` DQPSK symbols per pair of consecutive spectra, `nb_output_samples` in all |
| OfdmDemodulators.FrameSoftBits | crates/ofdm/src/ofdm_demodulator.rs:498-503 | one block of `2K` soft bits per DQPSK symbol, `nb_output_bits` in all, each within `[-127, 127]` |
| OfdmDemodulators.FrameBits | crates/ofdm/src/ofdm_demodulator.rs:478-503 | a frame gives `nb_output_bits` soft bits, each within `[-127, 127]` |
| OfdmDemodulators.FrameBitsLayout | crates/ofdm/src/ofdm_demodulator.rs:478-503 | bits `2Ki..2K(i+1)` are the soft bits, in carrier-map order, of the DQPSK between the spectra of symbols `i` and `i+1` |
| OfdmDemodulators.WriteSpectra | crates/ofdm/src/ofdm_demodulator.rs:479-486 | the FFT buffer holds each symbol's spectrum in its chunk |
| OfdmDemodulators.CopyInto | crates/ofdm/src/ofdm_demodulator.rs:484 | a chunk copied after the items already written extends them by that chunk |
| OfdmDemodulators.WriteDqpsk | crates/ofdm/src/ofdm_demodulator.rs:489-495 | the DQPSK buffer holds the DQPSK of each pair of spectra in its chunk |
| OfdmDemodulators.WriteSoftBits | crates/ofdm/src/ofdm_demodulator.rs:498-503 | the output buffer holds the soft bits of each DQPSK symbol in its chunk |
| OfdmDemodulatorMachines.ScanBlocks | crates/ofdm/src/ofdm_demodulator.rs:243-259 | the loop computes the dip scan of the block averages; it reads whole blocks within the buffer, at least one when the dip ends |
| OfdmDemodulatorMachines.DecimatedL1Sum | crates/ofdm/src/ofdm_demodulator.rs:517-524 | the fold counts the decimated blocks and sums their averages; a zero stride is admitted when no whole block exists |
| OfdmDemodulatorMachines.CorrelationPrsTime | crates/ofdm/src/ofdm_demodulator.rs:178-189 | the time reference is the conjugated inverse FFT of the PRS's relative phase |
| OfdmDemodulatorMachines.NullSymbol | crates/ofdm/src/ofdm_demodulator.rs:452-453 | the NULL symbol is the last `nb_null_period` samples of the frame |
| OfdmDemodulatorMachines.FrameHoldsPrs | crates/ofdm/src/ofdm_demodulator.rs:162-166 | the PRS slice kept by fine time sync never fills the frame buffer |
| OfdmDemodulatorMachines.OfdmDemodulator.constructor | crates/ofdm/src/ofdm_demodulator.rs:131-176 | starts finding the NULL dip, with default settings, zero counters and offsets, empty buffers and the two conjugated PRS references, and the invariant holds |
| OfdmDemodulatorMachines.OfdmDemodulator.UpdateSignalPowerAverage | crates/ofdm/src/ofdm_demodulator.rs:513-533 | the signal average becomes the smoothed average of the decimated block averages; a zero stride is admitted when the input holds no whole block; the invariant is kept |
| OfdmDemodulatorMachines.OfdmDemodulator.UpdateFineFrequencyOffset | crates/ofdm/src/ofdm_demodulator.rs:535-543 | the fine offset becomes the float remainder of `fine + delta` by the wrap range, so it stays strictly inside that range |
| OfdmDemodulatorMachines.OfdmDemodulator.ResetFromDesync | crates/ofdm/src/ofdm_demodulator.rs:220-231 | back to finding the NULL dip, with an empty NULL and PRS buffer and the signal average, flag and offsets cleared |
| OfdmDemodulatorMachines.OfdmDemodulator.FindNullPowerDip | crates/ofdm/src/ofdm_demodulator.rs:233-284 | without the dip's end, all of the input goes into the dip buffer and is read; at the end, the blocks up to it are read and go into the dip buffer, the NULL and PRS buffer starts with what the dip buffer's iterator then yields from its write cursor, and the state moves to reading the NULL and PRS; that copy is the last NULL period of samples when the dip buffer has been fed at least a NULL period since its reset; in both branches the dip buffer's cells are the old ones written over from its cursor by the samples read; non-empty input is never left unread |
| OfdmDemodulatorMachines.OfdmDemodulator.KeepNullCandidate | crates/ofdm/src/ofdm_demodulator.rs:262-265 | the whole input is appended to the dip buffer's history and written into its cells from the cursor on, wrapping |
| OfdmDemodulatorMachines.OfdmDemodulator.CaptureNullSymbol | crates/ofdm/src/ofdm_demodulator.rs:270-283 | the NULL and PRS buffer starts with what the dip buffer's iterator yields once the blocks are consumed, which is the last NULL period of samples when the dip buffer has been fed at least that many; the dip buffer and the scan are cleared, and the dip buffer keeps the cells the consume left, for the next capture to read; the NULL and PRS are read next |
| OfdmDemodulatorMachines.OfdmDemodulator.CopyNullWindow | crates/ofdm/src/ofdm_demodulator.rs:270-275 | the blocks are appended to the dip buffer's history and written into its cells from the cursor on; the NULL and PRS buffer holds what the dip buffer's `iter()` yields from its write cursor after the consume; when the history then holds at least `null` samples, that is the last `null` of them, oldest first |
| OfdmDemodulatorMachines.OfdmDemodulator.FeedDipBuffer | crates/ofdm/src/ofdm_demodulator.rs:270-275 | the blocks go into the dip buffer with `consume_all`, written into its cells from the cursor on, and iterating it yields the cells read from the new write cursor (`ItemsAfterConsume` of the old cells, cursor and length), which is the last `null` samples fed once at least that many were fed |
| OfdmDemodulatorMachines.OfdmDemodulator.StartNullPrs | crates/ofdm/src/ofdm_demodulator.rs:271-275 | after the reset and the iterator copy, the NULL and PRS buffer holds exactly the samples iterated, since at most a NULL period fits |
| OfdmDemodulatorMachines.OfdmDemodulator.CopyNullWindowOldestFirst | crates/ofdm/src/ofdm_demodulator.rs:270-275 | corrected copy: with the oldest-first iteration, the NULL and PRS buffer always holds the last `null` samples fed to the dip buffer, or all of them when fewer |
| OfdmDemodulatorMachines.OfdmDemodulator.ReadNullPrs | crates/ofdm/src/ofdm_demodulator.rs:286-292 | reads `min(len, free space)` samples, at least one from non-empty input, and moves to coarse sync exactly when the buffer becomes full |
| OfdmDemodulatorMachines.OfdmDemodulator.ReadSymbols | crates/ofdm/src/ofdm_demodulator.rs:442-448 | reads `min(len, free space)` samples, at least one from non-empty input, and moves to processing exactly when the frame buffer becomes full |
| OfdmDemodulatorMachines.OfdmDemodulator.PrsFftSamples | crates/ofdm/src/ofdm_demodulator.rs:302-303 | the PRS after its cyclic prefix is `N` samples |
| OfdmDemodulatorMachines.OfdmDemodulator.PrsDataSamples | crates/ofdm/src/ofdm_demodulator.rs:363 | the samples after the NULL symbol that fine time sync reads are `N` samples |
| OfdmDemodulatorMachines.OfdmDemodulator.RunCoarseFrequencySynchronisation | crates/ofdm/src/ofdm_demodulator.rs:294-360 | disabled, it zeroes the coarse offset only and leaves the impulse response buffer as it was; enabled, it computes the impulse response and moves the coarse offset by the correction and the fine offset the opposite way, wrapped; it always goes on to fine time sync |
| OfdmDemodulatorMachines.OfdmDemodulator.EnterFineTimeSync | crates/ofdm/src/ofdm_demodulator.rs:359 | the state becomes fine time sync and the invariant holds |
| OfdmDemodulatorMachines.OfdmDemodulator.CalculateCoarseImpulseResponse | crates/ofdm/src/ofdm_demodulator.rs:302-321 | the coarse buffer holds the PRS's correlation impulse response |
| OfdmDemodulatorMachines.OfdmDemodulator.CoarseCorrectionStep | crates/ofdm/src/ofdm_demodulator.rs:324-354 | with coarse sync enabled, the step is the correction of the last highest peak in the window around DC, fast or slow as `is_fast_update` decides; nothing changes |
| OfdmDemodulatorMachines.OfdmDemodulator.ApplyCoarseCorrection | crates/ofdm/src/ofdm_demodulator.rs:323-358 | the coarse offset moves by the correction the impulse peak gives, the fine offset by its opposite, wrapped, and the offset counts as found |
| OfdmDemodulatorMachines.OfdmDemodulator.RunFineTimeSync | crates/ofdm/src/ofdm_demodulator.rs:362-440 | the impulse buffer is computed; a weak peak desyncs (reset, desync count plus exactly 1, frame buffer's length and cells untouched); otherwise the frame buffer starts at the PRS's cyclic prefix, the time offset is `peak - cp`, and symbols are read next |
| OfdmDemodulatorMachines.OfdmDemodulator.CalculateFineTimeImpulseResponse | crates/ofdm/src/ofdm_demodulator.rs:363-385 | the fine buffer holds the impulse response of the derotated samples after the NULL symbol |
| OfdmDemodulatorMachines.OfdmDemodulator.SynchroniseOnImpulsePeak | crates/ofdm/src/ofdm_demodulator.rs:387-439 | the desync-or-lock decision on the impulse response: a weak peak resets the sync state and counts a desync, leaving the frame buffer's length and cells as they were; a peak above the threshold starts the frame buffer at the PRS's cyclic prefix |
| OfdmDemodulatorMachines.OfdmDemodulator.KeepPrs | crates/ofdm/src/ofdm_demodulator.rs:426-439 | the frame buffer starts with the NULL and PRS samples from `null + offset` on; the NULL and PRS buffer is emptied and symbols are read next |
| OfdmDemodulatorMachines.OfdmDemodulator.RestartFrame | crates/ofdm/src/ofdm_demodulator.rs:434-435 | the frame buffer holds exactly the partial PRS, and is not yet full |
| OfdmDemodulatorMachines.OfdmDemodulator.ProcessSymbols | crates/ofdm/src/ofdm_demodulator.rs:450-511 | the frame's NULL symbol starts the next NULL and PRS buffer; the frame is derotated in place; the fine offset is corrected; the FFT buffer holds the derotated frame's symbol spectra, the DQPSK buffer the DQPSK of consecutive spectra, and the output buffer the frame's bits, which are handed out once; frames read plus 1; back to reading the NULL and PRS |
| OfdmDemodulatorMachines.OfdmDemodulator.CopyNullSymbol | crates/ofdm/src/ofdm_demodulator.rs:451-455 | the NULL and PRS buffer holds exactly the frame's NULL symbol |
| OfdmDemodulatorMachines.OfdmDemodulator.Derotate | crates/ofdm/src/ofdm_demodulator.rs:457-458 | the frame buffer is rotated in place by the total frequency offset |
| OfdmDemodulatorMachines.OfdmDemodulator.CorrectFineFrequency | crates/ofdm/src/ofdm_demodulator.rs:460-476 | the fine offset moves against the derotated frame's average cyclic-prefix phase error, and is wrapped |
| OfdmDemodulatorMachines.OfdmDemodulator.DemodulateSymbols | crates/ofdm/src/ofdm_demodulator.rs:457-510 | derotation, fine correction and demodulation of the derotated frame, with the FFT, DQPSK and bit buffers holding its stages and its bits handed out |
| OfdmDemodulatorMachines.OfdmDemodulator.DemodulateFrame | crates/ofdm/src/ofdm_demodulator.rs:478-510 | the FFT buffer holds the spectra of the frame's symbols, the DQPSK buffer the DQPSK of consecutive spectra and the output buffer the frame's bits; the bits are appended to the frames handed out; frames read plus 1 |
| OfdmDemodulatorMachines.OfdmDemodulator.WriteFrameBits | crates/ofdm/src/ofdm_demodulator.rs:478-503 | the FFT buffer holds `Concat(FrameSpectra)` of the frame, the DQPSK buffer `Concat(FrameDqpsk)` of those spectra and the output buffer the frame's soft bits |
| OfdmDemodulatorMachines.OfdmDemodulator.Process | crates/ofdm/src/ofdm_demodulator.rs:203-218 | for a stride that `update_signal_power_average` does not divide by zero, the loop terminates; the invariant and settings are kept; frames handed out stay handed out, and the desync count only grows |
| OfdmDemodulatorMachines.OfdmDemodulator.Step | crates/ofdm/src/ofdm_demodulator.rs:207-216 | each pass reads some samples or moves to a lower-ranked state without reading |
| OfdmDemodulatorMachines.OfdmDemodulator.RunStage | crates/ofdm/src/ofdm_demodulator.rs:211-214 | each handler that reads nothing leaves for a lower-ranked state, so such handlers cannot follow each other forever |

## Left out

- Floating point: `f32` values are exact reals. Rounding, overflow to infinity and NaN are not modelled. The one exception is the `0/0` of a zero symbol in the demapper, whose `as i8` cast gives 0.
- The FFT and inverse FFT (`rustfft`), `log10` of a magnitude and `atan2` are uninterpreted fields of `Dsp`, because they are foreign library calls.
- `fast_sine` is modelled as its exact real polynomial. How closely it approximates `sin(2 pi x)` is not stated, because that is a numerical analysis question.
- Integer widths: `usize` sizes, the `u32` frame counters and the `isize` time offset are unbounded. Overflow of a counter after `2^32` frames is not modelled.
- The `bits_out_callbacks` and `subscribe_bits_out` are not modelled. Handing a frame out appends it to the ghost sequence `bitsOut`, because the closures are foreign code.
- `temp_fft_buffer` is not a field: the values it passes between transforms are local sequences.
- The `fft` and `ifft` plans built in `new` are the `Dsp` value the constructor takes.
- OfdmDemodulatorMachines.OfdmDemodulator.constructor: requires what `new` asserts (carrier map length `K`, PRS length `N`). It also requires sizes whose violation panics later:
  - a non-empty FFT and NULL symbol;
  - a cyclic prefix no longer than the NULL symbol;
  - an even carrier count;
  - carrier-map entries below `K`.

  `DabModeIsDemodulable` shows that every DAB mode meets them.
- The helpers' `assert!`s (DQPSK sizes, soft-bit sizes, magnitude spectrum sizes, cyclic prefix length) and the empty-slice underflow of `calculate_relative_phase` are preconditions, not error results. The demodulator never calls them otherwise.
- The public `settings` field may be changed between calls; the model has no setter and states what any settings must meet. `SettingsUsable` is part of the invariant: a zero block size panics in `chunks_exact`, and a search range of 1 or more panics at the assertion of `run_coarse_frequency_synchronisation` when coarse sync is enabled. A zero stride panics only once an input holds a whole block, so `Process` and `UpdateSignalPowerAverage` require `StrideUsable` of their input.
- The settings are not changed during `process`.
- `find_null_power_dip` sets the start and end flags inside its block loop. The model sets them once, after the loop, from the scan's result. Nothing reads them in between.
- OfdmDemodulatorMachines.OfdmDemodulator.Process: the model states that the loop terminates, the invariants it keeps and that outputs only grow. It does not state which frames a given input stream produces, because that depends on the uninterpreted signal processing.
- OfdmDemodulatorMachines.OfdmDemodulator.KeepPrs: requires the offsets a peak can give, from `-cp` to below `N`. Within that range the two `max(.., 0)` clamps never act (`PrsSlice`). Offsets outside it cannot reach the method and are not modelled.
- DabOfdmCarrierMap.CarrierMapIsPermutation: proved only for power-of-two FFT lengths of at least 8 and `K < N`. The source's assertions also admit other lengths, for which `TwelveBinWalkRepeats` shows the map is not a permutation.
- `iter_mut` and `IndexMut` of `CircularBucket`, and `raw_slice`/`raw_slice_mut` of both buckets, are not modelled. The demodulator does not use them, and the circular `iter_mut` rests on an `unsafe` aliasing cast.
- The `length()` and `capacity()` getters are the `length` field and `Capacity()`.
- The PRS spectrum is computed on exact quarter-turn phasors (`Bin`). `Complex::cis` in `f32` is not modelled.
- The `DabTransmissionMode` enum lives in `dab_core/src/dab_transmission_modes.rs`. That file is not part of this model; the enum is the datatype `I | II | III | IV`.
- The command-line program, the GUI, the thread barrier and the FIC decoder stub are not part of the demodulator core and are not modelled.

## Findings

| source | as written | input that shows it | evidently intended | confidence | as-written member | corrected member |
|---|---|---|---|---|---|---|
| crates/ofdm/src/linear_bucket.rs:76-89 | `consume_from_iterator` never advances `total_read`, so it always returns 0, although the doc comment says it returns the number of samples read (modelled by `LinearBuckets.LinearBucket.ConsumeFromIterator`) | an empty bucket of capacity 1 fed one item stores it and returns 0 | return the number of items stored | high; not executed | LinearBuckets.IteratorCopyMiscount | LinearBuckets.LinearBucket.ConsumeFromIteratorCounted |
| crates/ofdm/src/circular_bucket.rs:31-39 | the iterator starts at the write cursor. Once full, that is the oldest item. Before then, the items sit behind the cursor, so iteration yields cells that were never written since the reset. `find_null_power_dip` copies the NULL symbol through this iterator (crates/ofdm/src/ofdm_demodulator.rs:273-275). | a bucket of capacity 2 fed `[7]` with `consume_all` iterates as `[0]` | start `length` cells behind the cursor, yielding the items held, oldest first | high; not executed | CircularBuckets.PartialIterReadsPastCursor | CircularBuckets.CircularBucket.IterOldestFirst |

The demodulator models the source as written. `CopyNullWindow` copies the NULL window through the dip buffer's iteration from the write cursor, and with the uncounted iterator copy, whose result is discarded. `ItemsAfterConsumeWhenFull` shows that this copy is the intended window once the dip buffer has been fed a whole NULL period since its reset. `ShortFillReadsStaleCells` shows the other case: a dip that ends within half a NULL period of that reset copies none of the samples consumed. For example, a fresh mode I demodulator whose first 600 samples have the block averages `[10, 0, 10, 10, 10, 10]` ends the dip after 300 samples and copies 300 zero cells. Later captures read whatever an earlier search left: the dip buffer's contracts carry its cells across `process` calls and through its reset, so the cells a short capture copies are determined by the samples fed before. `CopyNullWindowOldestFirst` is the corrected copy, built on `IterOldestFirst`.
