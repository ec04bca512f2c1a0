/**
 * The OFDM demodulator: a state machine fed blocks of complex baseband
 * samples. It finds the NULL symbol by a dip in the L1 power, reads the
 * NULL and phase reference symbols (PRS), corrects integral (coarse) and
 * fractional (fine) frequency offsets and the time offset of the PRS, then
 * reads a whole transmission frame and turns it into soft-decision bits.
 *
 * The numeric transforms (FFT, inverse FFT, `20 log10 |z|`, `atan2`) are
 * the fields of the `Dsp` value the demodulator is built with; subscribers
 * are modelled by the ghost sequence `bitsOut` of frames handed to them.
 */
module OfdmDemodulators {
  import opened ComplexSamples
  import opened ModularArithmetic
  import opened OfdmParameters
  import opened OfdmDsp
  import LinearBuckets
  import CircularBuckets

  datatype DemodulatorState =
    | FindingNullPowerDip
    | ReadingNullAndPrs
    | RunningCoarseFrequencySynchronisation
    | RunningFineTimeSync
    | ReadingSymbols
    | ProcessingSymbols

  /** The tuning knobs; the demodulator exposes them for change between calls. */
  datatype Settings = Settings(
    nullPowerUpdateBeta: real,
    nullPowerTotalSamples: nat,
    nullPowerDecimationFactor: nat,
    nullPowerThresholdStart: real,
    nullPowerThresholdEnd: real,
    fineFrequencyUpdateBeta: real,
    coarseFrequencyIsEnabled: bool,
    coarseFrequencyMaxRange: real,
    coarseFrequencySlowUpdateBeta: real,
    fineTimeImpulsePeakThresholdDb: real,
    fineTimeImpulsePeakDistanceProbability: real)

  /**
   * What the demodulator needs of its settings not to panic whatever it is
   * fed: blocks of at least one sample for `chunks_exact`, and, when coarse
   * frequency synchronisation runs, the asserted search range below 1.
   */
  predicate SettingsUsable(s: Settings) {
    && s.nullPowerTotalSamples > 0
    && (s.coarseFrequencyIsEnabled ==> s.coarseFrequencyMaxRange < 1.0)
  }

  /**
   * The decimation stride is taken `%` for each whole block of a buffer of
   * `n` samples, so a zero stride panics only once there is such a block.
   */
  predicate StrideUsable(s: Settings, n: nat) {
    s.nullPowerDecimationFactor > 0 || n < s.nullPowerTotalSamples
  }

  function DefaultSettings(): (s: Settings)
    ensures SettingsUsable(s) && s.nullPowerDecimationFactor > 0
    ensures 0.0 <= s.nullPowerUpdateBeta <= 1.0
    ensures s.nullPowerThresholdStart < s.nullPowerThresholdEnd
  {
    Settings(0.95, 100, 5, 0.35, 0.75, 0.95, true, 0.1, 0.1, 20.0, 0.15)
  }

  /**
   * The sizes the demodulator indexes with: a non-empty FFT (the relative
   * phase of the PRS underflows on an empty one), a non-empty NULL symbol
   * (the power-dip buffer wraps modulo its capacity), a cyclic prefix no
   * longer than the NULL symbol (the fine-time slice starts inside the
   * buffer) and an even carrier count (asserted by the DQPSK step).
   */
  predicate Demodulable(p: OfdmParams) {
    && WellFormed(p)
    && p.nbFft > 0
    && p.nbNullPeriod > 0
    && p.nbCyclicPrefix <= p.nbNullPeriod
    && p.nbFftDataCarriers % 2 == 0
  }

  // ---------------------------------------------------------------------
  // Signal power average

  /** The L1 average of every block of `chunks_exact(size)`; a short tail is dropped. */
  function BlockAverages(buf: seq<Complex>, size: nat): (r: seq<real>)
    requires size > 0
    ensures |r| == |buf| / size
    ensures |buf| < size ==> r == []
    ensures forall i :: 0 <= i < |r| ==> r[i] >= 0.0
  {
    if |buf| < size then
      ModUnique(|buf|, 0, |buf|, size);
      []
    else
      seq(|buf| / size, i requires 0 <= i < |buf| / size =>
      ExactChunkInside(|buf|, size, i);
      L1Average(Chunk(buf, i, size)))
  }

  /** The items at positions `0, stride, 2 * stride, ...`, kept by `index % stride == 0`. */
  function Decimated(s: seq<real>, stride: nat): seq<real>
    requires stride > 0 || s == []
  {
    if s == [] then []
    else Decimated(s[..|s| - 1], stride) + (if (|s| - 1) % stride == 0 then [s[|s| - 1]] else [])
  }

  /** The decimation keeps `ceil(n / stride)` items; so it is empty exactly when there is no block. */
  lemma {:induction false} DecimatedCount(s: seq<real>, stride: nat)
    requires stride > 0
    ensures |Decimated(s, stride)| == (|s| + stride - 1) / stride
    ensures Decimated(s, stride) == [] <==> s == []
  {
    if s == [] {
      ModUnique(stride - 1, 0, stride - 1, stride);
    } else {
      var m := |s| - 1;
      DecimatedCount(s[..m], stride);
      var q, r := m / stride, m % stride;
      assert m == q * stride + r;
      ModUnique(m + stride, q + 1, r, stride);
      if r == 0 {
        ModUnique(m + stride - 1, q, stride - 1, stride);
      } else {
        ModUnique(m + stride - 1, q + 1, r - 1, stride);
      }
    }
  }

  /** The `k`-th item kept is item `k * stride`. */
  lemma {:induction false} DecimatedPicksEveryStride(s: seq<real>, stride: nat)
    requires stride > 0
    ensures forall k :: 0 <= k < |Decimated(s, stride)| ==> k * stride < |s| && Decimated(s, stride)[k] == s[k * stride]
  {
    if s != [] {
      var m := |s| - 1;
      var p := s[..m];
      DecimatedPicksEveryStride(p, stride);
      var d, dp := Decimated(s, stride), Decimated(p, stride);
      if m % stride == 0 {
        DecimatedCount(p, stride);
        var q := DecimatedCountAtMultiple(m, stride);
        assert d == dp + [s[m]];
        forall k | 0 <= k < |d|
          ensures k * stride < |s| && d[k] == s[k * stride]
        {
          if k < q {
            assert d[k] == dp[k];
          }
        }
      } else {
        assert d == dp;
      }
    }
  }

  /** `m` a multiple of `stride`: `ceil(m / stride)` is `m / stride`, and that times `stride` is `m`. */
  lemma DecimatedCountAtMultiple(m: nat, stride: nat) returns (q: nat)
    requires stride > 0 && m % stride == 0
    ensures (m + stride - 1) / stride == q && q * stride == m
  {
    q := m / stride;
    ModUnique(m + stride - 1, q, stride - 1, stride);
  }

  /** Decimating one more item keeps it exactly when its index is a multiple of the stride. */
  lemma DecimatedStep(s: seq<real>, stride: nat, i: nat)
    requires stride > 0 && i < |s|
    ensures i % stride == 0 ==> Decimated(s[..i + 1], stride) == Decimated(s[..i], stride) + [s[i]]
    ensures i % stride != 0 ==> Decimated(s[..i + 1], stride) == Decimated(s[..i], stride)
  {
    assert s[..i + 1][..i] == s[..i];
    assert Decimated(s[..i], stride) + [] == Decimated(s[..i], stride);
  }

  lemma SumRealsAppend(s: seq<real>, x: real)
    ensures SumReals(s + [x]) == SumReals(s) + x
  {
    assert (s + [x])[..|s|] == s;
  }

  function Mean(s: seq<real>): real
    requires |s| > 0
  {
    SumReals(s) / (|s| as real)
  }

  /** The smaller of two reals, to bound the smoothed average. */
  function MinReal(a: real, b: real): real {
    if a < b then a else b
  }

  /**
   * The exponential update of the signal's L1 average: with no decimated
   * block the average is kept, otherwise it moves by `beta` towards the mean
   * of the decimated block averages, ending between the two.
   */
  function SmoothedL1Average(previous: real, decimated: seq<real>, beta: real): (r: real)
    ensures decimated == [] ==> r == previous
    ensures decimated != [] && 0.0 <= beta <= 1.0 ==>
      MinReal(previous, Mean(decimated)) <= r <= Max(previous, Mean(decimated))
  {
    if decimated == [] then previous
    else
      var average := Mean(decimated);
      if 0.0 <= beta <= 1.0 then
        ConvexCombination(average, previous, beta);
        beta * average + (1.0 - beta) * previous
      else
        beta * average + (1.0 - beta) * previous
  }

  /** `beta * a + (1 - beta) * b` lies between `a` and `b` for `beta` in `[0, 1]`. */
  lemma ConvexCombination(a: real, b: real, beta: real)
    requires 0.0 <= beta <= 1.0
    ensures MinReal(a, b) <= beta * a + (1.0 - beta) * b <= Max(a, b)
  {
    assert beta * a + (1.0 - beta) * b == b + beta * (a - b);
    if a >= b {
      ScaleWithinUnit(beta, a - b);
    } else {
      ScaleWithinUnit(beta, b - a);
      assert beta * (a - b) == -(beta * (b - a));
    }
  }

  lemma ScaleWithinUnit(beta: real, x: real)
    requires 0.0 <= beta <= 1.0 && x >= 0.0
    ensures 0.0 <= beta * x <= x
  {
    if x > 0.0 {
      ScalePositive(x, beta);
      ScalePositive(x, 1.0 - beta);
      assert x * (1.0 - beta) == x - beta * x;
    }
  }

  /** Sums and means of non-negative values are non-negative. */
  lemma {:induction false} SumOfNonNegative(s: seq<real>)
    requires forall i :: 0 <= i < |s| ==> s[i] >= 0.0
    ensures SumReals(s) >= 0.0
    ensures |s| > 0 ==> Mean(s) >= 0.0
  {
    if s != [] {
      SumOfNonNegative(s[..|s| - 1]);
    }
  }

  /**
   * Fed only L1 averages, the signal average of a demodulator that starts
   * at zero never turns negative when `beta` is in `[0, 1]`.
   */
  lemma SignalAverageStaysNonNegative(previous: real, buf: seq<Complex>, s: Settings)
    requires SettingsUsable(s) && StrideUsable(s, |buf|) && previous >= 0.0 && 0.0 <= s.nullPowerUpdateBeta <= 1.0
    ensures SmoothedL1Average(previous,
      Decimated(BlockAverages(buf, s.nullPowerTotalSamples), s.nullPowerDecimationFactor),
      s.nullPowerUpdateBeta) >= 0.0
  {
    var avgs := BlockAverages(buf, s.nullPowerTotalSamples);
    var d := Decimated(avgs, s.nullPowerDecimationFactor);
    if s.nullPowerDecimationFactor > 0 {
      DecimatedPicksEveryStride(avgs, s.nullPowerDecimationFactor);
      assert forall k :: 0 <= k < |d| ==> d[k] >= 0.0;
      SumOfNonNegative(d);
    }
  }

  // ---------------------------------------------------------------------
  // Power-dip scan for the NULL symbol

  /** How many blocks the scan read and what it found. */
  datatype DipScan = DipScan(blocksRead: nat, startFound: bool, endFound: bool)

  /**
   * One block of the scan: once the start of the dip is known a block
   * above the end threshold ends it; before that a block below the start
   * threshold starts it. An ended scan reads no further.
   */
  function ScanStep(s: DipScan, average: real, startThreshold: real, endThreshold: real): DipScan {
    if s.endFound then s
    else if s.startFound then DipScan(s.blocksRead + 1, true, average > endThreshold)
    else DipScan(s.blocksRead + 1, average < startThreshold, false)
  }

  /** The scan over the block averages in order. */
  function ScanPowerDip(averages: seq<real>, startFound: bool, startThreshold: real, endThreshold: real): DipScan {
    if averages == [] then DipScan(0, startFound, false)
    else ScanStep(ScanPowerDip(averages[..|averages| - 1], startFound, startThreshold, endThreshold),
      averages[|averages| - 1], startThreshold, endThreshold)
  }

  /** The dip had started before block `j`: already on entry, or at an earlier block. */
  ghost predicate StartedBefore(averages: seq<real>, startFound: bool, startThreshold: real, j: nat) {
    startFound || exists i :: 0 <= i < j && i < |averages| && averages[i] < startThreshold
  }

  /** Block `j` rises above the end threshold after the dip has started. */
  ghost predicate EndsAt(averages: seq<real>, startFound: bool, startThreshold: real, endThreshold: real, j: nat) {
    j < |averages| && StartedBefore(averages, startFound, startThreshold, j) && averages[j] > endThreshold
  }

  lemma StartedBeforePrefix(averages: seq<real>, startFound: bool, startThreshold: real, n: nat, j: nat)
    requires j <= n <= |averages|
    ensures StartedBefore(averages[..n], startFound, startThreshold, j) == StartedBefore(averages, startFound, startThreshold, j)
  {
    if StartedBefore(averages, startFound, startThreshold, j) && !startFound {
      var i :| 0 <= i < j && i < |averages| && averages[i] < startThreshold;
      assert averages[..n][i] == averages[i];
    }
  }

  /** Starting before `j` and the block `j` itself: starting before `j + 1`. */
  lemma StartedBeforeNext(averages: seq<real>, startFound: bool, startThreshold: real, j: nat)
    requires j < |averages|
    ensures StartedBefore(averages, startFound, startThreshold, j + 1)
      == (StartedBefore(averages, startFound, startThreshold, j) || averages[j] < startThreshold)
  {
    if StartedBefore(averages, startFound, startThreshold, j + 1) && !startFound {
      var i :| 0 <= i < j + 1 && i < |averages| && averages[i] < startThreshold;
      if i < j {
        assert StartedBefore(averages, startFound, startThreshold, j);
      }
    }
  }

  /**
   * The scan stops at the first block that ends the dip and reads every
   * block when none does; in that case it reports whether the dip started.
   */
  lemma {:induction false} ScanFindsFirstEnd(averages: seq<real>, startFound: bool, startThreshold: real, endThreshold: real)
    ensures var r := ScanPowerDip(averages, startFound, startThreshold, endThreshold);
      r.endFound ==>
        && 1 <= r.blocksRead <= |averages|
        && EndsAt(averages, startFound, startThreshold, endThreshold, r.blocksRead - 1)
        && forall j :: 0 <= j < r.blocksRead - 1 ==> !EndsAt(averages, startFound, startThreshold, endThreshold, j)
    ensures var r := ScanPowerDip(averages, startFound, startThreshold, endThreshold);
      !r.endFound ==>
        && r.blocksRead == |averages|
        && (forall j :: 0 <= j < |averages| ==> !EndsAt(averages, startFound, startThreshold, endThreshold, j))
        && (r.startFound <==> StartedBefore(averages, startFound, startThreshold, |averages|))
  {
    if averages != [] {
      var n := |averages|;
      var p := averages[..n - 1];
      ScanFindsFirstEnd(p, startFound, startThreshold, endThreshold);
      forall j | 0 <= j < n - 1
        ensures EndsAt(p, startFound, startThreshold, endThreshold, j) == EndsAt(averages, startFound, startThreshold, endThreshold, j)
      {
        StartedBeforePrefix(averages, startFound, startThreshold, n - 1, j);
      }
      StartedBeforePrefix(averages, startFound, startThreshold, n - 1, n - 1);
      StartedBeforeNext(averages, startFound, startThreshold, n - 1);
    }
  }

  /** An ended scan is not changed by further blocks. */
  lemma {:induction false} ScanStaysEnded(averages: seq<real>, startFound: bool, startThreshold: real, endThreshold: real, i: nat, n: nat)
    requires i <= n <= |averages|
    requires ScanPowerDip(averages[..i], startFound, startThreshold, endThreshold).endFound
    ensures ScanPowerDip(averages[..n], startFound, startThreshold, endThreshold)
         == ScanPowerDip(averages[..i], startFound, startThreshold, endThreshold)
    decreases n - i
  {
    if i < n {
      assert averages[..i + 1][..i] == averages[..i];
      ScanStaysEnded(averages, startFound, startThreshold, endThreshold, i + 1, n);
    }
  }

  /** The last `n` items of `s`, or all of them when there are fewer. */
  function LastItems<T>(s: seq<T>, n: nat): (r: seq<T>)
    ensures |r| <= n
  {
    if |s| <= n then s else s[|s| - n..]
  }

  // ---------------------------------------------------------------------
  // Coarse frequency synchronisation

  /**
   * The PRS correlated against the reference in the frequency domain by
   * multiplication in time: FFT, relative phase of consecutive bins,
   * inverse FFT, product with the conjugated reference, FFT again, and the
   * centred dB magnitude.
   */
  function CoarseImpulseResponse(dsp: Dsp, prsFft: seq<Complex>, correlationPrsTime: seq<Complex>): (r: seq<real>)
    requires |prsFft| == |correlationPrsTime|
    ensures |r| == |prsFft|
  {
    var phase := Ifft(dsp, RelativePhase(Fft(dsp, prsFft)));
    MagnitudeSpectrum(Fft(dsp, PointwiseMul(phase, correlationPrsTime)), dsp.db)
  }

  /**
   * `floor(0.5 * maxRange * N)`: how many bins either side of DC are
   * searched. With the asserted range below 1 the window stays inside the
   * `N` bins.
   */
  function MaxCarrierOffsetBins(maxRange: real, nbFft: nat): (m: int)
    ensures maxRange < 1.0 && nbFft > 0 && m >= 0 ==> 0 <= nbFft / 2 - m && nbFft / 2 + m < nbFft
  {
    var x := 0.5 * maxRange * (nbFft as real);
    if maxRange < 1.0 && nbFft > 0 then
      ProductBelow(maxRange, nbFft as real);
      FloorInsideHalf(x, nbFft);
      x.Floor
    else
      x.Floor
  }

  /** A non-negative floor below `n / 2` keeps `n / 2 ± floor` inside `0 .. n`. */
  lemma FloorInsideHalf(x: real, n: nat)
    requires x < 0.5 * (n as real)
    ensures x.Floor >= 0 ==> 0 <= n / 2 - x.Floor && n / 2 + x.Floor < n
  {
    var m := x.Floor;
    if m >= 0 {
      assert (m as real) <= x;
      assert 2 * m < n;
      assert n == 2 * (n / 2) + n % 2;
    }
  }

  /** `0.5 * r * n < 0.5 * n` for `r < 1` and positive `n`. */
  lemma ProductBelow(r: real, n: real)
    requires r < 1.0 && n > 0.0
    ensures 0.5 * r * n < 0.5 * n
  {
    assert 0.5 * n - 0.5 * r * n == 0.5 * ((1.0 - r) * n);
    ScalePositive(n, 1.0 - r);
    assert (1.0 - r) * n == n * (1.0 - r);
  }

  /**
   * The offset of the last highest peak within `maxOffset` bins of DC
   * (`max_by` keeps the later of equal items), or 0 when the window is empty.
   */
  function CoarseOffsetBin(response: seq<real>, maxOffset: int): (offset: int)
    requires maxOffset < 0 || (0 <= |response| / 2 - maxOffset && |response| / 2 + maxOffset < |response|)
    ensures maxOffset < 0 ==> offset == 0
    ensures maxOffset >= 0 ==> -maxOffset <= offset <= maxOffset
    ensures maxOffset >= 0 ==> forall b :: |response| / 2 - maxOffset <= b <= |response| / 2 + maxOffset ==>
      response[b] <= response[|response| / 2 + offset]
    ensures maxOffset >= 0 ==> forall b :: |response| / 2 + offset < b <= |response| / 2 + maxOffset ==>
      response[b] < response[|response| / 2 + offset]
  {
    if maxOffset < 0 then 0
    else
      var dc := |response| / 2;
      var window := response[dc - maxOffset..dc + maxOffset + 1];
      var best := MaxByLast(window);
      assert forall b :: dc - maxOffset <= b <= dc + maxOffset ==> response[b] == window[b - (dc - maxOffset)];
      best - maxOffset
  }

  /** A coarse step changes the estimate by more than 1.5 bins, or is the first estimate. */
  predicate IsFastCoarseUpdate(delta: real, nbFft: nat, isFound: bool)
    requires nbFft > 0
  {
    Abs(delta) > 1.5 / (nbFft as real) || !isFound
  }

  /**
   * The change made to the coarse offset: a fast update jumps to the
   * measured offset, a slow one moves `slowBeta` of the way, which for
   * `slowBeta` in `[0, 1]` lands between the old and the measured offsets.
   */
  function CoarseDelta(previous: real, current: real, nbFft: nat, isFound: bool, slowBeta: real): (d: real)
    requires nbFft > 0
    ensures IsFastCoarseUpdate(current - previous, nbFft, isFound) ==> previous + d == current
    ensures 0.0 <= slowBeta <= 1.0 ==> MinReal(previous, current) <= previous + d <= Max(previous, current)
  {
    var delta := current - previous;
    var beta := if IsFastCoarseUpdate(delta, nbFft, isFound) then 1.0 else slowBeta;
    if 0.0 <= beta <= 1.0 then
      ConvexCombination(current, previous, beta);
      assert previous + beta * delta == beta * current + (1.0 - beta) * previous;
      beta * delta
    else
      beta * delta
  }

  /**
   * The coarse correction measured from an impulse response: the peak bin
   * offset near DC, as a fraction of the sample rate with its sign
   * reversed, approached fast or slowly from the previous estimate.
   */
  function CoarseCorrection(response: seq<real>, s: Settings, previous: real, isFound: bool): (d: real)
    requires |response| > 0 && s.coarseFrequencyMaxRange < 1.0
  {
    var nbFft := |response|;
    var offset := CoarseOffsetBin(response, MaxCarrierOffsetBins(s.coarseFrequencyMaxRange, nbFft));
    var current := (-offset as real) / (nbFft as real);
    CoarseDelta(previous, current, nbFft, isFound, s.coarseFrequencySlowUpdateBeta)
  }

  /** Half an FFT bin, with a 1% margin: the range the fine offset is wrapped into. */
  function FineFrequencyWrap(nbFft: nat): (w: real)
    requires nbFft > 0
    ensures w > 0.0
  {
    1.0 / (nbFft as real) * 0.5 * 1.01
  }

  /**
   * Moving `delta` from the fine to the coarse offset leaves their sum, the
   * total frequency correction, unchanged as long as the fine offset does
   * not wrap.
   */
  lemma CoarseUpdateKeepsTotalOffset(coarse: real, fine: real, delta: real, nbFft: nat)
    requires nbFft > 0
    requires -FineFrequencyWrap(nbFft) < fine - delta < FineFrequencyWrap(nbFft)
    ensures (coarse + delta) + FloatRemainder(fine - delta, FineFrequencyWrap(nbFft)) == coarse + fine
  {
    FloatRemainderInsideRange(fine - delta, FineFrequencyWrap(nbFft));
  }

  // ---------------------------------------------------------------------
  // Fine time synchronisation

  /**
   * The first `N` samples after the NULL symbol, derotated by the total
   * frequency offset and correlated with the PRS by multiplication in the
   * frequency domain, as a dB impulse response.
   */
  function FineTimeImpulseResponse(dsp: Dsp, prsData: seq<Complex>, totalOffset: real, correlationPrsFft: seq<Complex>): (r: seq<real>)
    requires |prsData| == |correlationPrsFft|
    ensures |r| == |prsData|
  {
    var y := Ifft(dsp, PointwiseMul(Fft(dsp, ApplyPll(prsData, totalOffset)), correlationPrsFft));
    seq(|y|, i requires 0 <= i < |y| => dsp.db(y[i]))
  }

  /**
   * The weight of impulse sample `i`: 1 at the expected peak (the end of the
   * cyclic prefix), falling linearly with the distance measured in symbol
   * periods, by `1 - probability` per period.
   */
  function PeakWeight(i: nat, nbCyclicPrefix: nat, nbSymbolPeriod: nat, probability: real): (w: real)
    requires nbSymbolPeriod > 0
    ensures i == nbCyclicPrefix ==> w == 1.0
    ensures i < nbSymbolPeriod && nbCyclicPrefix < nbSymbolPeriod && 0.0 <= probability <= 1.0 ==>
      probability <= w <= 1.0
  {
    var distance := if i <= nbCyclicPrefix then nbCyclicPrefix - i else i - nbCyclicPrefix;
    var normDistance := (distance as real) / (nbSymbolPeriod as real);
    var w := 1.0 - (1.0 - probability) * normDistance;
    if i < nbSymbolPeriod && nbCyclicPrefix < nbSymbolPeriod && 0.0 <= probability <= 1.0 then
      DivWithinUnit(distance as real, nbSymbolPeriod as real);
      ConvexCombination(1.0, probability, 1.0 - normDistance);
      assert w == (1.0 - normDistance) * 1.0 + (1.0 - (1.0 - normDistance)) * probability;
      w
    else
      w
  }

  function WeightedImpulseResponse(response: seq<real>, nbCyclicPrefix: nat, nbSymbolPeriod: nat, probability: real): (r: seq<real>)
    requires nbSymbolPeriod > 0
    ensures |r| == |response|
  {
    seq(|response|, i requires 0 <= i < |response| =>
      PeakWeight(i, nbCyclicPrefix, nbSymbolPeriod, probability) * response[i])
  }

  /**
   * The index of the weighted impulse peak: the last of the highest
   * weighted samples, as `max_by` keeps it.
   */
  function FineTimePeak(response: seq<real>, nbCyclicPrefix: nat, nbSymbolPeriod: nat, probability: real): (peak: nat)
    requires |response| > 0 && nbSymbolPeriod > 0
    ensures peak < |response|
    ensures var w := WeightedImpulseResponse(response, nbCyclicPrefix, nbSymbolPeriod, probability);
      (forall j :: 0 <= j < |w| ==> w[j] <= w[peak]) && (forall j :: peak < j < |w| ==> w[j] < w[peak])
  {
    MaxByLast(WeightedImpulseResponse(response, nbCyclicPrefix, nbSymbolPeriod, probability))
  }

  /**
   * How far the weighted peak stands above the average of the unweighted
   * response, in dB; a peak lower than the threshold means the demodulator
   * lost the frame.
   */
  function FineTimePeakHeight(response: seq<real>, nbCyclicPrefix: nat, nbSymbolPeriod: nat, probability: real): real
    requires |response| > 0 && nbSymbolPeriod > 0
  {
    var w := WeightedImpulseResponse(response, nbCyclicPrefix, nbSymbolPeriod, probability);
    w[FineTimePeak(response, nbCyclicPrefix, nbSymbolPeriod, probability)] - SumReals(response) / (|response| as real)
  }

  /**
   * The samples kept after fine time sync: from `null + offset` to the end
   * of the NULL and PRS buffer, clamped at 0 on both ends. For every offset
   * a peak inside the FFT window can give, the slice starts inside the
   * buffer and ends exactly at its capacity.
   */
  function PrsSlice(nbNullPeriod: nat, nbSymbolPeriod: nat, offset: int): (r: SliceRange)
    ensures -(nbNullPeriod as int) <= offset <= nbSymbolPeriod as int ==>
      r.start == nbNullPeriod + offset && r.end == nbNullPeriod + nbSymbolPeriod
  {
    var start := if nbNullPeriod + offset > 0 then nbNullPeriod + offset else 0;
    var length := if nbSymbolPeriod - offset > 0 then nbSymbolPeriod - offset else 0;
    SpanSlice(start, length)
  }

  // ---------------------------------------------------------------------
  // Symbol processing

  /** `std::f32::consts::PI` as an `f32`. */
  const Pi: real := 3.1415927410125732421875

  /** Symbol `i` of the frame, cyclic prefix included. */
  function FrameSymbol(x: seq<Complex>, p: OfdmParams, i: nat): (s: seq<Complex>)
    requires WellFormed(p) && |x| == p.nbInputSamples && i < p.nbSymbols
    ensures |s| == p.nbSymbolPeriod
  {
    ChunkInside(p.nbSymbols, p.nbSymbolPeriod, i);
    Chunk(x, i, p.nbSymbolPeriod)
  }

  /** The cyclic-prefix phase error of every symbol, added in order. */
  function TotalPhaseError(dsp: Dsp, x: seq<Complex>, p: OfdmParams, n: nat): real
    requires WellFormed(p) && |x| == p.nbInputSamples && n <= p.nbSymbols
  {
    if n == 0 then 0.0
    else TotalPhaseError(dsp, x, p, n - 1) + CyclicPhaseError(FrameSymbol(x, p, n - 1), p.nbCyclicPrefix, dsp.arg)
  }

  /** The fine offset error: the average phase error as a fraction of half a bin. */
  function FineFrequencyError(averagePhaseError: real, nbFft: nat): real
    requires nbFft > 0
  {
    1.0 / (nbFft as real) / 2.0 * averagePhaseError / Pi
  }

  /** The spectrum of symbol `i`: the FFT of the samples after its cyclic prefix. */
  function SymbolSpectrum(dsp: Dsp, x: seq<Complex>, p: OfdmParams, i: nat): (s: seq<Complex>)
    requires WellFormed(p) && |x| == p.nbInputSamples && i < p.nbSymbols
    ensures |s| == p.nbFft
  {
    Fft(dsp, FrameSymbol(x, p, i)[p.nbCyclicPrefix..])
  }

  /**
   * The change made to the fine offset after a frame: `beta` of the way
   * against the average cyclic-prefix phase error, as a fraction of a bin.
   */
  function FineFrequencyCorrection(dsp: Dsp, x: seq<Complex>, p: OfdmParams, beta: real): real
    requires WellFormed(p) && p.nbFft > 0 && |x| == p.nbInputSamples
  {
    var averagePhaseError := TotalPhaseError(dsp, x, p, p.nbSymbols) / (p.nbSymbols as real);
    -beta * FineFrequencyError(averagePhaseError, p.nbFft)
  }

  /** The spectra of every symbol of the frame. */
  function FrameSpectra(dsp: Dsp, x: seq<Complex>, p: OfdmParams): (r: seq<seq<Complex>>)
    requires WellFormed(p) && |x| == p.nbInputSamples
    ensures |r| == p.nbSymbols && |Concat(r)| == p.nbSymbols * p.nbFft
    ensures forall i :: 0 <= i < |r| ==> r[i] == SymbolSpectrum(dsp, x, p, i)
  {
    var r := seq(p.nbSymbols, i requires 0 <= i < p.nbSymbols => SymbolSpectrum(dsp, x, p, i));
    ConcatChunks(r, p.nbFft);
    r
  }

  /** The DQPSK symbols between spectrum `i` of the FFT buffer and spectrum `i + 1`. */
  function DqpskOf(p: OfdmParams, spectra: seq<Complex>, i: nat): seq<Complex>
    requires Demodulable(p) && |spectra| == p.nbSymbols * p.nbFft && i < p.nbDqpskSymbols
  {
    Dqpsk(p.nbFft, p.nbFftDataCarriers,
      ChunkOf(spectra, p.nbSymbols, p.nbFft, i), ChunkOf(spectra, p.nbSymbols, p.nbFft, i + 1))
  }

  /** The DQPSK symbols between each spectrum of the FFT buffer and the next. */
  function FrameDqpsk(p: OfdmParams, spectra: seq<Complex>): (r: seq<seq<Complex>>)
    requires Demodulable(p) && |spectra| == p.nbSymbols * p.nbFft
    ensures |r| == p.nbDqpskSymbols && |Concat(r)| == p.nbOutputSamples
    ensures forall i :: 0 <= i < |r| ==> r[i] == DqpskOf(p, spectra, i)
  {
    var r := seq(p.nbDqpskSymbols, i requires 0 <= i < p.nbDqpskSymbols => DqpskOf(p, spectra, i));
    ConcatChunks(r, p.nbFftDataCarriers);
    r
  }

  /** The soft bits of DQPSK symbol `i` of the DQPSK buffer. */
  function SoftBitsOf(p: OfdmParams, carrierMapper: seq<nat>, dqpsk: seq<Complex>, i: nat): seq<int>
    requires Demodulable(p) && IsCarrierMap(carrierMapper, p.nbFftDataCarriers)
    requires |dqpsk| == p.nbOutputSamples && i < p.nbDqpskSymbols
  {
    SoftBits(carrierMapper, ChunkOf(dqpsk, p.nbDqpskSymbols, p.nbFftDataCarriers, i))
  }

  /** The soft bits of each DQPSK symbol of the DQPSK buffer. */
  function FrameSoftBits(p: OfdmParams, carrierMapper: seq<nat>, dqpsk: seq<Complex>): (r: seq<seq<int>>)
    requires Demodulable(p) && IsCarrierMap(carrierMapper, p.nbFftDataCarriers)
    requires |dqpsk| == p.nbOutputSamples
    ensures |r| == p.nbDqpskSymbols && |Concat(r)| == p.nbOutputBits
    ensures forall i :: 0 <= i < |r| ==> r[i] == SoftBitsOf(p, carrierMapper, dqpsk, i)
    ensures forall k :: 0 <= k < |Concat(r)| ==> -127 <= Concat(r)[k] <= 127
  {
    var r := seq(p.nbDqpskSymbols, i requires 0 <= i < p.nbDqpskSymbols =>
      SoftBitsOf(p, carrierMapper, dqpsk, i));
    ConcatChunks(r, 2 * p.nbFftDataCarriers);
    ConcatWithin(r, -127, 127);
    OutputBitsPerSymbol(p);
    r
  }

  /** The soft bits one frame of input samples demodulates to. */
  function FrameBits(dsp: Dsp, x: seq<Complex>, p: OfdmParams, carrierMapper: seq<nat>): (bits: seq<int>)
    requires Demodulable(p) && IsCarrierMap(carrierMapper, p.nbFftDataCarriers)
    requires |x| == p.nbInputSamples
    ensures |bits| == p.nbOutputBits == p.nbDqpskSymbols * (2 * p.nbFftDataCarriers)
    ensures forall k :: 0 <= k < |bits| ==> -127 <= bits[k] <= 127
  {
    OutputBitsPerSymbol(p);
    var dqpsk := Concat(FrameDqpsk(p, Concat(FrameSpectra(dsp, x, p))));
    Concat(FrameSoftBits(p, carrierMapper, dqpsk))
  }

  /**
   * The layout of a processed frame: bits `2K i .. 2K (i + 1)` are the soft
   * bits, in carrier-map order, of the DQPSK symbol between the spectra of
   * symbols `i` and `i + 1`.
   */
  lemma FrameBitsLayout(dsp: Dsp, x: seq<Complex>, p: OfdmParams, carrierMapper: seq<nat>, i: nat)
    requires Demodulable(p) && IsCarrierMap(carrierMapper, p.nbFftDataCarriers)
    requires |x| == p.nbInputSamples && i < p.nbDqpskSymbols
    ensures ChunkOf(FrameBits(dsp, x, p, carrierMapper), p.nbDqpskSymbols, 2 * p.nbFftDataCarriers, i)
         == SoftBits(carrierMapper, Dqpsk(p.nbFft, p.nbFftDataCarriers,
              SymbolSpectrum(dsp, x, p, i), SymbolSpectrum(dsp, x, p, i + 1)))
  {
    var s := FrameSpectra(dsp, x, p);
    ConcatChunks(s, p.nbFft);
    var spectra := Concat(s);
    assert ChunkOf(spectra, p.nbSymbols, p.nbFft, i) == SymbolSpectrum(dsp, x, p, i);
    assert ChunkOf(spectra, p.nbSymbols, p.nbFft, i + 1) == SymbolSpectrum(dsp, x, p, i + 1);
    var d := FrameDqpsk(p, spectra);
    ConcatChunks(d, p.nbFftDataCarriers);
    var dqpsk := Concat(d);
    assert ChunkOf(dqpsk, p.nbDqpskSymbols, p.nbFftDataCarriers, i) == d[i];
    var b := FrameSoftBits(p, carrierMapper, dqpsk);
    ConcatChunks(b, 2 * p.nbFftDataCarriers);
    assert ChunkOf(Concat(b), p.nbDqpskSymbols, 2 * p.nbFftDataCarriers, i) == b[i];
  }

  /** Writes the spectrum of every symbol into its chunk of `out`. */
  method WriteSpectra(dsp: Dsp, p: OfdmParams, x: seq<Complex>, out: array<Complex>)
    requires WellFormed(p) && |x| == p.nbInputSamples && out.Length == p.nbSymbols * p.nbFft
    modifies out
    ensures out[..] == Concat(FrameSpectra(dsp, x, p))
  {
    ghost var spectra := FrameSpectra(dsp, x, p);
    var at: nat := 0;
    for i := 0 to p.nbSymbols
      invariant at == i * p.nbFft && at <= out.Length
      invariant out[..at] == Concat(spectra[..i])
    {
      ChunkInside(p.nbSymbols, p.nbFft, i);
      var spectrum := SymbolSpectrum(dsp, x, p, i);
      CopyInto(out, at, spectrum);
      ConcatPrefixStep(spectra, i);
      at := at + p.nbFft;
    }
    assert spectra[..p.nbSymbols] == spectra;
  }

  /** Copies `chunk` into `out` from position `at`, after the items already written. */
  method CopyInto<T>(out: array<T>, at: nat, chunk: seq<T>)
    requires at + |chunk| <= out.Length
    modifies out
    ensures out[..at + |chunk|] == old(out[..at]) + chunk
  {
    forall k | 0 <= k < |chunk| {
      out[at + k] := chunk[k];
    }
    assert out[..at + |chunk|] == out[..at] + chunk;
  }

  /** One more block of a prefix adds that block to its concatenation. */
  lemma ConcatPrefixStep<T>(blocks: seq<seq<T>>, i: nat)
    requires i < |blocks|
    ensures Concat(blocks[..i + 1]) == Concat(blocks[..i]) + blocks[i]
  {
    assert blocks[..i + 1][..i] == blocks[..i];
  }

  /** Writes the DQPSK symbols of each pair of consecutive spectra into its chunk of `out`. */
  method WriteDqpsk(p: OfdmParams, spectra: seq<Complex>, out: array<Complex>)
    requires Demodulable(p) && |spectra| == p.nbSymbols * p.nbFft && out.Length == p.nbOutputSamples
    modifies out
    ensures out[..] == Concat(FrameDqpsk(p, spectra))
  {
    var k := p.nbFftDataCarriers;
    var at: nat := 0;
    for i := 0 to p.nbDqpskSymbols
      invariant at == i * k && at <= out.Length
      invariant out[..at] == DqpskPrefix(p, spectra, i)
    {
      ChunkInside(p.nbDqpskSymbols, k, i);
      var x0 := ChunkOf(spectra, p.nbSymbols, p.nbFft, i);
      var x1 := ChunkOf(spectra, p.nbSymbols, p.nbFft, i + 1);
      ghost var written := out[..at];
      CalculateDqpsk(p.nbFft, k, x0, x1, out, at);
      assert out[..at + k] == written + Dqpsk(p.nbFft, k, x0, x1) by {
        assert out[..at + k] == out[..at] + out[at..at + k];
      }
      DqpskPrefixStep(p, spectra, i);
      at := at + k;
    }
    DqpskPrefixWhole(p, spectra);
  }

  /** The DQPSK symbols of the first `n` pairs of spectra, one after the other. */
  ghost function DqpskPrefix(p: OfdmParams, spectra: seq<Complex>, n: nat): seq<Complex>
    requires Demodulable(p) && |spectra| == p.nbSymbols * p.nbFft && n <= p.nbDqpskSymbols
  {
    Concat(FrameDqpsk(p, spectra)[..n])
  }

  lemma DqpskPrefixStep(p: OfdmParams, spectra: seq<Complex>, i: nat)
    requires Demodulable(p) && |spectra| == p.nbSymbols * p.nbFft && i < p.nbDqpskSymbols
    ensures DqpskPrefix(p, spectra, i + 1) == DqpskPrefix(p, spectra, i) + DqpskOf(p, spectra, i)
  {
    var d := FrameDqpsk(p, spectra);
    assert d[..i + 1][..i] == d[..i];
  }

  lemma DqpskPrefixWhole(p: OfdmParams, spectra: seq<Complex>)
    requires Demodulable(p) && |spectra| == p.nbSymbols * p.nbFft
    ensures DqpskPrefix(p, spectra, p.nbDqpskSymbols) == Concat(FrameDqpsk(p, spectra))
  {
    var d := FrameDqpsk(p, spectra);
    assert d[..p.nbDqpskSymbols] == d;
  }

  /** Demaps each DQPSK symbol into its chunk of soft bits in `out`. */
  method WriteSoftBits(p: OfdmParams, carrierMapper: seq<nat>, dqpsk: seq<Complex>, out: array<int>)
    requires Demodulable(p) && IsCarrierMap(carrierMapper, p.nbFftDataCarriers)
    requires |dqpsk| == p.nbOutputSamples && out.Length == p.nbOutputBits
    modifies out
    ensures out[..] == Concat(FrameSoftBits(p, carrierMapper, dqpsk))
  {
    var k := p.nbFftDataCarriers;
    var width := 2 * k;
    OutputBitsPerSymbol(p);
    var at: nat := 0;
    for i := 0 to p.nbDqpskSymbols
      invariant at == i * width && at <= out.Length
      invariant out[..at] == SoftBitsPrefix(p, carrierMapper, dqpsk, i)
    {
      ChunkInside(p.nbDqpskSymbols, width, i);
      var x := ChunkOf(dqpsk, p.nbDqpskSymbols, k, i);
      ghost var written := out[..at];
      CalculateSoftBits(carrierMapper, x, out, at);
      assert out[..at + width] == written + SoftBits(carrierMapper, x) by {
        assert out[..at + width] == out[..at] + out[at..at + width];
      }
      SoftBitsPrefixStep(p, carrierMapper, dqpsk, i);
      at := at + width;
    }
    SoftBitsPrefixWhole(p, carrierMapper, dqpsk);
  }

  /** The soft bits of the first `n` DQPSK symbols, one after the other. */
  ghost function SoftBitsPrefix(p: OfdmParams, carrierMapper: seq<nat>, dqpsk: seq<Complex>, n: nat): seq<int>
    requires Demodulable(p) && IsCarrierMap(carrierMapper, p.nbFftDataCarriers)
    requires |dqpsk| == p.nbOutputSamples && n <= p.nbDqpskSymbols
  {
    Concat(FrameSoftBits(p, carrierMapper, dqpsk)[..n])
  }

  lemma SoftBitsPrefixStep(p: OfdmParams, carrierMapper: seq<nat>, dqpsk: seq<Complex>, i: nat)
    requires Demodulable(p) && IsCarrierMap(carrierMapper, p.nbFftDataCarriers)
    requires |dqpsk| == p.nbOutputSamples && i < p.nbDqpskSymbols
    ensures SoftBitsPrefix(p, carrierMapper, dqpsk, i + 1) == SoftBitsPrefix(p, carrierMapper, dqpsk, i)
      + SoftBitsOf(p, carrierMapper, dqpsk, i)
  {
    var b := FrameSoftBits(p, carrierMapper, dqpsk);
    assert b[..i + 1][..i] == b[..i];
  }

  lemma SoftBitsPrefixWhole(p: OfdmParams, carrierMapper: seq<nat>, dqpsk: seq<Complex>)
    requires Demodulable(p) && IsCarrierMap(carrierMapper, p.nbFftDataCarriers)
    requires |dqpsk| == p.nbOutputSamples
    ensures SoftBitsPrefix(p, carrierMapper, dqpsk, p.nbDqpskSymbols) == Concat(FrameSoftBits(p, carrierMapper, dqpsk))
  {
    var b := FrameSoftBits(p, carrierMapper, dqpsk);
    assert b[..p.nbDqpskSymbols] == b;
  }
}
