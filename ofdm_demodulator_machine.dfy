/**
 * The demodulator object: its buffers, its synchronisation estimates and
 * the state machine `process` drives. Every handler is specified by the
 * functions of `OfdmDemodulators`; `Valid` is the invariant they keep.
 */
module OfdmDemodulatorMachines {
  import opened ComplexSamples
  import opened ModularArithmetic
  import opened OfdmParameters
  import opened OfdmDsp
  import opened OfdmDemodulators
  import LinearBuckets
  import CircularBuckets

  /**
   * The states `process` passes through without consuming samples rank
   * above the states that consume them, so each turn of its loop either
   * shortens the input or moves down this ranking.
   */
  function Rank(s: DemodulatorState): nat {
    match s
    case RunningCoarseFrequencySynchronisation => 3
    case RunningFineTimeSync => 2
    case ProcessingSymbols => 1
    case _ => 0
  }

  /**
   * The block loop of the NULL search: reads whole blocks of `buf` in
   * order, flags the start of the power dip at a block below the start
   * threshold and stops after the block that rises above the end
   * threshold once the dip has started.
   */
  method ScanBlocks(buf: seq<Complex>, blockSize: nat, startFound: bool, startThreshold: real, endThreshold: real)
    returns (scan: DipScan, totalRead: nat)
    requires blockSize > 0
    ensures scan == ScanPowerDip(BlockAverages(buf, blockSize), startFound, startThreshold, endThreshold)
    ensures totalRead == scan.blocksRead * blockSize && totalRead <= |buf|
    ensures scan.endFound ==> totalRead > 0
  {
    ghost var averages := BlockAverages(buf, blockSize);
    var nbBlocks := |buf| / blockSize;
    var isStartFound, isEndFound := startFound, false;
    var i := 0;
    totalRead := 0;
    while i < nbBlocks && !isEndFound
      invariant i <= nbBlocks && totalRead == i * blockSize && totalRead <= |buf|
      invariant isEndFound ==> totalRead > 0
      invariant ScanPowerDip(averages[..i], startFound, startThreshold, endThreshold) == DipScan(i, isStartFound, isEndFound)
    {
      ExactChunkInside(|buf|, blockSize, i);
      var l1Average := L1Average(Chunk(buf, i, blockSize));
      if isStartFound {
        if l1Average > endThreshold {
          isEndFound := true;
        }
      } else {
        if l1Average < startThreshold {
          isStartFound := true;
        }
      }
      assert averages[..i + 1][..i] == averages[..i];
      i := i + 1;
      totalRead := totalRead + blockSize;
    }
    if isEndFound {
      ScanStaysEnded(averages, startFound, startThreshold, endThreshold, i, nbBlocks);
    }
    assert averages[..nbBlocks] == averages;
    scan := DipScan(i, isStartFound, isEndFound);
  }

  /**
   * The fold over every `stride`-th block of `buf`: how many blocks it
   * keeps and the sum of their L1 averages.
   */
  method DecimatedL1Sum(buf: seq<Complex>, blockSize: nat, stride: nat) returns (totalBlocks: nat, powerSum: real)
    requires blockSize > 0 && (stride > 0 || |buf| < blockSize)
    ensures totalBlocks == |Decimated(BlockAverages(buf, blockSize), stride)|
    ensures powerSum == SumReals(Decimated(BlockAverages(buf, blockSize), stride))
  {
    ghost var averages := BlockAverages(buf, blockSize);
    totalBlocks, powerSum := 0, 0.0;
    if stride == 0 {
      return;
    }
    for index := 0 to |buf| / blockSize
      invariant totalBlocks == |Decimated(averages[..index], stride)|
      invariant powerSum == SumReals(Decimated(averages[..index], stride))
    {
      DecimatedStep(averages, stride, index);
      if index % stride == 0 {
        ExactChunkInside(|buf|, blockSize, index);
        var l1Average := L1Average(Chunk(buf, index, blockSize));
        assert l1Average == averages[index];
        SumRealsAppend(Decimated(averages[..index], stride), l1Average);
        totalBlocks := totalBlocks + 1;
        powerSum := powerSum + l1Average;
      }
    }
    assert averages[..|buf| / blockSize] == averages;
  }

  /**
   * The time-domain PRS reference of `init`: the relative phase of the PRS
   * bins, taken in place, inverse transformed and conjugated.
   */
  method CorrelationPrsTime(dsp: Dsp, prsFft: seq<Complex>) returns (r: seq<Complex>)
    requires |prsFft| > 0
    ensures r == ConjAll(Ifft(dsp, RelativePhase(prsFft)))
  {
    var buffer := new Complex[|prsFft|](i requires 0 <= i < |prsFft| => prsFft[i]);
    assert buffer[..] == prsFft;
    CalculateRelativePhase(buffer);
    r := ConjAll(Ifft(dsp, buffer[..]));
  }

  class OfdmDemodulator {
    var state: DemodulatorState
    var settings: Settings
    const params: OfdmParams
    var totalFramesRead: nat
    var totalFramesDesync: nat
    var isFoundCoarseFrequencyOffset: bool
    var coarseFrequencyOffset: real
    var fineFrequencyOffset: real
    var fineTimeOffset: int
    var isNullStartFound: bool
    var isNullEndFound: bool
    var signalL1Average: real

    const dsp: Dsp
    const carrierMapper: seq<nat>
    const correlationPrsFft: seq<Complex>
    const correlationPrsTime: seq<Complex>

    const nullPowerDipBuffer: CircularBuckets.CircularBucket<Complex>
    const nullPrsBuffer: LinearBuckets.LinearBucket<Complex>
    const fineTimeImpulseResponse: array<real>
    const coarseFrequencyImpulseResponse: array<real>
    const dataTimeBuffer: LinearBuckets.LinearBucket<Complex>
    const dataFftBuffer: array<Complex>
    const dataDqpskBuffer: array<Complex>
    const dataOutBitsBuffer: array<int>

    /** Every frame of soft bits handed to the subscribers, in order. */
    ghost var bitsOut: seq<seq<int>>

    ghost function Repr(): set<object> {
      {this, nullPowerDipBuffer, nullPowerDipBuffer.data, nullPrsBuffer, nullPrsBuffer.data,
       dataTimeBuffer, dataTimeBuffer.data, fineTimeImpulseResponse, coarseFrequencyImpulseResponse,
       dataFftBuffer, dataDqpskBuffer, dataOutBitsBuffer}
    }

    /**
     * What never changes after `new`: usable parameters and carrier map,
     * references of `N` samples, and buffers of the sizes `new` gives them
     * that do not alias.
     */
    ghost predicate Configured() {
      && Demodulable(params)
      && IsCarrierMap(carrierMapper, params.nbFftDataCarriers)
      && |correlationPrsFft| == params.nbFft && |correlationPrsTime| == params.nbFft
      && nullPowerDipBuffer.data.Length == params.nbNullPeriod
      && nullPrsBuffer.data.Length == params.nbNullPeriod + params.nbSymbolPeriod
      && dataTimeBuffer.data.Length == params.nbInputSamples
      && dataFftBuffer.Length == params.nbSymbols * params.nbFft
      && dataDqpskBuffer.Length == params.nbOutputSamples
      && dataOutBitsBuffer.Length == params.nbOutputBits
      && fineTimeImpulseResponse.Length == params.nbFft
      && coarseFrequencyImpulseResponse.Length == params.nbFft
      && nullPrsBuffer != dataTimeBuffer
      && nullPrsBuffer.data != dataTimeBuffer.data
      && nullPowerDipBuffer.data != nullPrsBuffer.data && nullPowerDipBuffer.data != dataTimeBuffer.data
      && dataFftBuffer != dataDqpskBuffer
      && dataFftBuffer !in {nullPowerDipBuffer.data, nullPrsBuffer.data, dataTimeBuffer.data}
      && dataDqpskBuffer !in {nullPowerDipBuffer.data, nullPrsBuffer.data, dataTimeBuffer.data}
      && fineTimeImpulseResponse != coarseFrequencyImpulseResponse
    }

    /** The three buckets keep their own invariants. */
    ghost predicate BucketsValid()
      reads nullPowerDipBuffer, nullPowerDipBuffer.data, nullPrsBuffer, dataTimeBuffer
    {
      nullPowerDipBuffer.Valid() && nullPrsBuffer.Valid() && dataTimeBuffer.Valid()
    }

    /** Usable settings, and a fine offset wrapped into half a bin (plus 1%). */
    ghost predicate OffsetsValid()
      reads this`settings, this`fineFrequencyOffset
    {
      && SettingsUsable(settings)
      && (params.nbFft > 0 ==> -FineFrequencyWrap(params.nbFft) < fineFrequencyOffset < FineFrequencyWrap(params.nbFft))
    }

    /**
     * The NULL and PRS buffer is still filling while it is read and full
     * once synchronisation runs on it; likewise the frame buffer.
     */
    ghost predicate StateValid()
      reads this`state, nullPrsBuffer, dataTimeBuffer
    {
      && (state == ReadingNullAndPrs ==> !nullPrsBuffer.IsFull())
      && (state == RunningCoarseFrequencySynchronisation || state == RunningFineTimeSync ==> nullPrsBuffer.IsFull())
      && (state == ReadingSymbols ==> !dataTimeBuffer.IsFull())
      && (state == ProcessingSymbols ==> dataTimeBuffer.IsFull())
    }

    /**
     * The frames handed out: one per frame read, each `nb_output_bits`
     * soft bits in `[-127, 127]`, the last still in the output buffer.
     */
    ghost predicate FramesValid()
      reads this`bitsOut, this`totalFramesRead, dataOutBitsBuffer
    {
      && |bitsOut| == totalFramesRead
      && (forall f :: 0 <= f < |bitsOut| ==> |bitsOut[f]| == params.nbOutputBits)
      && (forall f, k :: 0 <= f < |bitsOut| && 0 <= k < |bitsOut[f]| ==> -127 <= bitsOut[f][k] <= 127)
      && (|bitsOut| > 0 ==> dataOutBitsBuffer[..] == bitsOut[|bitsOut| - 1])
    }

    /** What every handler relies on, in every state. */
    ghost predicate Consistent()
      reads this`settings, this`fineFrequencyOffset, this`state, this`bitsOut, this`totalFramesRead
      reads nullPowerDipBuffer, nullPowerDipBuffer.data, nullPrsBuffer, dataTimeBuffer, dataOutBitsBuffer
    {
      Configured() && BucketsValid() && OffsetsValid() && StateValid() && FramesValid()
    }

    /**
     * Between calls the NULL end flag is down (it only lives inside the
     * scan) and the start flag is down outside the scan.
     */
    ghost predicate Valid()
      reads this`settings, this`fineFrequencyOffset, this`state, this`bitsOut, this`totalFramesRead
      reads this`isNullStartFound, this`isNullEndFound
      reads nullPowerDipBuffer, nullPowerDipBuffer.data, nullPrsBuffer, dataTimeBuffer, dataOutBitsBuffer
    {
      && Consistent()
      && !isNullEndFound
      && (state != FindingNullPowerDip ==> !isNullStartFound)
    }

    /**
     * Builds the demodulator for one set of parameters. The time-domain
     * reference is the conjugated inverse FFT of the PRS's relative phase,
     * the frequency-domain one the conjugated PRS.
     */
    constructor (params: OfdmParams, carrierMapper: seq<nat>, prsFft: seq<Complex>, dsp: Dsp)
      requires Demodulable(params)
      requires IsCarrierMap(carrierMapper, params.nbFftDataCarriers)
      requires |prsFft| == params.nbFft
      ensures Valid()
      ensures fresh(nullPowerDipBuffer) && fresh(nullPowerDipBuffer.data) && fresh(nullPrsBuffer) && fresh(nullPrsBuffer.data)
      ensures fresh(dataTimeBuffer) && fresh(dataTimeBuffer.data) && fresh(dataFftBuffer) && fresh(dataDqpskBuffer)
      ensures fresh(dataOutBitsBuffer) && fresh(fineTimeImpulseResponse) && fresh(coarseFrequencyImpulseResponse)
      ensures state == FindingNullPowerDip && settings == DefaultSettings()
      ensures this.params == params && this.carrierMapper == carrierMapper && this.dsp == dsp
      ensures totalFramesRead == 0 && totalFramesDesync == 0 && bitsOut == []
      ensures !isFoundCoarseFrequencyOffset && coarseFrequencyOffset == 0.0 && fineFrequencyOffset == 0.0
      ensures fineTimeOffset == 0 && signalL1Average == 0.0
      ensures correlationPrsTime == ConjAll(Ifft(dsp, RelativePhase(prsFft)))
      ensures correlationPrsFft == ConjAll(prsFft)
      ensures nullPowerDipBuffer.length == 0 && nullPrsBuffer.length == 0 && dataTimeBuffer.length == 0
    {
      var prsTime := CorrelationPrsTime(dsp, prsFft);
      var dip := new CircularBuckets.CircularBucket<Complex>(params.nbNullPeriod, ComplexZero);
      var nullPrs := new LinearBuckets.LinearBucket<Complex>(params.nbNullPeriod + params.nbSymbolPeriod, ComplexZero);
      var frame := new LinearBuckets.LinearBucket<Complex>(params.nbInputSamples, ComplexZero);
      this.state := FindingNullPowerDip;
      this.settings := DefaultSettings();
      this.params := params;
      this.totalFramesRead, this.totalFramesDesync := 0, 0;
      this.isFoundCoarseFrequencyOffset := false;
      this.coarseFrequencyOffset, this.fineFrequencyOffset := 0.0, 0.0;
      this.fineTimeOffset := 0;
      this.isNullStartFound, this.isNullEndFound := false, false;
      this.signalL1Average := 0.0;
      this.dsp := dsp;
      this.carrierMapper := carrierMapper;
      this.correlationPrsTime := prsTime;
      this.correlationPrsFft := ConjAll(prsFft);
      this.nullPowerDipBuffer, this.nullPrsBuffer, this.dataTimeBuffer := dip, nullPrs, frame;
      this.fineTimeImpulseResponse := new real[params.nbFft](_ => 0.0);
      this.coarseFrequencyImpulseResponse := new real[params.nbFft](_ => 0.0);
      this.dataFftBuffer := new Complex[params.nbSymbols * params.nbFft](_ => ComplexZero);
      this.dataDqpskBuffer := new Complex[params.nbOutputSamples](_ => ComplexZero);
      this.dataOutBitsBuffer := new int[params.nbOutputBits](_ => 0);
      this.bitsOut := [];
      new;
      assert Configured();
      assert FramesValid();
    }

    /**
     * Moves the signal's L1 average towards the mean of every
     * `stride`-th block average of `buf`; a buffer shorter than one block
     * leaves it as it is.
     */
    method UpdateSignalPowerAverage(buf: seq<Complex>)
      requires Valid() && StrideUsable(settings, |buf|)
      modifies this`signalL1Average
      ensures Valid()
      ensures signalL1Average == old(SmoothedL1Average(signalL1Average,
        Decimated(BlockAverages(buf, settings.nullPowerTotalSamples), settings.nullPowerDecimationFactor),
        settings.nullPowerUpdateBeta))
    {
      var totalBlocks, powerSum := DecimatedL1Sum(buf, settings.nullPowerTotalSamples, settings.nullPowerDecimationFactor);
      if totalBlocks == 0 {
        return;
      }
      var l1Average := powerSum / (totalBlocks as real);
      var beta := settings.nullPowerUpdateBeta;
      signalL1Average := beta * l1Average + (1.0 - beta) * signalL1Average;
    }

    /** Adds `delta` to the fine offset and wraps it into half a bin (plus 1%). */
    method UpdateFineFrequencyOffset(delta: real)
      requires Configured() && OffsetsValid()
      modifies this`fineFrequencyOffset
      ensures OffsetsValid()
      ensures fineFrequencyOffset == FloatRemainder(old(fineFrequencyOffset) + delta, FineFrequencyWrap(params.nbFft))
    {
      var fftBinWrap := FineFrequencyWrap(params.nbFft);
      fineFrequencyOffset := fineFrequencyOffset + delta;
      fineFrequencyOffset := FloatRemainder(fineFrequencyOffset, fftBinWrap);
    }

    /**
     * Gives up the frame: back to scanning for the NULL symbol with an
     * empty NULL and PRS buffer and every estimate, the signal average
     * included, cleared.
     */
    method ResetFromDesync()
      requires Valid()
      modifies this`state, this`signalL1Average, this`isFoundCoarseFrequencyOffset, this`fineFrequencyOffset,
        this`coarseFrequencyOffset, this`fineTimeOffset, nullPrsBuffer
      ensures Valid()
      ensures state == FindingNullPowerDip && nullPrsBuffer.length == 0
      ensures signalL1Average == 0.0 && !isFoundCoarseFrequencyOffset
      ensures fineFrequencyOffset == 0.0 && coarseFrequencyOffset == 0.0 && fineTimeOffset == 0
    {
      nullPrsBuffer.Reset();
      state, signalL1Average, isFoundCoarseFrequencyOffset := FindingNullPowerDip, 0.0, false;
      fineFrequencyOffset, coarseFrequencyOffset, fineTimeOffset := 0.0, 0.0, 0;
    }

    /**
     * The power-dip scan of `buf`'s blocks from the current start flag, with
     * thresholds relative to the current signal average.
     */
    ghost function NullScan(buf: seq<Complex>): DipScan
      reads this`settings, this`isNullStartFound, this`signalL1Average
      requires SettingsUsable(settings)
    {
      ScanPowerDip(BlockAverages(buf, settings.nullPowerTotalSamples), isNullStartFound,
        signalL1Average * settings.nullPowerThresholdStart, signalL1Average * settings.nullPowerThresholdEnd)
    }

    /**
     * Scans the blocks of `buf` for the NULL symbol's power dip. Without
     * its end the whole buffer goes into the power-dip buffer. At its end
     * the samples up to that block go in, what the power-dip buffer's
     * iterator then yields is copied into the NULL and PRS buffer, and the
     * NULL and PRS are read. That copy is the last NULL period of samples
     * only when the power-dip buffer has been fed a whole NULL period.
     */
    method FindNullPowerDip(buf: seq<Complex>) returns (totalRead: nat)
      requires Valid() && state == FindingNullPowerDip
      modifies this`isNullStartFound, this`isNullEndFound, this`state,
        nullPowerDipBuffer, nullPowerDipBuffer.data, nullPrsBuffer, nullPrsBuffer.data
      ensures Valid()
      ensures totalRead <= |buf| && (|buf| > 0 ==> totalRead > 0)
      ensures var scan := old(NullScan(buf));
        && (!scan.endFound ==>
          && totalRead == |buf| && state == FindingNullPowerDip
          && isNullStartFound == scan.startFound
          && nullPowerDipBuffer.history == old(nullPowerDipBuffer.history) + buf
          && nullPowerDipBuffer.data[..] == old(DipCellsAfter(buf))
          && unchanged(nullPrsBuffer) && nullPrsBuffer.data[..] == old(nullPrsBuffer.data[..]))
        && (scan.endFound ==>
          && totalRead == scan.blocksRead * old(settings.nullPowerTotalSamples)
          && state == ReadingNullAndPrs && !isNullStartFound
          && nullPrsBuffer.Iter() == old(DipItemsAfter(buf[..totalRead]))
          && (|old(nullPowerDipBuffer.history)| + totalRead >= params.nbNullPeriod ==>
            nullPrsBuffer.Iter() == LastItems(old(nullPowerDipBuffer.history) + buf[..totalRead], params.nbNullPeriod))
          && nullPowerDipBuffer.history == [] && nullPowerDipBuffer.data[..] == old(DipCellsAfter(buf[..totalRead])))
    {
      var blockSize := settings.nullPowerTotalSamples;
      var startThreshold := signalL1Average * settings.nullPowerThresholdStart;
      var endThreshold := signalL1Average * settings.nullPowerThresholdEnd;
      ghost var expected := NullScan(buf);
      var scan;
      scan, totalRead := ScanBlocks(buf, blockSize, isNullStartFound, startThreshold, endThreshold);
      assert scan == expected;
      isNullStartFound, isNullEndFound := scan.startFound, scan.endFound;

      if !isNullEndFound {
        KeepNullCandidate(buf);
        totalRead := |buf|;
        return;
      }
      CaptureNullSymbol(buf[..totalRead]);
    }

    /** Without the end of the dip, every sample read goes into the power-dip buffer. */
    method KeepNullCandidate(buf: seq<Complex>)
      requires Consistent() && state == FindingNullPowerDip
      modifies nullPowerDipBuffer, nullPowerDipBuffer.data
      ensures Consistent()
      ensures nullPowerDipBuffer.history == old(nullPowerDipBuffer.history) + buf
      ensures nullPowerDipBuffer.data[..] == old(DipCellsAfter(buf))
    {
      var _ := nullPowerDipBuffer.Consume(buf, true);
      assert buf[..|buf|] == buf;
    }

    /**
     * The end of the NULL search: the blocks read go into the power-dip
     * buffer, what its iterator yields becomes the start of the NULL and
     * PRS buffer, and the scan is cleared for next time.
     */
    method CaptureNullSymbol(consumedBlocks: seq<Complex>)
      requires Consistent() && state == FindingNullPowerDip
      modifies this`isNullStartFound, this`isNullEndFound, this`state,
        nullPowerDipBuffer, nullPowerDipBuffer.data, nullPrsBuffer, nullPrsBuffer.data
      ensures Valid()
      ensures state == ReadingNullAndPrs && !isNullStartFound && nullPowerDipBuffer.history == []
      ensures nullPowerDipBuffer.data[..] == old(DipCellsAfter(consumedBlocks))
      ensures nullPrsBuffer.Iter() == old(DipItemsAfter(consumedBlocks))
      ensures |old(nullPowerDipBuffer.history) + consumedBlocks| >= params.nbNullPeriod ==>
        nullPrsBuffer.Iter() == LastItems(old(nullPowerDipBuffer.history) + consumedBlocks, params.nbNullPeriod)
    {
      CopyNullWindow(consumedBlocks);
      isNullStartFound := false;
      isNullEndFound := false;
      nullPowerDipBuffer.Reset();
      state := ReadingNullAndPrs;
    }

    /**
     * The power-dip buffer's cells once all of `buf` has been consumed into
     * it: written from the cursor on, wrapping, later items overwriting
     * earlier ones. A reset keeps them, so the next capture reads them.
     */
    ghost function DipCellsAfter(buf: seq<Complex>): seq<Complex>
      reads nullPowerDipBuffer, nullPowerDipBuffer.data
      requires nullPowerDipBuffer.data.Length > 0
    {
      CircularBuckets.CircularWrite(nullPowerDipBuffer.data[..], nullPowerDipBuffer.index, buf)
    }

    /**
     * What the power-dip buffer's iterator yields once all of `buf` has
     * been consumed into it: as many cells as it then holds, read from its
     * write cursor.
     */
    ghost function DipItemsAfter(buf: seq<Complex>): seq<Complex>
      reads nullPowerDipBuffer, nullPowerDipBuffer.data
      requires nullPowerDipBuffer.data.Length > 0
    {
      CircularBuckets.ItemsAfterConsume(nullPowerDipBuffer.data[..], nullPowerDipBuffer.index,
        nullPowerDipBuffer.length, buf)
    }

    /**
     * The blocks scanned so far go through the dip buffer, and what its
     * iterator yields starts the NULL and PRS buffer. Once the dip buffer
     * has been fed a whole NULL period, that is its last `null` samples,
     * oldest first; before, the iterator starts at the write cursor and
     * reads cells not written since the reset.
     */
    method CopyNullWindow(consumedBlocks: seq<Complex>)
      requires Configured() && BucketsValid()
      modifies nullPowerDipBuffer, nullPowerDipBuffer.data, nullPrsBuffer, nullPrsBuffer.data
      ensures BucketsValid()
      ensures nullPowerDipBuffer.history == old(nullPowerDipBuffer.history) + consumedBlocks
      ensures nullPowerDipBuffer.data[..] == old(DipCellsAfter(consumedBlocks))
      ensures nullPrsBuffer.Iter() == old(DipItemsAfter(consumedBlocks))
      ensures |old(nullPowerDipBuffer.history) + consumedBlocks| >= params.nbNullPeriod ==>
        nullPrsBuffer.Iter() == LastItems(old(nullPowerDipBuffer.history) + consumedBlocks, params.nbNullPeriod)
    {
      var nullSymbol := FeedDipBuffer(consumedBlocks);
      StartNullPrs(nullSymbol);
    }

    /**
     * The blocks go into the dip buffer, and its iterator yields `items`:
     * the last NULL period of samples once that many have been fed.
     */
    method FeedDipBuffer(consumedBlocks: seq<Complex>) returns (items: seq<Complex>)
      requires nullPowerDipBuffer.Valid() && nullPowerDipBuffer.data.Length == params.nbNullPeriod > 0
      modifies nullPowerDipBuffer, nullPowerDipBuffer.data
      ensures nullPowerDipBuffer.Valid()
      ensures nullPowerDipBuffer.history == old(nullPowerDipBuffer.history) + consumedBlocks
      ensures nullPowerDipBuffer.data[..] == old(DipCellsAfter(consumedBlocks))
      ensures items == old(DipItemsAfter(consumedBlocks))
      ensures |old(nullPowerDipBuffer.history) + consumedBlocks| >= params.nbNullPeriod ==>
        items == LastItems(old(nullPowerDipBuffer.history) + consumedBlocks, params.nbNullPeriod)
    {
      ghost var cells, fed := nullPowerDipBuffer.data[..], nullPowerDipBuffer.history;
      if |fed| + |consumedBlocks| >= params.nbNullPeriod {
        CircularBuckets.ItemsAfterConsumeWhenFull(cells, fed, consumedBlocks);
      }
      items := nullPowerDipBuffer.ConsumeAllThenIter(consumedBlocks);
    }

    /** The NULL and PRS buffer starts over from `nullSymbol`, at most a NULL period long. */
    method StartNullPrs(nullSymbol: seq<Complex>)
      requires Configured() && nullPrsBuffer.Valid() && |nullSymbol| <= params.nbNullPeriod
      modifies nullPrsBuffer, nullPrsBuffer.data
      ensures nullPrsBuffer.Valid() && nullPrsBuffer.Iter() == nullSymbol
    {
      nullPrsBuffer.Reset();
      var _ := nullPrsBuffer.ConsumeFromIterator(nullSymbol);
      assert nullSymbol[..|nullSymbol|] == nullSymbol;
    }

    /**
     * The NULL capture as it is evidently meant: the dip buffer's held
     * samples, oldest first, start the NULL and PRS buffer, so the copy is
     * the last NULL period of samples fed, or all of them when fewer.
     */
    method CopyNullWindowOldestFirst(consumedBlocks: seq<Complex>)
      requires Configured() && BucketsValid()
      modifies nullPowerDipBuffer, nullPowerDipBuffer.data, nullPrsBuffer, nullPrsBuffer.data
      ensures BucketsValid()
      ensures nullPowerDipBuffer.history == old(nullPowerDipBuffer.history) + consumedBlocks
      ensures nullPrsBuffer.Iter() == LastItems(old(nullPowerDipBuffer.history) + consumedBlocks, params.nbNullPeriod)
    {
      ghost var window := LastItems(nullPowerDipBuffer.history + consumedBlocks, params.nbNullPeriod);
      var _ := nullPowerDipBuffer.Consume(consumedBlocks, true);
      assert consumedBlocks[..|consumedBlocks|] == consumedBlocks;
      nullPrsBuffer.Reset();
      var nullSymbol := nullPowerDipBuffer.IterOldestFirst();
      assert nullSymbol == window;
      var _ := nullPrsBuffer.ConsumeFromIteratorCounted(nullSymbol);
      assert nullSymbol[..|nullSymbol|] == nullSymbol;
    }

    /** Fills the NULL and PRS buffer; once full, coarse frequency synchronisation runs. */
    method ReadNullPrs(buf: seq<Complex>) returns (totalRead: nat)
      requires Valid() && state == ReadingNullAndPrs
      modifies this`state, nullPrsBuffer, nullPrsBuffer.data
      ensures Valid()
      ensures totalRead == ModularArithmetic.Min(|buf|, nullPrsBuffer.Capacity() - old(nullPrsBuffer.length))
      ensures |buf| > 0 ==> totalRead > 0
      ensures nullPrsBuffer.Iter() == old(nullPrsBuffer.Iter()) + buf[..totalRead]
      ensures state == (if nullPrsBuffer.IsFull() then RunningCoarseFrequencySynchronisation else ReadingNullAndPrs)
    {
      totalRead := nullPrsBuffer.Consume(buf);
      if nullPrsBuffer.IsFull() {
        state := RunningCoarseFrequencySynchronisation;
      }
    }

    /** Fills the frame buffer; once full, the frame is processed. */
    method ReadSymbols(buf: seq<Complex>) returns (totalRead: nat)
      requires Valid() && state == ReadingSymbols
      modifies this`state, dataTimeBuffer, dataTimeBuffer.data
      ensures Valid()
      ensures totalRead == ModularArithmetic.Min(|buf|, dataTimeBuffer.Capacity() - old(dataTimeBuffer.length))
      ensures |buf| > 0 ==> totalRead > 0
      ensures dataTimeBuffer.Iter() == old(dataTimeBuffer.Iter()) + buf[..totalRead]
      ensures state == (if dataTimeBuffer.IsFull() then ProcessingSymbols else ReadingSymbols)
    {
      totalRead := dataTimeBuffer.Consume(buf);
      if dataTimeBuffer.IsFull() {
        state := ProcessingSymbols;
      }
    }

    /** The PRS after its cyclic prefix: the `N` samples coarse frequency sync transforms. */
    function PrsFftSamples(): (s: seq<Complex>)
      reads nullPrsBuffer, nullPrsBuffer.data
      requires WellFormed(params) && nullPrsBuffer.Valid()
      requires nullPrsBuffer.length == params.nbNullPeriod + params.nbSymbolPeriod
      ensures |s| == params.nbFft
    {
      var prs := nullPrsBuffer.Iter()[params.nbNullPeriod..params.nbNullPeriod + params.nbSymbolPeriod];
      prs[params.nbCyclicPrefix..]
    }

    /** The first `N` samples after the NULL symbol, which fine time sync correlates. */
    function PrsDataSamples(): (s: seq<Complex>)
      reads nullPrsBuffer, nullPrsBuffer.data
      requires WellFormed(params) && nullPrsBuffer.Valid()
      requires nullPrsBuffer.length == params.nbNullPeriod + params.nbSymbolPeriod
      ensures |s| == params.nbFft
    {
      nullPrsBuffer.Iter()[params.nbNullPeriod..params.nbNullPeriod + params.nbFft]
    }

    /**
     * Estimates the integral frequency offset from the PRS. When disabled
     * the coarse offset is zeroed. Otherwise the impulse response around
     * DC is searched for its peak, the coarse offset moves towards the
     * offset that peak implies, and the fine offset takes the opposite
     * step (wrapped), so the total offset is kept where the fine one does
     * not wrap.
     */
    method RunCoarseFrequencySynchronisation()
      requires Valid() && state == RunningCoarseFrequencySynchronisation
      modifies this`coarseFrequencyOffset, this`fineFrequencyOffset, this`isFoundCoarseFrequencyOffset, this`state,
        coarseFrequencyImpulseResponse
      ensures Valid() && state == RunningFineTimeSync
      ensures !settings.coarseFrequencyIsEnabled ==>
        && coarseFrequencyOffset == 0.0 && fineFrequencyOffset == old(fineFrequencyOffset)
        && isFoundCoarseFrequencyOffset == old(isFoundCoarseFrequencyOffset)
        && coarseFrequencyImpulseResponse[..] == old(coarseFrequencyImpulseResponse[..])
      ensures settings.coarseFrequencyIsEnabled ==>
        && CoarseResponseComputed()
        && isFoundCoarseFrequencyOffset
        && CoarseCorrected(old(coarseFrequencyOffset), old(fineFrequencyOffset), old(isFoundCoarseFrequencyOffset))
    {
      if !settings.coarseFrequencyIsEnabled {
        coarseFrequencyOffset := 0.0;
      } else {
        CalculateCoarseImpulseResponse();
        ApplyCoarseCorrection();
      }
      EnterFineTimeSync();
    }

    /** Coarse frequency synchronisation is over: fine time sync runs next. */
    method EnterFineTimeSync()
      requires Valid() && state == RunningCoarseFrequencySynchronisation
      modifies this`state
      ensures Valid() && state == RunningFineTimeSync
    {
      state := RunningFineTimeSync;
    }

    /** The coarse impulse response buffer holds the impulse response of the PRS in the NULL and PRS buffer. */
    ghost predicate CoarseResponseComputed()
      reads nullPrsBuffer, nullPrsBuffer.data, coarseFrequencyImpulseResponse
      requires Configured() && nullPrsBuffer.Valid() && nullPrsBuffer.IsFull()
    {
      coarseFrequencyImpulseResponse[..] == CoarseImpulseResponse(dsp, PrsFftSamples(), correlationPrsTime)
    }

    /** The impulse response of the PRS around DC, into its buffer. */
    method CalculateCoarseImpulseResponse()
      requires Valid() && state == RunningCoarseFrequencySynchronisation
      modifies coarseFrequencyImpulseResponse
      ensures Valid() && CoarseResponseComputed()
    {
      var prsFft := PrsFftSamples();
      var spectrum := Fft(dsp, prsFft);
      var temp := new Complex[params.nbFft](i requires 0 <= i < params.nbFft => spectrum[i]);
      assert temp[..] == spectrum;
      CalculateRelativePhase(temp);
      var correlation := Fft(dsp, PointwiseMul(Ifft(dsp, temp[..]), correlationPrsTime));
      CalculateMagnitudeSpectrum(correlation, coarseFrequencyImpulseResponse, dsp.db);
    }

    /**
     * The offsets were `coarse` and `fine`, with the found flag `found`:
     * the coarse offset has moved by the correction the impulse response in
     * its buffer gives, and the fine offset the opposite way, wrapped into
     * the range `update_fine_frequency_offset` keeps.
     */
    ghost predicate CoarseCorrected(coarse: real, fine: real, found: bool)
      reads this`settings, this`coarseFrequencyOffset, this`fineFrequencyOffset, coarseFrequencyImpulseResponse
      requires Configured() && SettingsUsable(settings) && settings.coarseFrequencyIsEnabled
    {
      var delta := CoarseCorrection(coarseFrequencyImpulseResponse[..], settings, coarse, found);
      && coarseFrequencyOffset == coarse + delta
      && fineFrequencyOffset == FloatRemainder(fine + -delta, FineFrequencyWrap(params.nbFft))
    }

    /**
     * Moves the coarse offset towards the peak of the impulse response
     * already in its buffer, and the fine offset the opposite way.
     */
    method ApplyCoarseCorrection()
      requires Valid() && settings.coarseFrequencyIsEnabled
      modifies this`coarseFrequencyOffset, this`fineFrequencyOffset, this`isFoundCoarseFrequencyOffset
      ensures Valid() && isFoundCoarseFrequencyOffset
      ensures CoarseCorrected(old(coarseFrequencyOffset), old(fineFrequencyOffset), old(isFoundCoarseFrequencyOffset))
    {
      var delta := CoarseCorrectionStep();
      isFoundCoarseFrequencyOffset, coarseFrequencyOffset := true, coarseFrequencyOffset + delta;
      UpdateFineFrequencyOffset(-delta);
    }

    /** The correction the peak near DC calls for, computed as the source does, changing nothing. */
    method CoarseCorrectionStep() returns (delta: real)
      requires Valid() && settings.coarseFrequencyIsEnabled
      ensures delta == CoarseCorrection(coarseFrequencyImpulseResponse[..], settings,
        coarseFrequencyOffset, isFoundCoarseFrequencyOffset)
    {
      var maxCarrierOffsetBins := MaxCarrierOffsetBins(settings.coarseFrequencyMaxRange, params.nbFft);
      var carrierOffsetBin := CoarseOffsetBin(coarseFrequencyImpulseResponse[..], maxCarrierOffsetBins);
      var current := (-carrierOffsetBin as real) / (params.nbFft as real);
      delta := CoarseDelta(coarseFrequencyOffset, current, params.nbFft, isFoundCoarseFrequencyOffset,
        settings.coarseFrequencySlowUpdateBeta);
    }

    /**
     * Locates the start of the PRS from the peak of its impulse response,
     * weighted towards the end of the cyclic prefix. A peak that stands
     * less than the threshold above the average desynchronises the
     * demodulator; otherwise the samples from the start of the PRS's cyclic
     * prefix on become the start of the frame buffer.
     */
    method RunFineTimeSync()
      requires Valid() && state == RunningFineTimeSync
      modifies this`state, this`signalL1Average, this`isFoundCoarseFrequencyOffset, this`fineFrequencyOffset,
        this`coarseFrequencyOffset, this`fineTimeOffset, this`totalFramesDesync,
        nullPrsBuffer, dataTimeBuffer, dataTimeBuffer.data, fineTimeImpulseResponse
      ensures Valid() && (state == FindingNullPowerDip || state == ReadingSymbols)
      ensures totalFramesDesync >= old(totalFramesDesync)
      ensures fineTimeImpulseResponse[..] == old(FineTimeImpulseResponse(dsp, PrsDataSamples(),
        coarseFrequencyOffset + fineFrequencyOffset, correlationPrsFft))
      ensures var response := fineTimeImpulseResponse[..];
        var cp, period, probability := params.nbCyclicPrefix, params.nbSymbolPeriod, settings.fineTimeImpulsePeakDistanceProbability;
        var peak := FineTimePeak(response, cp, period, probability);
        var isLocked := FineTimePeakHeight(response, cp, period, probability) >= settings.fineTimeImpulsePeakThresholdDb;
        && nullPrsBuffer.length == 0
        && (!isLocked ==>
          && state == FindingNullPowerDip && totalFramesDesync == old(totalFramesDesync) + 1
          && signalL1Average == 0.0 && !isFoundCoarseFrequencyOffset
          && coarseFrequencyOffset == 0.0 && fineFrequencyOffset == 0.0 && fineTimeOffset == 0
          && dataTimeBuffer.length == old(dataTimeBuffer.length) && dataTimeBuffer.data[..] == old(dataTimeBuffer.data[..]))
        && (isLocked ==>
          && state == ReadingSymbols && totalFramesDesync == old(totalFramesDesync)
          && fineTimeOffset == peak - cp
          && dataTimeBuffer.Iter() == old(nullPrsBuffer.Iter())[params.nbNullPeriod + peak - cp..]
          && signalL1Average == old(signalL1Average)
          && isFoundCoarseFrequencyOffset == old(isFoundCoarseFrequencyOffset)
          && coarseFrequencyOffset == old(coarseFrequencyOffset) && fineFrequencyOffset == old(fineFrequencyOffset))
    {
      CalculateFineTimeImpulseResponse();
      SynchroniseOnImpulsePeak();
    }

    /**
     * The decision of fine time sync, on the impulse response already in
     * its buffer: desynchronise on a weak peak, otherwise keep the PRS
     * from the peak's offset on.
     */
    method SynchroniseOnImpulsePeak()
      requires Valid() && state == RunningFineTimeSync
      modifies this`state, this`signalL1Average, this`isFoundCoarseFrequencyOffset, this`fineFrequencyOffset,
        this`coarseFrequencyOffset, this`fineTimeOffset, this`totalFramesDesync,
        nullPrsBuffer, dataTimeBuffer, dataTimeBuffer.data
      ensures Valid()
      ensures var response := fineTimeImpulseResponse[..];
        var cp, period, probability := params.nbCyclicPrefix, params.nbSymbolPeriod, settings.fineTimeImpulsePeakDistanceProbability;
        var peak := FineTimePeak(response, cp, period, probability);
        var isLocked := FineTimePeakHeight(response, cp, period, probability) >= settings.fineTimeImpulsePeakThresholdDb;
        && nullPrsBuffer.length == 0
        && (!isLocked ==>
          && state == FindingNullPowerDip && totalFramesDesync == old(totalFramesDesync) + 1
          && signalL1Average == 0.0 && !isFoundCoarseFrequencyOffset
          && coarseFrequencyOffset == 0.0 && fineFrequencyOffset == 0.0 && fineTimeOffset == 0
          && dataTimeBuffer.length == old(dataTimeBuffer.length) && dataTimeBuffer.data[..] == old(dataTimeBuffer.data[..]))
        && (isLocked ==>
          && state == ReadingSymbols && totalFramesDesync == old(totalFramesDesync)
          && fineTimeOffset == peak - cp
          && dataTimeBuffer.Iter() == old(nullPrsBuffer.Iter())[params.nbNullPeriod + peak - cp..]
          && signalL1Average == old(signalL1Average)
          && isFoundCoarseFrequencyOffset == old(isFoundCoarseFrequencyOffset)
          && coarseFrequencyOffset == old(coarseFrequencyOffset) && fineFrequencyOffset == old(fineFrequencyOffset))
    {
      var response := fineTimeImpulseResponse[..];
      var cp, period := params.nbCyclicPrefix, params.nbSymbolPeriod;
      var probability := settings.fineTimeImpulsePeakDistanceProbability;
      var peak := FineTimePeak(response, cp, period, probability);
      var height := FineTimePeakHeight(response, cp, period, probability);
      if height < settings.fineTimeImpulsePeakThresholdDb {
        ResetFromDesync();
        totalFramesDesync := totalFramesDesync + 1;
        return;
      }
      assert |response| == params.nbFft;
      KeepPrs(peak as int - cp as int);
    }

    /**
     * The first `N` samples after the NULL symbol, derotated, correlated
     * with the PRS in the frequency domain and written out in dB.
     */
    method CalculateFineTimeImpulseResponse()
      requires Valid() && state == RunningFineTimeSync
      modifies fineTimeImpulseResponse
      ensures fineTimeImpulseResponse[..] == old(FineTimeImpulseResponse(dsp, PrsDataSamples(),
        coarseFrequencyOffset + fineFrequencyOffset, correlationPrsFft))
    {
      var prsData := PrsDataSamples();
      var totalFrequencyOffset := coarseFrequencyOffset + fineFrequencyOffset;
      var y := Ifft(dsp, PointwiseMul(Fft(dsp, ApplyPll(prsData, totalFrequencyOffset)), correlationPrsFft));
      ghost var expected := FineTimeImpulseResponse(dsp, prsData, totalFrequencyOffset, correlationPrsFft);
      for i := 0 to params.nbFft
        invariant fineTimeImpulseResponse[..i] == expected[..i]
      {
        fineTimeImpulseResponse[i] := dsp.db(y[i]);
        assert fineTimeImpulseResponse[..i + 1] == fineTimeImpulseResponse[..i] + [expected[i]];
      }
      assert fineTimeImpulseResponse[..] == fineTimeImpulseResponse[..params.nbFft];
    }

    /**
     * The end of fine time sync: the NULL and PRS buffer's samples from
     * `null + offset` on start the frame buffer, and the NULL and PRS
     * buffer is emptied.
     */
    method KeepPrs(offset: int)
      requires Valid() && state == RunningFineTimeSync
      requires -(params.nbCyclicPrefix as int) <= offset < params.nbFft
      modifies this`state, this`fineTimeOffset, nullPrsBuffer, dataTimeBuffer, dataTimeBuffer.data
      ensures Valid() && state == ReadingSymbols && fineTimeOffset == offset && nullPrsBuffer.length == 0
      ensures dataTimeBuffer.Iter() == old(nullPrsBuffer.Iter())[params.nbNullPeriod + offset..]
    {
      var slice := PrsSlice(params.nbNullPeriod, params.nbSymbolPeriod, offset);
      var partial := nullPrsBuffer.Iter()[slice.start..slice.end];
      assert partial == nullPrsBuffer.Iter()[params.nbNullPeriod + offset..];
      RestartFrame(partial);
      nullPrsBuffer.Reset();
      fineTimeOffset, state := offset, ReadingSymbols;
    }

    /** The frame buffer starts over from `partial`, shorter than a frame. */
    method RestartFrame(partial: seq<Complex>)
      requires Configured() && |partial| <= params.nbSymbolPeriod + params.nbCyclicPrefix
      modifies dataTimeBuffer, dataTimeBuffer.data
      ensures dataTimeBuffer.Valid() && !dataTimeBuffer.IsFull() && dataTimeBuffer.Iter() == partial
    {
      FrameHoldsPrs(params);
      dataTimeBuffer.Reset();
      var _ := dataTimeBuffer.Consume(partial);
      assert partial[..|partial|] == partial;
    }

    /**
     * Demodulates a full frame buffer. The NULL symbol at its end is kept
     * as the start of the next NULL and PRS buffer; the frame is derotated
     * by the total frequency offset in place; the fine offset moves against
     * the average cyclic-prefix phase error; and the frame's soft bits are
     * handed out.
     */
    method ProcessSymbols()
      requires Valid() && state == ProcessingSymbols
      modifies this`state, this`fineFrequencyOffset, this`totalFramesRead, this`bitsOut,
        nullPrsBuffer, nullPrsBuffer.data, dataTimeBuffer.data, dataFftBuffer, dataDqpskBuffer, dataOutBitsBuffer
      ensures Valid() && state == ReadingNullAndPrs && old(bitsOut) <= bitsOut
      ensures nullPrsBuffer.Iter() == old(NullSymbol(dataTimeBuffer.Iter(), params))
      ensures FrameProcessed(old(dataTimeBuffer.Iter()), old(fineFrequencyOffset + coarseFrequencyOffset),
        old(fineFrequencyOffset), old(bitsOut))
      ensures totalFramesRead == old(totalFramesRead) + 1
    {
      ghost var frame, offset, fine, before :=
        dataTimeBuffer.Iter(), fineFrequencyOffset + coarseFrequencyOffset, fineFrequencyOffset, bitsOut;
      CopyNullSymbol();
      DemodulateSymbols(frame, offset, fine, before);
    }

    /**
     * The frame buffer held `x`, the total frequency offset was `offset`
     * and the fine one `fine` before the frame was processed: the buffer
     * now holds `x` derotated by `offset`, the fine offset has moved
     * against the derotated frame's average phase error, and the frame's
     * soft bits are in the output buffer and handed out after `before`.
     */
    ghost predicate FrameProcessed(x: seq<Complex>, offset: real, fine: real, before: seq<seq<int>>)
      reads this`fineFrequencyOffset, this`settings, this`bitsOut, dataTimeBuffer, dataTimeBuffer.data,
        dataFftBuffer, dataDqpskBuffer, dataOutBitsBuffer
      requires Configured()
    {
      && dataTimeBuffer.Valid() && dataTimeBuffer.IsFull()
      && var y := ApplyPll(x, offset);
         && dataTimeBuffer.Iter() == y
         && FineCorrected(y, fine)
         && StagesWritten(y)
         && bitsOut == before + [dataOutBitsBuffer[..]]
    }

    /**
     * The stage buffers hold the demodulation of `frame`: the spectra of
     * its symbols, the DQPSK of consecutive spectra and the frame's soft bits.
     */
    ghost predicate StagesWritten(frame: seq<Complex>)
      reads dataFftBuffer, dataDqpskBuffer, dataOutBitsBuffer
      requires Configured() && |frame| == params.nbInputSamples
    {
      && dataFftBuffer[..] == Concat(FrameSpectra(dsp, frame, params))
      && dataDqpskBuffer[..] == Concat(FrameDqpsk(params, dataFftBuffer[..]))
      && dataOutBitsBuffer[..] == FrameBits(dsp, frame, params, carrierMapper)
    }

    /**
     * The fine offset, `fine` before, has moved by the fine frequency
     * correction of the derotated frame `y` and wrapped into the range
     * `update_fine_frequency_offset` keeps.
     */
    ghost predicate FineCorrected(y: seq<Complex>, fine: real)
      reads this`fineFrequencyOffset, this`settings
      requires Configured() && |y| == params.nbInputSamples
    {
      fineFrequencyOffset == FloatRemainder(fine +
        FineFrequencyCorrection(dsp, y, params, settings.fineFrequencyUpdateBeta), FineFrequencyWrap(params.nbFft))
    }

    /**
     * Everything after the NULL symbol copy: derotation, the fine offset
     * update and the demodulation of the derotated frame, which held `x`
     * with total offset `offset`, fine offset `fine` and `before` handed out.
     */
    method DemodulateSymbols(ghost x: seq<Complex>, ghost offset: real, ghost fine: real, ghost before: seq<seq<int>>)
      requires Valid() && state == ProcessingSymbols && !nullPrsBuffer.IsFull()
      requires x == dataTimeBuffer.Iter() && offset == fineFrequencyOffset + coarseFrequencyOffset
      requires fine == fineFrequencyOffset && before == bitsOut
      modifies this`state, this`fineFrequencyOffset, this`totalFramesRead, this`bitsOut,
        dataTimeBuffer.data, dataFftBuffer, dataDqpskBuffer, dataOutBitsBuffer
      ensures Valid() && state == ReadingNullAndPrs
      ensures FrameProcessed(x, offset, fine, before)
      ensures totalFramesRead == old(totalFramesRead) + 1
    {
      var frame := Derotate(x, offset);
      CorrectFineFrequency(frame, fine);
      ghost var corrected := fineFrequencyOffset;
      DemodulateFrame(frame, before);
      assert fineFrequencyOffset == corrected && dataTimeBuffer.Iter() == frame;
    }

    /** The fine offset moves against the average cyclic-prefix phase error of the derotated frame. */
    method CorrectFineFrequency(frame: seq<Complex>, ghost fine: real)
      requires Valid() && |frame| == params.nbInputSamples && fine == fineFrequencyOffset
      modifies this`fineFrequencyOffset
      ensures Valid() && FineCorrected(frame, fine)
    {
      var delta := FineFrequencyCorrection(dsp, frame, params, settings.fineFrequencyUpdateBeta);
      UpdateFineFrequencyOffset(delta);
    }

    /** The NULL symbol at the end of the frame buffer starts the next NULL and PRS buffer. */
    method CopyNullSymbol()
      requires Valid() && state == ProcessingSymbols
      modifies nullPrsBuffer, nullPrsBuffer.data
      ensures Valid() && !nullPrsBuffer.IsFull()
      ensures nullPrsBuffer.Iter() == NullSymbol(dataTimeBuffer.Iter(), params)
    {
      var nullSymbol := NullSymbol(dataTimeBuffer.Iter(), params);
      nullPrsBuffer.Reset();
      var _ := nullPrsBuffer.Consume(nullSymbol);
      assert nullSymbol[..|nullSymbol|] == nullSymbol;
    }

    /** Derotates the frame buffer in place by the total frequency offset. */
    method Derotate(ghost x: seq<Complex>, ghost offset: real) returns (frame: seq<Complex>)
      requires Valid() && dataTimeBuffer.IsFull()
      requires x == dataTimeBuffer.Iter() && offset == fineFrequencyOffset + coarseFrequencyOffset
      modifies dataTimeBuffer.data
      ensures Valid()
      ensures frame == dataTimeBuffer.Iter() == ApplyPll(x, offset)
    {
      ApplyPllInPlace(dataTimeBuffer.data, dataTimeBuffer.length, fineFrequencyOffset + coarseFrequencyOffset);
      frame := dataTimeBuffer.Iter();
    }

    /**
     * Transforms, differentially demodulates and demaps one frame, hands its
     * bits out and goes back to reading the NULL and PRS.
     */
    method DemodulateFrame(frame: seq<Complex>, ghost before: seq<seq<int>>)
      requires Valid() && state == ProcessingSymbols && !nullPrsBuffer.IsFull()
      requires |frame| == params.nbInputSamples && before == bitsOut
      modifies this`state, this`bitsOut, this`totalFramesRead, dataFftBuffer, dataDqpskBuffer, dataOutBitsBuffer
      ensures Valid() && state == ReadingNullAndPrs
      ensures StagesWritten(frame)
      ensures bitsOut == before + [dataOutBitsBuffer[..]]
      ensures totalFramesRead == old(totalFramesRead) + 1
    {
      WriteFrameBits(frame);
      bitsOut := bitsOut + [dataOutBitsBuffer[..]];
      totalFramesRead := totalFramesRead + 1;
      state := ReadingNullAndPrs;
    }

    /** The FFT, DQPSK and soft-bit stages of one frame, each into its own buffer. */
    method WriteFrameBits(frame: seq<Complex>)
      requires Configured() && |frame| == params.nbInputSamples
      modifies dataFftBuffer, dataDqpskBuffer, dataOutBitsBuffer
      ensures dataFftBuffer[..] == Concat(FrameSpectra(dsp, frame, params))
      ensures dataDqpskBuffer[..] == Concat(FrameDqpsk(params, dataFftBuffer[..]))
      ensures dataOutBitsBuffer[..] == FrameBits(dsp, frame, params, carrierMapper)
    {
      WriteSpectra(dsp, params, frame, dataFftBuffer);
      WriteDqpsk(params, dataFftBuffer[..], dataDqpskBuffer);
      WriteSoftBits(params, carrierMapper, dataDqpskBuffer[..], dataOutBitsBuffer);
    }

    /**
     * Feeds `buf` through the state machine until every sample is taken.
     * The settings stay as they are, frames already handed out stay handed
     * out, and the desync counter only grows.
     */
    method Process(buf: seq<Complex>)
      requires Valid() && StrideUsable(settings, |buf|)
      modifies Repr()
      ensures Valid() && settings == old(settings)
      ensures old(bitsOut) <= bitsOut
      ensures totalFramesDesync >= old(totalFramesDesync)
    {
      UpdateSignalPowerAverage(buf);
      var rest := buf;
      while |rest| > 0
        invariant Valid() && settings == old(settings)
        invariant old(bitsOut) <= bitsOut
        invariant totalFramesDesync >= old(totalFramesDesync)
        decreases |rest|, Rank(state)
      {
        var totalRead := Step(rest);
        rest := rest[totalRead..];
      }
    }

    /**
     * One pass of the loop in `process`: the handler of the current state
     * runs, and either reads some samples or moves on to a state of lower
     * rank without reading.
     */
    method Step(buf: seq<Complex>) returns (totalRead: nat)
      requires Valid() && |buf| > 0
      modifies Repr()
      ensures Valid() && settings == old(settings)
      ensures old(bitsOut) <= bitsOut
      ensures totalFramesDesync >= old(totalFramesDesync)
      ensures totalRead <= |buf|
      ensures totalRead > 0 || Rank(state) < old(Rank(state))
    {
      match state {
        case FindingNullPowerDip =>
          totalRead := FindNullPowerDip(buf);
        case ReadingNullAndPrs =>
          totalRead := ReadNullPrs(buf);
        case ReadingSymbols =>
          totalRead := ReadSymbols(buf);
        case _ =>
          RunStage();
          totalRead := 0;
      }
    }

    /** The handlers that read nothing: each leaves for a state of lower rank. */
    method RunStage()
      requires Valid() && Rank(state) > 0
      modifies Repr()
      ensures Valid() && settings == old(settings)
      ensures old(bitsOut) <= bitsOut
      ensures totalFramesDesync >= old(totalFramesDesync)
      ensures Rank(state) < old(Rank(state))
    {
      match state {
        case RunningCoarseFrequencySynchronisation =>
          RunCoarseFrequencySynchronisation();
        case RunningFineTimeSync =>
          RunFineTimeSync();
        case ProcessingSymbols =>
          ProcessSymbols();
      }
    }
  }

  /** The NULL symbol that ends a frame of input samples. */
  function NullSymbol(x: seq<Complex>, p: OfdmParams): (s: seq<Complex>)
    requires WellFormed(p) && |x| == p.nbInputSamples
    ensures |s| == p.nbNullPeriod
  {
    x[p.nbSymbols * p.nbSymbolPeriod..]
  }

  /**
   * The frame buffer holds more than the NULL and PRS buffer less the NULL
   * symbol, so the PRS slice kept by fine time sync never fills it.
   */
  lemma FrameHoldsPrs(p: OfdmParams)
    requires Demodulable(p)
    ensures p.nbSymbolPeriod + p.nbCyclicPrefix < p.nbInputSamples
  {
    MulLeftMonotone(2, p.nbSymbols, p.nbSymbolPeriod);
  }
}
