/**
 * The structure of an OFDM frame: one NULL symbol followed by `nbSymbols`
 * symbols, the first of which is the phase reference symbol (PRS). After
 * differential demodulation `nbSymbols - 1` symbols of data remain.
 */
module OfdmParameters {
  import opened Outcomes
  import opened ModularArithmetic

  datatype OfdmParams = OfdmParams(
    nbSymbols: nat,
    nbNullPeriod: nat,
    nbSymbolPeriod: nat,
    nbCyclicPrefix: nat,
    nbFft: nat,
    nbFftDataCarriers: nat,
    nbDqpskSymbols: nat,
    nbOutputSamples: nat,
    nbOutputBits: nat,
    nbInputSamples: nat)

  /** Which of the three constructor assertions failed. */
  datatype OfdmParamsError = TooFewSymbols | SymbolShorterThanFft | TooManyDataCarriers

  /** The relations every parameter set built by `NewOfdmParameters` satisfies. */
  predicate WellFormed(p: OfdmParams) {
    && p.nbSymbols >= 2
    && p.nbCyclicPrefix + p.nbFft == p.nbSymbolPeriod
    && p.nbFftDataCarriers <= p.nbFft
    && p.nbDqpskSymbols + 1 == p.nbSymbols
    && p.nbOutputSamples == p.nbDqpskSymbols * p.nbFftDataCarriers
    && p.nbOutputBits == 2 * p.nbOutputSamples
    && p.nbInputSamples == p.nbNullPeriod + p.nbSymbolPeriod * p.nbSymbols
  }

  /**
   * Builds the derived sizes from the five required ones, or reports the
   * first assertion that fails. On success the five inputs are stored
   * unchanged, the cyclic prefix is what the symbol adds to the FFT (so it
   * never underflows), at least one differential symbol remains, and the
   * output holds two bits per data carrier per differential symbol.
   */
  function NewOfdmParameters(
    nbSymbols: nat, nbNullPeriod: nat, nbSymbolPeriod: nat, nbFft: nat, nbFftDataCarriers: nat)
    : (r: Result<OfdmParams, OfdmParamsError>)
    ensures r.Ok? <==> nbSymbols >= 2 && nbSymbolPeriod >= nbFft && nbFft >= nbFftDataCarriers
    ensures nbSymbols < 2 ==> r == Err(TooFewSymbols)
    ensures nbSymbols >= 2 && nbSymbolPeriod < nbFft ==> r == Err(SymbolShorterThanFft)
    ensures nbSymbols >= 2 && nbSymbolPeriod >= nbFft && nbFft < nbFftDataCarriers ==> r == Err(TooManyDataCarriers)
    ensures r.Ok? ==> WellFormed(r.value)
    ensures r.Ok? ==> r.value.nbDqpskSymbols >= 1
    ensures r.Ok? ==> r.value.nbSymbols == nbSymbols && r.value.nbNullPeriod == nbNullPeriod
                      && r.value.nbSymbolPeriod == nbSymbolPeriod && r.value.nbFft == nbFft
                      && r.value.nbFftDataCarriers == nbFftDataCarriers
  {
    if nbSymbols < 2 then Err(TooFewSymbols)
    else if nbSymbolPeriod < nbFft then Err(SymbolShorterThanFft)
    else if nbFft < nbFftDataCarriers then Err(TooManyDataCarriers)
    else
      var nbInputSamples := nbNullPeriod + nbSymbolPeriod * nbSymbols;
      var nbCyclicPrefix := nbSymbolPeriod - nbFft;
      var nbDqpskSymbols := nbSymbols - 1;
      var nbOutputSamples := nbDqpskSymbols * nbFftDataCarriers;
      var nbOutputBits := nbOutputSamples * 2;
      Ok(OfdmParams(
        nbSymbols, nbNullPeriod, nbSymbolPeriod, nbCyclicPrefix, nbFft, nbFftDataCarriers,
        nbDqpskSymbols, nbOutputSamples, nbOutputBits, nbInputSamples))
  }

  /**
   * The frame layout used by the demodulator: symbol `i < nbSymbols` occupies
   * `[i * period, (i + 1) * period)`, its FFT window skips the cyclic prefix,
   * and the next frame's NULL symbol fills the rest of the input up to
   * `nbInputSamples` exactly.
   */
  lemma FrameLayout(p: OfdmParams, i: nat)
    requires WellFormed(p)
    requires i < p.nbSymbols
    ensures (i + 1) * p.nbSymbolPeriod <= p.nbSymbols * p.nbSymbolPeriod
    ensures i * p.nbSymbolPeriod + p.nbCyclicPrefix + p.nbFft == (i + 1) * p.nbSymbolPeriod
    ensures p.nbSymbols * p.nbSymbolPeriod + p.nbNullPeriod == p.nbInputSamples
  {
    assert (i + 1) * p.nbSymbolPeriod == i * p.nbSymbolPeriod + p.nbSymbolPeriod;
    MulLeftMonotone(i + 1, p.nbSymbols, p.nbSymbolPeriod);
  }

  /** The output bits are `2 K` soft bits for each of the DQPSK symbols. */
  lemma OutputBitsPerSymbol(p: OfdmParams)
    requires WellFormed(p)
    ensures p.nbOutputBits == p.nbDqpskSymbols * (2 * p.nbFftDataCarriers)
  {
    assert p.nbOutputBits == 2 * (p.nbDqpskSymbols * p.nbFftDataCarriers);
  }
}
