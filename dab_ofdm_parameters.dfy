/** The OFDM frame structure of each DAB transmission mode. */
module DabOfdmParameters {
  import opened Outcomes
  import opened DabTransmissionModes
  import opened DabParameters
  import opened OfdmParameters

  /**
   * The table row of the mode passed through `NewOfdmParameters`. The table's
   * own checks imply the constructor's, so this never panics, and every
   * field it passes on is the table's.
   */
  function GetDabOfdmParameters(mode: DabTransmissionMode): (r: OfdmParams)
    ensures NewOfdmParameters(
              GetDabParameters(mode).nbSymbols, GetDabParameters(mode).nbNullPeriod,
              GetDabParameters(mode).nbSymbolPeriod, GetDabParameters(mode).nbFft,
              GetDabParameters(mode).nbFftDataCarriers) == Ok(r)
    ensures WellFormed(r)
    ensures r.nbSymbols == GetDabParameters(mode).nbSymbols
    ensures r.nbNullPeriod == GetDabParameters(mode).nbNullPeriod
    ensures r.nbSymbolPeriod == GetDabParameters(mode).nbSymbolPeriod
    ensures r.nbFft == GetDabParameters(mode).nbFft
    ensures r.nbFftDataCarriers == GetDabParameters(mode).nbFftDataCarriers
  {
    var p := GetDabParameters(mode);
    var built := NewOfdmParameters(p.nbSymbols, p.nbNullPeriod, p.nbSymbolPeriod, p.nbFft, p.nbFftDataCarriers);
    built.value
  }

  /** Cyclic prefix lengths: 504, 126, 63 and 252 samples for modes I to IV. */
  function CyclicPrefixOf(mode: DabTransmissionMode): nat {
    match mode
    case I => 504
    case II => 126
    case III => 63
    case IV => 252
  }

  /** Frame lengths in samples: 96, 24, 24 and 48 ms at 2.048 MHz. */
  function FrameMillisecondsOf(mode: DabTransmissionMode): nat {
    match mode
    case I => 96
    case II => 24
    case III => 24
    case IV => 48
  }

  lemma DabOfdmDerivedSizes(mode: DabTransmissionMode)
    ensures GetDabOfdmParameters(mode).nbCyclicPrefix == CyclicPrefixOf(mode)
    ensures GetDabOfdmParameters(mode).nbInputSamples == FrameMillisecondsOf(mode) * 2048
  {
  }
}
