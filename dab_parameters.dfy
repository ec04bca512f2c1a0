/** The four DAB transmission modes (ETSI EN 300 401). */
module DabTransmissionModes {
  datatype DabTransmissionMode = I | II | III | IV
}

/**
 * Per-mode constants of a DAB transmission frame at a sampling rate of
 * 2.048 MHz, and the consistency checks the table is asserted to meet.
 */
module DabParameters {
  import opened DabTransmissionModes
  import opened PowersOfTwo

  datatype DabParams = DabParams(
    nbSymbols: nat,          // OFDM symbols in a frame (PRS included)
    nbNullPeriod: nat,       // samples in the NULL symbol
    nbSymbolPeriod: nat,     // samples in one OFDM symbol (cyclic prefix included)
    nbFft: nat,              // FFT length
    nbFftDataCarriers: nat,  // data carriers centred around DC
    nbFicSymbols: nat,       // symbols of the fast information channel
    nbMscSymbols: nat,       // symbols of the main service channel
    nbFibsInFic: nat,        // fast information blocks in the FIC
    nbCifsInMsc: nat)        // common interleaved frames in the MSC

  /** The five checks the table must pass before it is returned. */
  predicate TableChecksHold(p: DabParams) {
    && p.nbSymbols >= 2
    && p.nbSymbolPeriod >= p.nbFft
    && p.nbFft >= p.nbFftDataCarriers
    && p.nbSymbols - 1 == p.nbFicSymbols + p.nbMscSymbols
    && p.nbCifsInMsc > 0
    && p.nbFibsInFic % p.nbCifsInMsc == 0
  }

  /**
   * The per-mode table. Every row passes the checks (so the function never
   * panics), has an even number of carriers, keeps the carriers strictly below an FFT length that is a multiple of
   * four, and has a NULL symbol longer than the cyclic prefix.
   */
  function GetDabParameters(mode: DabTransmissionMode): (p: DabParams)
    ensures TableChecksHold(p)
    ensures p.nbFftDataCarriers % 2 == 0 && 0 < p.nbFftDataCarriers < p.nbFft
    ensures p.nbFft % 4 == 0
    ensures p.nbNullPeriod > p.nbSymbolPeriod - p.nbFft
  {
    match mode
    case I => DabParams(76, 2656, 2552, 2048, 1536, 3, 72, 12, 4)
    case II => DabParams(76, 664, 638, 512, 384, 3, 72, 3, 1)
    case III => DabParams(153, 345, 319, 256, 192, 8, 144, 4, 1)
    case IV => DabParams(76, 1328, 1276, 1024, 768, 3, 72, 6, 2)
  }

  /** Base-two logarithm of each mode's FFT length. */
  function FftLog2(mode: DabTransmissionMode): nat {
    match mode
    case I => 11
    case II => 9
    case III => 8
    case IV => 10
  }

  /** Every mode's FFT length is 2^k with k >= 3 (2048, 512, 256 and 1024). */
  lemma DabFftIsPowerOfTwo(mode: DabTransmissionMode)
    ensures FftLog2(mode) >= 3 && GetDabParameters(mode).nbFft == Pow2(FftLog2(mode))
  {
    match mode
    case I => assert Pow2(11) == 2048;
    case II => assert Pow2(9) == 512;
    case III => assert Pow2(8) == 256;
    case IV => assert Pow2(10) == 1024;
  }
}
