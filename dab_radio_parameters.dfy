/**
 * Bit budgets of a decoded DAB frame: the fast information channel (FIC),
 * made of fast information blocks (FIB) grouped into fast information groups
 * (FIG), and the main service channel (MSC), made of common interleaved
 * frames (CIF).
 */
module DabRadioParameters {
  import opened DabTransmissionModes
  import opened DabParameters
  import opened DabOfdmParameters
  import opened OfdmParameters

  datatype DabRadioParams = DabRadioParams(
    nbSymbols: nat,
    nbFicSymbols: nat,
    nbMscSymbols: nat,
    nbFibsInFic: nat,
    nbCifsInMsc: nat,
    nbBitsPerSymbol: nat,
    nbBitsPerFrame: nat,
    nbBitsInFic: nat,
    nbBitsInMsc: nat,
    nbBitsPerFib: nat,
    nbBitsPerFig: nat,
    nbBitsPerCif: nat)

  /** Two bits (one DQPSK symbol) per data carrier. */
  const BitsPerCarrier: nat := 2

  /**
   * Bit budgets of one frame. Neither of the function's two assertions can
   * fail: the data symbols split exactly into FIC and MSC symbols, so the
   * FIC and MSC bits add up to the frame, and the FIBs divide evenly among
   * the CIFs.
   */
  function GetDabRadioParameters(mode: DabTransmissionMode): (r: DabRadioParams)
    ensures r.nbSymbols + 1 == GetDabParameters(mode).nbSymbols
    ensures r.nbSymbols == r.nbFicSymbols + r.nbMscSymbols
    ensures r.nbCifsInMsc > 0 && r.nbFibsInFic % r.nbCifsInMsc == 0
    ensures r.nbBitsPerSymbol == 2 * GetDabParameters(mode).nbFftDataCarriers
    ensures r.nbBitsPerFrame == r.nbBitsPerSymbol * r.nbSymbols
    ensures r.nbBitsInFic + r.nbBitsInMsc == r.nbBitsPerFrame
    ensures r.nbBitsPerFib * r.nbFibsInFic == r.nbBitsInFic
    ensures r.nbBitsPerFig * r.nbCifsInMsc == r.nbBitsInFic
    ensures r.nbBitsPerCif * r.nbCifsInMsc == r.nbBitsInMsc
  {
    var p := GetDabParameters(mode);
    var nbSymbols := p.nbSymbols - 1;
    var nbBitsPerSymbol := p.nbFftDataCarriers * BitsPerCarrier;
    var nbBitsPerFrame := nbBitsPerSymbol * nbSymbols;
    var nbBitsInFic := p.nbFicSymbols * nbBitsPerSymbol;
    var nbBitsInMsc := p.nbMscSymbols * nbBitsPerSymbol;
    DabRadioParams(
      nbSymbols, p.nbFicSymbols, p.nbMscSymbols, p.nbFibsInFic, p.nbCifsInMsc,
      nbBitsPerSymbol, nbBitsPerFrame, nbBitsInFic, nbBitsInMsc,
      nbBitsInFic / p.nbFibsInFic, nbBitsInFic / p.nbCifsInMsc, nbBitsInMsc / p.nbCifsInMsc)
  }

  /** Every mode has 768-bit FIBs and 55296-bit CIFs. */
  lemma FibAndCifSizes(mode: DabTransmissionMode)
    ensures GetDabRadioParameters(mode).nbBitsPerFib == 768
    ensures GetDabRadioParameters(mode).nbBitsPerCif == 55296
  {
  }

  /** Mode I: a 9216-bit FIC in 2304-bit FIGs, and a 230400-bit frame. */
  lemma ModeIBitBudget()
    ensures GetDabRadioParameters(I).nbBitsInFic == 9216
    ensures GetDabRadioParameters(I).nbBitsPerFig == 2304
    ensures GetDabRadioParameters(I).nbBitsPerFrame == 230400
  {
  }

  /** Two bits per carrier over `symbols` symbols, counted either way round. */
  lemma FrameBitsCommute(o: OfdmParams, r: DabRadioParams, symbols: nat, carriers: nat)
    requires WellFormed(o) && o.nbSymbols == symbols + 1 && o.nbFftDataCarriers == carriers
    requires r.nbBitsPerSymbol == 2 * carriers && r.nbBitsPerFrame == r.nbBitsPerSymbol * symbols
    ensures o.nbOutputBits == r.nbBitsPerFrame
  {
    assert 2 * (symbols * carriers) == (2 * carriers) * symbols;
  }

  /** The demodulator emits exactly one frame's worth of bits per OFDM frame. */
  lemma OutputBitsMatchFrameBits(mode: DabTransmissionMode)
    ensures GetDabOfdmParameters(mode).nbOutputBits == GetDabRadioParameters(mode).nbBitsPerFrame
  {
    var r := GetDabRadioParameters(mode);
    FrameBitsCommute(GetDabOfdmParameters(mode), r, r.nbSymbols, GetDabParameters(mode).nbFftDataCarriers);
  }
}
