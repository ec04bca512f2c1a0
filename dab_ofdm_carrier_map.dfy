/**
 * Frequency de-interleaving table of ETSI EN 300 401, clause 14.6: entry `i`
 * of the map is the data carrier that the `i`-th transmitted bin of the
 * interleaving walk carries.
 */
module DabOfdmCarrierMap {
  import opened Outcomes
  import opened PowersOfTwo
  import opened PiTable
  import opened Counting
  import opened DabTransmissionModes
  import opened DabParameters
  import DabOfdmParameters
  import OfdmDsp
  import OfdmDemodulators
  import OfdmParameters

  /** The source's `assert!`s fail, or an entry is written past the map's end. */
  datatype CarrierMapPanic = AssertionFailed | IndexOutOfBounds

  /** The four assertions the source checks before walking. */
  predicate ArgsAccepted(nbCarriers: nat, nbFft: nat) {
    nbCarriers > 0 && nbFft > 0 && nbFft % 4 == 0 && nbCarriers <= nbFft
  }

  /** Bin `b` is transmitted: at most `K/2` bins from the DC bin `N/2`, and not DC itself. */
  predicate InBand(n: nat, k: nat, b: nat)
    requires ArgsAccepted(k, n)
  {
    n / 2 - k / 2 <= b <= n / 2 + k / 2 && b != n / 2
  }

  /**
   * The carrier a transmitted bin holds: bins below DC fill the lower half
   * of the carriers and bins above DC the upper half, DC being skipped.
   */
  function CarrierOf(n: nat, k: nat, b: nat): (c: nat)
    requires ArgsAccepted(k, n) && InBand(n, k, b)
    ensures c < k / 2 * 2 && c < k
    ensures b < n / 2 <==> c < k / 2
  {
    if b < n / 2 then b - (n / 2 - k / 2) else b - (n / 2 - k / 2) - 1
  }

  /** The bin that holds carrier `c`: the inverse of `CarrierOf`. */
  function BinOfCarrier(n: nat, k: nat, c: nat): (b: nat)
    requires ArgsAccepted(k, n) && c < k / 2 * 2
    ensures InBand(n, k, b) && CarrierOf(n, k, b) == c
  {
    if c < k / 2 then c + (n / 2 - k / 2) else c + (n / 2 - k / 2) + 1
  }

  lemma BinOfCarrierOf(n: nat, k: nat, b: nat)
    requires ArgsAccepted(k, n) && InBand(n, k, b)
    ensures BinOfCarrier(n, k, CarrierOf(n, k, b)) == b
  {
  }

  /** Different transmitted bins hold different carriers. */
  lemma CarrierOfInjective(n: nat, k: nat, b1: nat, b2: nat)
    requires ArgsAccepted(k, n) && InBand(n, k, b1) && InBand(n, k, b2)
    ensures CarrierOf(n, k, b1) == CarrierOf(n, k, b2) ==> b1 == b2
  {
    BinOfCarrierOf(n, k, b1);
    BinOfCarrierOf(n, k, b2);
  }

  /** The entries written during the first `j` steps of the walk. */
  function Entries(n: nat, k: nat, j: nat): (e: seq<nat>)
    requires ArgsAccepted(k, n)
    ensures |e| <= j
    ensures forall i :: 0 <= i < |e| ==> e[i] < k
  {
    if j == 0 then []
    else if InBand(n, k, Pi(n, j - 1)) then Entries(n, k, j - 1) + [CarrierOf(n, k, Pi(n, j - 1))]
    else Entries(n, k, j - 1)
  }

  /** Later steps only append. */
  lemma {:induction false} EntriesGrow(n: nat, k: nat, i: nat, j: nat)
    requires ArgsAccepted(k, n) && i <= j
    ensures Entries(n, k, i) <= Entries(n, k, j)
    decreases j
  {
    if i < j {
      EntriesGrow(n, k, i, j - 1);
      assert Entries(n, k, j - 1) <= Entries(n, k, j);
    }
  }

  lemma EntriesGrowLength(n: nat, k: nat, i: nat, j: nat)
    requires ArgsAccepted(k, n) && i <= j
    ensures |Entries(n, k, i)| <= |Entries(n, k, j)|
  {
    EntriesGrow(n, k, i, j);
  }

  /** Every entry is the carrier of a transmitted bin the walk visited, at step `i`. */
  lemma {:induction false} EntryOrigin(n: nat, k: nat, j: nat, x: nat) returns (i: nat)
    requires ArgsAccepted(k, n) && x in Entries(n, k, j)
    ensures i < j && InBand(n, k, Pi(n, i)) && CarrierOf(n, k, Pi(n, i)) == x
  {
    if x in Entries(n, k, j - 1) {
      i := EntryOrigin(n, k, j - 1, x);
    } else {
      i := j - 1;
    }
  }

  /** Every transmitted bin the walk visits contributes its carrier. */
  lemma {:induction false} VisitedCarrierEntered(n: nat, k: nat, j: nat, i: nat)
    requires ArgsAccepted(k, n) && i < j
    requires InBand(n, k, Pi(n, i))
    ensures CarrierOf(n, k, Pi(n, i)) in Entries(n, k, j)
  {
    EntriesGrow(n, k, i + 1, j);
    assert Entries(n, k, i + 1)[|Entries(n, k, i + 1)| - 1] == CarrierOf(n, k, Pi(n, i));
  }

  /** For `N = 2^m`, `m >= 3`, the carrier of the bin visited at step `j` was not entered before. */
  lemma EarlierEntryDiffers(m: nat, k: nat, j: nat, x: nat)
    requires m >= 3 && ArgsAccepted(k, Pow2(m)) && j < Pow2(m)
    requires InBand(Pow2(m), k, Pi(Pow2(m), j)) && x in Entries(Pow2(m), k, j)
    ensures x != CarrierOf(Pow2(m), k, Pi(Pow2(m), j))
  {
    var n := Pow2(m);
    var i := EntryOrigin(n, k, j, x);
    PiInjective(m, j, i);
    CarrierOfInjective(n, k, Pi(n, i), Pi(n, j));
  }

  /** For `N = 2^m`, `m >= 3`, the carrier of the bin visited at step `j` is new. */
  lemma NewCarrier(m: nat, k: nat, j: nat)
    requires m >= 3 && ArgsAccepted(k, Pow2(m)) && j < Pow2(m)
    requires InBand(Pow2(m), k, Pi(Pow2(m), j))
    ensures CarrierOf(Pow2(m), k, Pi(Pow2(m), j)) !in Entries(Pow2(m), k, j)
  {
    var n := Pow2(m);
    var c := CarrierOf(n, k, Pi(n, j));
    var earlier := Entries(n, k, j);
    forall x | x in earlier
      ensures x != c
    {
      EarlierEntryDiffers(m, k, j, x);
    }
  }

  /** For `N = 2^m`, `m >= 3`, no carrier is entered twice. */
  lemma {:induction false} EntriesDistinct(m: nat, k: nat, j: nat)
    requires m >= 3 && ArgsAccepted(k, Pow2(m)) && j <= Pow2(m)
    ensures Distinct(Entries(Pow2(m), k, j))
  {
    var n := Pow2(m);
    if j > 0 {
      EntriesDistinct(m, k, j - 1);
      var b := Pi(n, j - 1);
      if InBand(n, k, b) {
        NewCarrier(m, k, j - 1);
        DistinctSnoc(Entries(n, k, j - 1), CarrierOf(n, k, b));
      }
    }
  }

  /** For `N = 2^m`, `m >= 3`, the first `N` steps of the walk visit every bin. */
  lemma PiVisitsEveryBin(m: nat, b: nat)
    requires m >= 3 && b < Pow2(m)
    ensures exists j :: 0 <= j < Pow2(m) && Pi(Pow2(m), j) == b
  {
    var n := Pow2(m);
    var walk := seq(n, j requires 0 <= j < n => Pi(n, j));
    forall i1, i2 | 0 <= i1 < i2 < n
      ensures walk[i1] != walk[i2]
    {
      PiInjective(m, i2, i1);
    }
    Pigeonhole(walk, n);
    assert b in walk;
  }

  /**
   * For an FFT of `N = 2^m` bins, `m >= 3`, and an even number `K < N` of
   * carriers, the walk writes exactly `K` entries and they are the
   * carriers `0 .. K-1`, each once: the map is a permutation.
   */
  lemma CarrierMapIsPermutation(m: nat, k: nat)
    requires m >= 3 && 0 < k < Pow2(m) && k % 2 == 0
    ensures ArgsAccepted(k, Pow2(m))
    ensures |Entries(Pow2(m), k, Pow2(m))| == k
    ensures Distinct(Entries(Pow2(m), k, Pow2(m)))
    ensures forall c: nat :: c < k ==> c in Entries(Pow2(m), k, Pow2(m))
  {
    var n := Pow2(m);
    assert n % 4 == 0 by {
      assert n == 4 * Pow2(m - 2);
    }
    var e := Entries(n, k, n);
    EntriesDistinct(m, k, n);
    forall c: nat | c < k
      ensures c in e
    {
      CarrierEntered(m, k, c);
    }
    DistinctCoverCard(e, k);
  }

  /** For `N = 2^m`, `m >= 3`, each carrier `c < K` is entered during the first `N` steps. */
  lemma CarrierEntered(m: nat, k: nat, c: nat)
    requires m >= 3 && ArgsAccepted(k, Pow2(m)) && k < Pow2(m) && k % 2 == 0 && c < k
    ensures c in Entries(Pow2(m), k, Pow2(m))
  {
    var n := Pow2(m);
    assert c < k / 2 * 2;
    var b := BinOfCarrier(n, k, c);
    PiVisitsEveryBin(m, b);
    var j :| 0 <= j < n && Pi(n, j) == b;
    VisitedCarrierEntered(n, k, n, j);
  }

  /** The walk's update as the routine writes it, with `q = N/4`. */
  lemma PiStep(n: nat, j: nat, p: nat, q: int)
    requires n > 0 && p == Pi(n, j) && q == n / 4
    ensures Pi(n, j + 1) == (13 * p + q - 1) % n
  {
  }

  /** The routine's band test and carrier index, in terms of its own bounds. */
  lemma BandTest(n: nat, k: nat, b: nat, dc: int, lo: int, hi: int)
    requires ArgsAccepted(k, n) && dc == n / 2 && lo == dc - k / 2 && hi == dc + k / 2
    ensures InBand(n, k, b) <==> !(b < lo || b > hi || b == dc)
    ensures InBand(n, k, b) ==> CarrierOf(n, k, b) == if b < dc then b - lo else b - lo - 1
  {
  }

  /** A step that visits a bin outside the band enters nothing. */
  lemma SkipStep(n: nat, k: nat, j: nat)
    requires ArgsAccepted(k, n) && !InBand(n, k, Pi(n, j))
    ensures Entries(n, k, j + 1) == Entries(n, k, j)
  {
  }

  /**
   * A step that visits a transmitted bin writes its carrier into the first
   * slot after the entries so far, so the map keeps the form
   * "entries, then the slots as they were".
   */
  lemma WriteStep(n: nat, k: nat, j: nat, a: seq<nat>, initial: seq<nat>, c: nat)
    requires ArgsAccepted(k, n) && InBand(n, k, Pi(n, j)) && c == CarrierOf(n, k, Pi(n, j))
    requires |Entries(n, k, j)| < |initial|
    requires a == Entries(n, k, j) + initial[|Entries(n, k, j)|..]
    ensures |Entries(n, k, j + 1)| == |Entries(n, k, j)| + 1
    ensures a[|Entries(n, k, j)| := c] == Entries(n, k, j + 1) + initial[|Entries(n, k, j + 1)|..]
  {
    var e := Entries(n, k, j);
    assert Entries(n, k, j + 1) == e + [c];
    assert a[|e| := c] == (e + [c]) + initial[|e| + 1..];
  }

  /** A step that visits a transmitted bin when `K` entries are already written overflows the map. */
  lemma OverflowStep(n: nat, k: nat, j: nat)
    requires ArgsAccepted(k, n) && j < n
    requires InBand(n, k, Pi(n, j)) && |Entries(n, k, j)| >= k
    ensures |Entries(n, k, n)| > k
  {
    assert |Entries(n, k, j + 1)| == |Entries(n, k, j)| + 1;
    EntriesGrowLength(n, k, j + 1, n);
  }

  /**
   * The source's routine: checks its arguments, then walks `N` steps and
   * writes the carrier of each transmitted bin it visits into the next slot
   * of `carrierMap`. Slots past the last entry keep their values.
   */
  method GetDabOfdmCarrierMap(carrierMap: array<nat>, totalFft: nat) returns (r: Result<(), CarrierMapPanic>)
    modifies carrierMap
    ensures r == Err(AssertionFailed) <==> !ArgsAccepted(carrierMap.Length, totalFft)
    ensures ArgsAccepted(carrierMap.Length, totalFft) ==>
      (r.Ok? <==> |Entries(totalFft, carrierMap.Length, totalFft)| <= carrierMap.Length)
    ensures r.Ok? ==>
      var e := Entries(totalFft, carrierMap.Length, totalFft);
      carrierMap[..] == e + old(carrierMap[..])[|e|..]
    ensures r == Err(AssertionFailed) ==> carrierMap[..] == old(carrierMap[..])
  {
    var totalCarriers := carrierMap.Length;
    if !(totalCarriers > 0 && totalFft > 0 && totalFft % 4 == 0 && totalCarriers <= totalFft) {
      return Err(AssertionFailed);
    }
    var fftIndexDc := totalFft / 2;
    var fftIndexStart := fftIndexDc - totalCarriers / 2;
    var fftIndexEnd := fftIndexDc + totalCarriers / 2;
    var carrierMapIndex := 0;
    var piValue: nat := 0;
    ghost var initial := carrierMap[..];
    for j := 0 to totalFft
      invariant piValue == Pi(totalFft, j)
      invariant carrierMapIndex == |Entries(totalFft, totalCarriers, j)| <= totalCarriers
      invariant carrierMap[..] == Entries(totalFft, totalCarriers, j) + initial[carrierMapIndex..]
    {
      var fftIndex := piValue;
      var k := totalFft / 4;
      PiStep(totalFft, j, piValue, k);
      BandTest(totalFft, totalCarriers, fftIndex, fftIndexDc, fftIndexStart, fftIndexEnd);
      piValue := (13 * piValue + k - 1) % totalFft;
      if fftIndex < fftIndexStart || fftIndex > fftIndexEnd || fftIndex == fftIndexDc {
        SkipStep(totalFft, totalCarriers, j);
        assert carrierMapIndex == |Entries(totalFft, totalCarriers, j + 1)|;
        assert carrierMap[..] == Entries(totalFft, totalCarriers, j + 1) + initial[carrierMapIndex..];
        continue;
      }
      var carrierOutIndex: nat := if fftIndex < fftIndexDc then fftIndex - fftIndexStart else fftIndex - fftIndexStart - 1;
      if carrierMapIndex >= totalCarriers {
        OverflowStep(totalFft, totalCarriers, j);
        return Err(IndexOutOfBounds);
      }
      WriteStep(totalFft, totalCarriers, j, carrierMap[..], initial, carrierOutIndex);
      carrierMap[carrierMapIndex] := carrierOutIndex;
      carrierMapIndex := carrierMapIndex + 1;
      assert carrierMapIndex == |Entries(totalFft, totalCarriers, j + 1)|;
      assert carrierMap[..] == Entries(totalFft, totalCarriers, j + 1) + initial[carrierMapIndex..];
    }
    return Ok(());
  }

  /**
   * Every DAB mode meets the permutation theorem's conditions, so its
   * carrier map is filled completely with each carrier exactly once.
   */
  lemma DabCarrierMapIsPermutation(mode: DabTransmissionMode)
    ensures var p := GetDabParameters(mode);
      ArgsAccepted(p.nbFftDataCarriers, p.nbFft)
      && |Entries(p.nbFft, p.nbFftDataCarriers, p.nbFft)| == p.nbFftDataCarriers
      && Distinct(Entries(p.nbFft, p.nbFftDataCarriers, p.nbFft))
      && forall c: nat :: c < p.nbFftDataCarriers ==> c in Entries(p.nbFft, p.nbFftDataCarriers, p.nbFft)
  {
    var p := GetDabParameters(mode);
    DabFftIsPowerOfTwo(mode);
    CarrierMapIsPermutation(FftLog2(mode), p.nbFftDataCarriers);
  }

  /**
   * Every DAB mode can be demodulated: its OFDM parameters meet the
   * demodulator's size requirements, and its carrier map is a map of the
   * `K` data carriers, as `new` asserts.
   */
  lemma DabModeIsDemodulable(mode: DabTransmissionMode)
    ensures var p := DabOfdmParameters.GetDabOfdmParameters(mode);
      && OfdmDemodulators.Demodulable(p)
      && OfdmDsp.IsCarrierMap(Entries(p.nbFft, p.nbFftDataCarriers, p.nbFft), p.nbFftDataCarriers)
  {
    DabSizesDemodulable(mode);
    DabCarrierMapFits(mode);
  }

  /** The OFDM parameters of every mode meet the demodulator's size requirements. */
  lemma DabSizesDemodulable(mode: DabTransmissionMode)
    ensures OfdmDemodulators.Demodulable(DabOfdmParameters.GetDabOfdmParameters(mode))
  {
    var d := GetDabParameters(mode);
    var p := DabOfdmParameters.GetDabOfdmParameters(mode);
    assert p.nbCyclicPrefix == d.nbSymbolPeriod - d.nbFft;
  }

  /** The carrier map of every mode holds exactly `K` entries, each a carrier below `K`. */
  lemma DabCarrierMapFits(mode: DabTransmissionMode)
    ensures var p := GetDabParameters(mode);
      OfdmDsp.IsCarrierMap(Entries(p.nbFft, p.nbFftDataCarriers, p.nbFft), p.nbFftDataCarriers)
  {
    DabCarrierMapIsPermutation(mode);
  }

  /**
   * Mode I: the walk starts at bin 0, outside the band, then visits bin
   * 511, the 256th bin of the band, so the first entry is carrier 255.
   */
  lemma ModeIFirstEntry()
    ensures [255] <= Entries(2048, 1536, 2048)
  {
    assert Pi(2048, 1) == 511;
    assert Entries(2048, 1536, 2) == [255];
    EntriesGrow(2048, 1536, 2, 2048);
  }

  /** With `N = 12` the walk returns to bin 0 after six steps: `0, 2, 4, 6, 8, 10, 0, ...`. */
  lemma TwelveBinWalk(n: nat)
    requires n == 12
    ensures Pi(n, 1) == 2 && Pi(n, 2) == 4 && Pi(n, 3) == 6 && Pi(n, 4) == 8 && Pi(n, 5) == 10
    ensures Pi(n, 6) == 0 && Pi(n, 7) == 2 && Pi(n, 8) == 4 && Pi(n, 9) == 6 && Pi(n, 10) == 8 && Pi(n, 11) == 10
  {
    assert Pi(n, 1) == 2;
    assert Pi(n, 2) == 4;
    assert Pi(n, 3) == 6;
    assert Pi(n, 4) == 8;
    assert Pi(n, 5) == 10;
    assert Pi(n, 6) == 0;
    assert Pi(n, 7) == 2;
    assert Pi(n, 8) == 4;
    assert Pi(n, 9) == 6;
    assert Pi(n, 10) == 8;
  }

  /** With `N = 12` and 8 carriers, one cycle of the walk enters carriers `0, 2, 5, 7`. */
  lemma TwelveBinFirstCycle(n: nat, k: nat)
    requires n == 12 && k == 8
    ensures ArgsAccepted(k, n)
    ensures Entries(n, k, 6) == [0, 2, 5, 7]
  {
    TwelveBinWalk(n);
    assert Entries(n, k, 1) == [];
    assert Entries(n, k, 2) == [0];
    assert Entries(n, k, 3) == [0, 2];
    assert Entries(n, k, 4) == [0, 2];
    assert Entries(n, k, 5) == [0, 2, 5];
  }

  /**
   * The source's assertions alone do not make the walk a permutation: with
   * `N = 12` (a multiple of 4 but not a power of two) the walk cycles through
   * six bins, and 8 carriers are mapped as `0, 2, 5, 7` twice, leaving
   * carriers 1, 3, 4 and 6 out.
   */
  lemma TwelveBinWalkRepeats(n: nat, k: nat)
    requires n == 12 && k == 8
    ensures ArgsAccepted(k, n)
    ensures Entries(n, k, n) == [0, 2, 5, 7, 0, 2, 5, 7]
    ensures !Distinct(Entries(n, k, n))
  {
    TwelveBinWalk(n);
    TwelveBinFirstCycle(n, k);
    assert Entries(n, k, 7) == [0, 2, 5, 7];
    assert Entries(n, k, 8) == [0, 2, 5, 7, 0];
    assert Entries(n, k, 9) == [0, 2, 5, 7, 0, 2];
    assert Entries(n, k, 10) == [0, 2, 5, 7, 0, 2];
    assert Entries(n, k, 11) == [0, 2, 5, 7, 0, 2, 5];
    assert Entries(n, k, n)[0] == Entries(n, k, n)[4];
  }
}
