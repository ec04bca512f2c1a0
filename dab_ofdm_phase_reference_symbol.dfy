/**
 * The phase reference symbol (PRS) of ETSI EN 300 401, clause 14.3.2, built
 * directly as the FFT of one OFDM symbol. Table 23 of the standard splits
 * the carriers into segments of 32 bins; bin `f` of a segment gets the
 * phase `(h + n) * pi/2`, where `h` comes from a row of table 24 (`HTable`)
 * and `n` from the segment. Negative frequencies sit at the end of the FFT
 * buffer and the DC bin at index 0.
 *
 * Every value written is a unit phasor at a multiple of 90 degrees, so a bin
 * is modelled exactly as `Zero` or `Phasor(m)`, standing for `cis(m * pi/2)`.
 */
module DabOfdmPhaseReferenceSymbol {
  import opened Outcomes
  import opened ModularArithmetic
  import opened DabTransmissionModes
  import opened DabParameters

  /** A row of table 23: the bins `fftBinStart ..= fftBinEnd`, a row of `HTable` and the phase offset `n`. */
  datatype PrsSegment = PrsSegment(fftBinStart: int, fftBinEnd: int, hTableRow: HTableRowIndex, phaseMultiple: nat)

  /** A row index of table 24, which has four rows. */
  type HTableRowIndex = r: nat | r < 4

  /** A row of table 24: one value per bin of a segment. */
  type HTableRow = s: seq<nat> | |s| == 32 witness seq(32, _ => 0)

  const PrsModeI: seq<PrsSegment> :=
    [
      PrsSegment(-768, -737, 0, 1),
      PrsSegment(-736, -705, 1, 2),
      PrsSegment(-704, -673, 2, 0),
      PrsSegment(-672, -641, 3, 1),
      PrsSegment(-640, -609, 0, 3),
      PrsSegment(-608, -577, 1, 2),
      PrsSegment(-576, -545, 2, 2),
      PrsSegment(-544, -513, 3, 3),
      PrsSegment(-512, -481, 0, 2),
      PrsSegment(-480, -449, 1, 1),
      PrsSegment(-448, -417, 2, 2),
      PrsSegment(-416, -385, 3, 3)
    ]
    + [
      PrsSegment(-384, -353, 0, 1),
      PrsSegment(-352, -321, 1, 2),
      PrsSegment(-320, -289, 2, 3),
      PrsSegment(-288, -257, 3, 3),
      PrsSegment(-256, -225, 0, 2),
      PrsSegment(-224, -193, 1, 2),
      PrsSegment(-192, -161, 2, 2),
      PrsSegment(-160, -129, 3, 1),
      PrsSegment(-128, -97, 0, 1),
      PrsSegment(-96, -65, 1, 3),
      PrsSegment(-64, -33, 2, 1),
      PrsSegment(-32, -1, 3, 2)
    ]
    + [
      PrsSegment(1, 32, 0, 3),
      PrsSegment(33, 64, 3, 1),
      PrsSegment(65, 96, 2, 1),
      PrsSegment(97, 128, 1, 1),
      PrsSegment(129, 160, 0, 2),
      PrsSegment(161, 192, 3, 2),
      PrsSegment(193, 224, 2, 1),
      PrsSegment(225, 256, 1, 0),
      PrsSegment(257, 288, 0, 2),
      PrsSegment(289, 320, 3, 2),
      PrsSegment(321, 352, 2, 3),
      PrsSegment(353, 384, 1, 3)
    ]
    + [
      PrsSegment(385, 416, 0, 0),
      PrsSegment(417, 448, 3, 2),
      PrsSegment(449, 480, 2, 1),
      PrsSegment(481, 512, 1, 3),
      PrsSegment(513, 544, 0, 3),
      PrsSegment(545, 576, 3, 3),
      PrsSegment(577, 608, 2, 3),
      PrsSegment(609, 640, 1, 0),
      PrsSegment(641, 672, 0, 3),
      PrsSegment(673, 704, 3, 0),
      PrsSegment(705, 736, 2, 1),
      PrsSegment(737, 768, 1, 1)
    ]


  const PrsModeII: seq<PrsSegment> := [
    PrsSegment(-192, -161, 0, 2),
    PrsSegment(-160, -129, 1, 3),
    PrsSegment(-128, -97, 2, 2),
    PrsSegment(-96, -65, 3, 2),
    PrsSegment(-64, -33, 0, 1),
    PrsSegment(-32, -1, 1, 2),
    PrsSegment(1, 32, 2, 0),
    PrsSegment(33, 64, 1, 2),
    PrsSegment(65, 96, 0, 2),
    PrsSegment(97, 128, 3, 1),
    PrsSegment(129, 160, 2, 0),
    PrsSegment(161, 192, 1, 3)
  ]

  const PrsModeIII: seq<PrsSegment> := [
    PrsSegment(-96, -65, 0, 2),
    PrsSegment(-64, -33, 1, 3),
    PrsSegment(-32, -1, 2, 0),
    PrsSegment(1, 32, 3, 2),
    PrsSegment(33, 64, 2, 2),
    PrsSegment(65, 96, 1, 2)
  ]

  const PrsModeIV: seq<PrsSegment> :=
    [
      PrsSegment(-384, -353, 0, 0),
      PrsSegment(-352, -321, 1, 1),
      PrsSegment(-320, -289, 2, 1),
      PrsSegment(-288, -257, 3, 2),
      PrsSegment(-256, -225, 0, 2),
      PrsSegment(-224, -193, 1, 2),
      PrsSegment(-192, -161, 2, 0),
      PrsSegment(-160, -129, 3, 3),
      PrsSegment(-128, -97, 0, 3),
      PrsSegment(-96, -65, 1, 1),
      PrsSegment(-64, -33, 2, 3),
      PrsSegment(-32, -1, 3, 2)
    ]
    + [
      PrsSegment(1, 32, 0, 0),
      PrsSegment(33, 64, 3, 1),
      PrsSegment(65, 96, 2, 0),
      PrsSegment(97, 128, 1, 2),
      PrsSegment(129, 160, 0, 0),
      PrsSegment(161, 192, 3, 1),
      PrsSegment(193, 224, 2, 2),
      PrsSegment(225, 256, 1, 2),
      PrsSegment(257, 288, 0, 2),
      PrsSegment(289, 320, 3, 1),
      PrsSegment(321, 352, 2, 3),
      PrsSegment(353, 384, 1, 0)
    ]


  const HTable: seq<HTableRow> := [
    [0, 2, 0, 0, 0, 0, 1, 1, 2, 0, 0, 0, 2, 2, 1, 1, 0, 2, 0, 0, 0, 0, 1, 1, 2, 0, 0, 0, 2, 2, 1, 1],
    [0, 3, 2, 3, 0, 1, 3, 0, 2, 1, 2, 3, 2, 3, 3, 0, 0, 3, 2, 3, 0, 1, 3, 0, 2, 1, 2, 3, 2, 3, 3, 0],
    [0, 0, 0, 2, 0, 2, 1, 3, 2, 2, 0, 2, 2, 0, 1, 3, 0, 0, 0, 2, 0, 2, 1, 3, 2, 2, 0, 2, 2, 0, 1, 3],
    [0, 1, 2, 1, 0, 3, 3, 2, 2, 3, 2, 1, 2, 1, 3, 2, 0, 1, 2, 1, 0, 3, 3, 2, 2, 3, 2, 1, 2, 1, 3, 2]
  ]

  /** Each row of table 24 is two copies of its first 16 values. */
  lemma HTableRepeatsEvery16(r: HTableRowIndex, c: nat)
    requires c < 16
    ensures HTable[r][c + 16] == HTable[r][c]
  {
  }

  function PrsSegments(mode: DabTransmissionMode): seq<PrsSegment> {
    match mode
    case I => PrsModeI
    case II => PrsModeII
    case III => PrsModeIII
    case IV => PrsModeIV
  }

  /** A bin of the spectrum: zero, or the unit phasor `cis(multiple * pi/2)`. */
  datatype Bin = Zero | Phasor(multiple: nat)

  /** The exact complex value `(re, im)` of a bin: a phasor is one of `1, i, -1, -i`. */
  function BinValue(b: Bin): (v: (int, int))
    ensures b.Zero? ==> v == (0, 0)
    ensures b.Phasor? ==> v.0 * v.0 + v.1 * v.1 == 1 && (v.0 == 0 || v.1 == 0)
    ensures b.Phasor? && b.multiple % 4 == 0 ==> v == (1, 0)
  {
    match b
    case Zero => (0, 0)
    case Phasor(m) =>
      if m % 4 == 0 then (1, 0)
      else if m % 4 == 1 then (0, 1)
      else if m % 4 == 2 then (-1, 0)
      else (0, -1)
  }

  /** Phases a whole turn apart are the same phasor. */
  lemma PhasorPeriodic(m: nat)
    ensures BinValue(Phasor(m + 4)) == BinValue(Phasor(m))
  {
    ModAddMultiple(1, 4, m);
  }

  /** Bins covered on each side of DC: 32 per segment, half the segments below DC. */
  function HalfWidth(segs: seq<PrsSegment>): nat {
    16 * |segs|
  }

  /** The frequency written `p`-th when the segments and their bins are walked in order. */
  function FrequencyAt(half: nat, p: nat): int {
    if p < half then p - half else p - half + 1
  }

  /** Where frequency `f` sits in an FFT buffer of `n` bins: negative frequencies wrap to the end. */
  function FftIndex(f: int, n: nat): int {
    if f < 0 then f + n else f
  }

  /**
   * The write position of buffer index `i`: the inverse of
   * `FftIndex(FrequencyAt(half, p), n)`, or `2 * half` for an index that no
   * segment writes (the DC bin and the bins beyond the carriers).
   */
  function PositionOf(half: nat, n: nat, i: nat): (p: nat)
    requires n > 2 * half
    ensures p <= 2 * half
  {
    if 1 <= i <= half then half + i - 1
    else if n - half <= i < n then i - n + half
    else 2 * half
  }

  /** Segment `j` is the `j`-th block of 32 write positions and names a row of `HTable`. */
  predicate SegmentTiles(segs: seq<PrsSegment>, j: nat)
    requires j < |segs|
  {
    && segs[j].fftBinStart == FrequencyAt(HalfWidth(segs), 32 * j)
    && segs[j].fftBinEnd == segs[j].fftBinStart + 31
  }

  /**
   * The segments tile `[-half, -1]` and then `[1, half]` with blocks of 32
   * bins, in increasing frequency, without gaps or overlaps.
   */
  predicate Tiles(segs: seq<PrsSegment>) {
    && |segs| > 0 && |segs| % 2 == 0
    && forall j :: 0 <= j < |segs| ==> SegmentTiles(segs, j)
  }

  /** The phase multiple `h + n` written at position `p`. */
  function PhaseAt(segs: seq<PrsSegment>, p: nat): nat
    requires Tiles(segs) && p < 2 * HalfWidth(segs)
  {
    var seg := segs[p / 32];
    HTable[seg.hTableRow][p % 32] + seg.phaseMultiple
  }

  /** Bin `i` once the first `w` positions are written over a zeroed buffer of `n` bins. */
  function BinAfter(segs: seq<PrsSegment>, n: nat, w: nat, i: nat): Bin
    requires Tiles(segs) && n > 2 * HalfWidth(segs)
  {
    var p := PositionOf(HalfWidth(segs), n, i);
    if p < w && p < 2 * HalfWidth(segs) then Phasor(PhaseAt(segs, p)) else Zero
  }

  /** Every bin of `a` is as the first `w` writes leave it. */
  ghost predicate WrittenUpTo(a: seq<Bin>, segs: seq<PrsSegment>, w: nat)
    requires Tiles(segs) && |a| > 2 * HalfWidth(segs)
  {
    forall i :: 0 <= i < |a| ==> a[i] == BinAfter(segs, |a|, w, i)
  }

  /** The spectrum the construction produces for `n` bins. */
  function PrsSpectrum(segs: seq<PrsSegment>, n: nat): (s: seq<Bin>)
    requires Tiles(segs) && n > 2 * HalfWidth(segs)
    ensures |s| == n
  {
    seq(n, i requires 0 <= i < n => BinAfter(segs, n, 2 * HalfWidth(segs), i))
  }

  /** Position `32 * j + c` is bin `c` of segment `j`. */
  lemma PositionInSegment(segs: seq<PrsSegment>, j: nat, c: nat)
    requires Tiles(segs) && j < |segs| && c < 32
    ensures 32 * j + c < 2 * HalfWidth(segs)
    ensures (32 * j + c) / 32 == j && (32 * j + c) % 32 == c
    ensures segs[j].fftBinStart + c == FrequencyAt(HalfWidth(segs), 32 * j + c)
  {
    assert SegmentTiles(segs, j);
    ModUnique(32 * j + c, j, c, 32);
    var m := |segs| / 2;
    assert HalfWidth(segs) == 32 * m;
  }

  /** Walking the positions in order visits each written index once. */
  lemma PositionOfIndex(half: nat, n: nat, p: nat)
    requires n > 2 * half && p < 2 * half
    ensures 0 <= FftIndex(FrequencyAt(half, p), n) < n
    ensures PositionOf(half, n, FftIndex(FrequencyAt(half, p), n)) == p
  {
  }

  /**
   * Writing bin `c` of segment `j`, the value at write position `w = 32 * j + c`,
   * at the FFT index of its frequency extends the written prefix by one position.
   */
  lemma WriteNextPosition(segs: seq<PrsSegment>, a: seq<Bin>, j: nat, c: nat, idx: int, v: Bin)
    requires Tiles(segs) && |a| > 2 * HalfWidth(segs)
    requires j < |segs| && c < 32
    requires WrittenUpTo(a, segs, 32 * j + c)
    requires idx == FftIndex(segs[j].fftBinStart + c, |a|)
    requires v == Phasor(HTable[segs[j].hTableRow][c] + segs[j].phaseMultiple)
    ensures 0 <= idx < |a|
    ensures WrittenUpTo(a[idx := v], segs, 32 * j + c + 1)
  {
    var half, n, w := HalfWidth(segs), |a|, 32 * j + c;
    PositionInSegment(segs, j, c);
    PositionOfIndex(half, n, w);
    var a' := a[idx := v];
    forall i | 0 <= i < n
      ensures a'[i] == BinAfter(segs, n, w + 1, i)
    {
      if i != idx {
        assert PositionOf(half, n, i) != w;
      }
    }
  }

  /** A zeroed buffer is the state before any write. */
  lemma ZeroedIsUnwritten(segs: seq<PrsSegment>, a: seq<Bin>)
    requires Tiles(segs) && |a| > 2 * HalfWidth(segs)
    requires forall i :: 0 <= i < |a| ==> a[i] == Zero
    ensures WrittenUpTo(a, segs, 0)
  {
  }

  /** Once every position is written the buffer is the spectrum. */
  lemma FullyWritten(segs: seq<PrsSegment>, a: seq<Bin>)
    requires Tiles(segs) && |a| > 2 * HalfWidth(segs)
    requires WrittenUpTo(a, segs, 2 * HalfWidth(segs))
    ensures a == PrsSpectrum(segs, |a|)
  {
  }

  lemma ModeITiles()
    ensures Tiles(PrsModeI)
  {
    assert forall j :: 0 <= j < 12 ==> SegmentTiles(PrsModeI, j);
    assert forall j :: 12 <= j < 24 ==> SegmentTiles(PrsModeI, j);
    assert forall j :: 24 <= j < 36 ==> SegmentTiles(PrsModeI, j);
    assert forall j :: 36 <= j < 48 ==> SegmentTiles(PrsModeI, j);
  }

  lemma ModeIVTiles()
    ensures Tiles(PrsModeIV)
  {
    assert forall j :: 0 <= j < 12 ==> SegmentTiles(PrsModeIV, j);
    assert forall j :: 12 <= j < 24 ==> SegmentTiles(PrsModeIV, j);
  }

  /** The table of every mode tiles its carriers, `K/2` on each side of DC. */
  lemma PrsSegmentsTile(mode: DabTransmissionMode)
    ensures Tiles(PrsSegments(mode))
    ensures 2 * HalfWidth(PrsSegments(mode)) == GetDabParameters(mode).nbFftDataCarriers
  {
    match mode
    case I => ModeITiles();
    case II =>
    case III =>
    case IV => ModeIVTiles();
  }

  /** The routine's `assert!`s: the bins are symmetric about DC, and the buffer holds them and DC. */
  datatype PrsPanic = BinsNotSymmetric | BufferTooSmall

  /**
   * The source's routine: checks its table and buffer, zeroes the buffer,
   * then writes every bin of every segment at its FFT index.
   */
  method GetDabOfdmPhaseReferenceSymbolFft(prsFft: array<Bin>, mode: DabTransmissionMode) returns (r: Result<(), PrsPanic>)
    modifies prsFft
    ensures r != Err(BinsNotSymmetric)
    ensures r == Err(BufferTooSmall) <==> prsFft.Length <= GetDabParameters(mode).nbFftDataCarriers
    ensures r.Ok? ==> Tiles(PrsSegments(mode)) && prsFft[..] == PrsSpectrum(PrsSegments(mode), prsFft.Length)
    ensures r.Err? ==> prsFft[..] == old(prsFft[..])
  {
    var prsSegments := PrsSegments(mode);
    PrsSegmentsTile(mode);
    var totalFft := prsFft.Length;
    var totalSegments := |prsSegments|;
    var totalCarriers := prsSegments[totalSegments - 1].fftBinEnd - prsSegments[0].fftBinStart + 1;
    assert SegmentTiles(prsSegments, 0) && SegmentTiles(prsSegments, totalSegments - 1);
    if prsSegments[totalSegments - 1].fftBinEnd != -prsSegments[0].fftBinStart {
      return Err(BinsNotSymmetric);
    }
    if totalFft < totalCarriers {
      return Err(BufferTooSmall);
    }
    for i := 0 to totalFft
      invariant forall k :: 0 <= k < i ==> prsFft[k] == Zero
    {
      prsFft[i] := Zero;
    }
    ZeroedIsUnwritten(prsSegments, prsFft[..]);
    for s := 0 to totalSegments
      invariant WrittenUpTo(prsFft[..], prsSegments, 32 * s)
    {
      var segment := prsSegments[s];
      assert SegmentTiles(prsSegments, s);
      var fftBins := segment.fftBinEnd - segment.fftBinStart + 1;
      for hTableColumn := 0 to fftBins
        invariant WrittenUpTo(prsFft[..], prsSegments, 32 * s + hTableColumn)
      {
        var fftBin := segment.fftBinStart + hTableColumn;
        var hValue := HTable[segment.hTableRow][hTableColumn];
        var phaseMultiple := hValue + segment.phaseMultiple;
        var fftIndex := if fftBin < 0 then fftBin + totalFft else fftBin;
        WriteNextPosition(prsSegments, prsFft[..], s, hTableColumn, fftIndex, Phasor(phaseMultiple));
        prsFft[fftIndex] := Phasor(phaseMultiple);
      }
    }
    FullyWritten(prsSegments, prsFft[..]);
    return Ok(());
  }

  /**
   * What the spectrum holds, in the terms of the standard: bin `c` of
   * segment `j` is the phasor `H[row][c] + n` at the FFT index of its
   * frequency.
   */
  lemma SegmentBinPhase(segs: seq<PrsSegment>, n: nat, j: nat, c: nat)
    requires Tiles(segs) && n > 2 * HalfWidth(segs)
    requires j < |segs| && c < 32
    ensures 0 <= FftIndex(segs[j].fftBinStart + c, n) < n
    ensures PrsSpectrum(segs, n)[FftIndex(segs[j].fftBinStart + c, n)] == Phasor(HTable[segs[j].hTableRow][c] + segs[j].phaseMultiple)
  {
    assert SegmentTiles(segs, j);
    PositionInSegment(segs, j, c);
    PositionOfIndex(HalfWidth(segs), n, 32 * j + c);
  }

  /**
   * Exactly the bins `1 ..= K/2` and `N - K/2 .. N` carry a phasor; the DC
   * bin and the bins beyond the carriers stay zero.
   */
  lemma SpectrumSupport(segs: seq<PrsSegment>, n: nat, i: nat)
    requires Tiles(segs) && n > 2 * HalfWidth(segs) && i < n
    ensures PrsSpectrum(segs, n)[i].Phasor? <==> (1 <= i <= HalfWidth(segs) || n - HalfWidth(segs) <= i)
  {
  }
}
