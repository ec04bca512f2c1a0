/**
 * The free helper routines of the OFDM demodulator: slice arithmetic,
 * differential QPSK demodulation, the soft-decision demapper, the relative
 * phase between neighbouring bins, the centred magnitude spectrum, the
 * cyclic-prefix phase error, the float remainder used to wrap the fine
 * frequency offset and the phase-locked-loop rotation. Floats are exact
 * reals here; the FFT, `log10` and `atan2` are given as function fields of
 * a `Dsp` value.
 */
module OfdmDsp {
  import opened ComplexSamples
  import opened ModularArithmetic

  /** A half-open index range `start..end`. */
  datatype SliceRange = SliceRange(start: nat, end: nat)

  /** `start..start + length`. */
  function SpanSlice(start: nat, length: nat): (r: SliceRange)
    ensures r.start == start && r.end - r.start == length
  {
    SliceRange(start, start + length)
  }

  /** The `index`-th block of `length` items. */
  function ChunkSlice(index: nat, length: nat): (r: SliceRange)
    ensures r.end - r.start == length
  {
    SpanSlice(index * length, length)
  }

  /**
   * The chunks of `count` blocks follow each other without gap or overlap
   * and stay inside `count * length` items.
   */
  lemma ChunkSlicesTile(count: nat, length: nat, i: nat)
    requires i < count
    ensures ChunkSlice(i, length).start + length == ChunkSlice(i + 1, length).start
    ensures ChunkSlice(i, length).end <= count * length
  {
    assert (i + 1) * length == i * length + length;
    MulLeftMonotone(i + 1, count, length);
  }

  /** Chunks with different indices do not overlap. */
  lemma ChunkSlicesDisjoint(length: nat, i: nat, j: nat)
    requires i < j
    ensures ChunkSlice(i, length).end <= ChunkSlice(j, length).start
  {
    assert (i + 1) * length == i * length + length;
    MulLeftMonotone(i + 1, j, length);
  }

  /** The items of `s` in `ChunkSlice(index, length)`. */
  function Chunk<T>(s: seq<T>, index: nat, length: nat): (c: seq<T>)
    requires (index + 1) * length <= |s|
    ensures |c| == length
  {
    var r := ChunkSlice(index, length);
    assert r.end == (index + 1) * length;
    s[r.start..r.end]
  }

  /** Chunk `index` of `count` chunks lies inside `count * length` items. */
  lemma ChunkInside(count: nat, length: nat, index: nat)
    requires index < count
    ensures (index + 1) * length == index * length + length
    ensures (index + 1) * length <= count * length
  {
    MulLeftMonotone(index + 1, count, length);
  }

  /** `chunks_exact(length)` yields `n / length` chunks, each inside the `n` items. */
  lemma ExactChunkInside(n: nat, length: nat, index: nat)
    requires length > 0 && index < n / length
    ensures (index + 1) * length == index * length + length
    ensures (index + 1) * length <= n
  {
    MulLeftMonotone(index + 1, n / length, length);
    DivTimesBelow(n, length);
  }

  /** Chunk `index` of a sequence made of `count` chunks of `length` items. */
  function ChunkOf<T>(s: seq<T>, count: nat, length: nat, index: nat): (c: seq<T>)
    requires |s| == count * length && index < count
    ensures |c| == length
  {
    ChunkInside(count, length, index);
    Chunk(s, index, length)
  }

  /** The blocks one after the other, as the chunked buffers hold them. */
  function Concat<T>(blocks: seq<seq<T>>): seq<T> {
    if blocks == [] then [] else Concat(blocks[..|blocks| - 1]) + blocks[|blocks| - 1]
  }

  /** Blocks of equal length are the chunks of their concatenation. */
  lemma {:induction false} ConcatChunks<T>(blocks: seq<seq<T>>, length: nat)
    requires forall j :: 0 <= j < |blocks| ==> |blocks[j]| == length
    ensures |Concat(blocks)| == |blocks| * length
    ensures forall i :: 0 <= i < |blocks| ==> ChunkOf(Concat(blocks), |blocks|, length, i) == blocks[i]
  {
    if blocks != [] {
      var n := |blocks|;
      var prefix := blocks[..n - 1];
      ConcatChunks(prefix, length);
      var c, cp := Concat(blocks), Concat(prefix);
      assert c == cp + blocks[n - 1];
      ChunkInside(n, length, n - 1);
      forall i | 0 <= i < n
        ensures ChunkOf(c, n, length, i) == blocks[i]
      {
        if i < n - 1 {
          ChunkInside(n - 1, length, i);
          assert ChunkOf(c, n, length, i) == cp[i * length..(i + 1) * length] == ChunkOf(cp, n - 1, length, i);
        } else {
          assert ChunkOf(c, n, length, i) == c[(n - 1) * length..n * length];
        }
      }
    }
  }

  /** A bound that holds in every block holds in their concatenation. */
  lemma {:induction false} ConcatWithin(blocks: seq<seq<int>>, lo: int, hi: int)
    requires forall j, k :: 0 <= j < |blocks| && 0 <= k < |blocks[j]| ==> lo <= blocks[j][k] <= hi
    ensures forall k :: 0 <= k < |Concat(blocks)| ==> lo <= Concat(blocks)[k] <= hi
  {
    if blocks != [] {
      ConcatWithin(blocks[..|blocks| - 1], lo, hi);
    }
  }

  // ---------------------------------------------------------------------
  // Soft-decision demapper

  /** Rounds towards zero, as a float-to-integer `as` cast does. */
  function TruncToInt(r: real): (t: int)
    ensures r >= 0.0 ==> 0 <= t && t as real <= r < t as real + 1.0
    ensures r < 0.0 ==> t <= 0 && t as real - 1.0 < r <= t as real
  {
    if r >= 0.0 then r.Floor else -((-r).Floor)
  }

  /**
   * `(-x * 127) as i8`: the soft bit for a component `x`, scaled for a
   * Viterbi decoder that maps bit 0 to `-127` and bit 1 to `+127`. The cast
   * truncates and saturates at the limits of `i8`.
   */
  function QuantiseToSoftBit(x: real): (b: int)
    ensures -128 <= b <= 127
    ensures -1.0 <= x <= 1.0 ==> -127 <= b <= 127
    ensures x >= 0.0 ==> b <= 0
    ensures x <= 0.0 ==> b >= 0
  {
    var y := -x * 127.0;
    var t := TruncToInt(y);
    if t < -128 then -128 else if t > 127 then 127 else t
  }

  /** Full-scale components give full-scale soft bits of the opposite sign; zero gives zero. */
  lemma QuantiseFullScale()
    ensures QuantiseToSoftBit(1.0) == -127
    ensures QuantiseToSoftBit(-1.0) == 127
    ensures QuantiseToSoftBit(0.0) == 0
  {
    assert TruncToInt(-127.0) == -127;
    assert TruncToInt(127.0) == 127;
  }

  /** Within full scale the quantiser is odd: negating the component negates the bit. */
  lemma QuantiseIsOdd(x: real)
    requires -1.0 <= x <= 1.0
    ensures QuantiseToSoftBit(-x) == -QuantiseToSoftBit(x)
  {
    var y := -x * 127.0;
    assert -(-x) * 127.0 == -y;
    if y > 0.0 {
      assert TruncToInt(-y) == -TruncToInt(y);
    }
  }

  function Max(a: real, b: real): real {
    if a < b then b else a
  }

  /** `a / m` lies in `[-1, 1]` when `|a| <= m`. */
  lemma DivWithinUnit(a: real, m: real)
    requires m > 0.0 && Abs(a) <= m
    ensures -1.0 <= a / m <= 1.0
  {
    var q := a / m;
    assert q * m == a;
  }

  /**
   * The two soft bits of one QPSK symbol `v`: `v` is scaled by the larger
   * of `|re|` and `|im|`, then `re` gives the first bit and `-im` the
   * second. A zero symbol gives `0.0 / 0.0`, a NaN, which the cast turns
   * into 0.
   */
  function SoftBitPair(v: Complex): (b: (int, int))
    ensures -127 <= b.0 <= 127 && -127 <= b.1 <= 127
  {
    var amplitude := Max(Abs(v.re), Abs(v.im));
    if amplitude == 0.0 then (0, 0)
    else
      DivWithinUnit(v.re, amplitude);
      DivWithinUnit(-v.im, amplitude);
      (QuantiseToSoftBit(v.re / amplitude), QuantiseToSoftBit(-v.im / amplitude))
  }

  /**
   * With the L1-style scaling a symbol on a diagonal, `|re| == |im|`, gets
   * full-scale bits on both components.
   */
  lemma DiagonalSymbolFullScale(v: Complex)
    requires Abs(v.re) == Abs(v.im) > 0.0
    ensures SoftBitPair(v).0 == (if v.re > 0.0 then -127 else 127)
    ensures SoftBitPair(v).1 == (if v.im > 0.0 then 127 else -127)
  {
    var a := Abs(v.re);
    QuantiseFullScale();
    UnitQuotients(a);
    if v.re > 0.0 {
      assert v.re == a;
    } else {
      assert v.re == -a;
    }
    if v.im > 0.0 {
      assert -v.im == -a;
    } else {
      assert -v.im == a;
    }
  }

  /** A value and its negation over itself. */
  lemma UnitQuotients(a: real)
    requires a > 0.0
    ensures a / a == 1.0 && (-a) / a == -1.0
  {
  }

  /** `carrierMapper` sends each of the `k` outputs to one of the `k` inputs. */
  predicate IsCarrierMap(carrierMapper: seq<nat>, k: nat) {
    |carrierMapper| == k && forall i :: 0 <= i < k ==> carrierMapper[i] < k
  }

  /**
   * The soft bits of one symbol: output `i < K` is the first bit of input
   * `carrierMapper[i]`, output `K + i` its second bit.
   */
  function SoftBits(carrierMapper: seq<nat>, x: seq<Complex>): (r: seq<int>)
    requires IsCarrierMap(carrierMapper, |x|)
    ensures |r| == 2 * |x|
    ensures forall j :: 0 <= j < |r| ==> -127 <= r[j] <= 127
  {
    seq(2 * |x|, j requires 0 <= j < 2 * |x| =>
      if j < |x| then SoftBitPair(x[carrierMapper[j]]).0 else SoftBitPair(x[carrierMapper[j - |x|]]).1)
  }

  /**
   * Demaps one symbol into the slice `y[at .. at + 2K]`. The slice bound is
   * the range check of the slicing; `carrierMapper[i] < K` is the index
   * check of `x[i_mapped]`.
   */
  method CalculateSoftBits(carrierMapper: seq<nat>, x: seq<Complex>, y: array<int>, at: nat)
    requires |carrierMapper| == |x|
    requires forall i :: 0 <= i < |x| ==> carrierMapper[i] < |x|
    requires at + 2 * |x| <= y.Length
    modifies y
    ensures y[at..at + 2 * |x|] == SoftBits(carrierMapper, x)
    ensures y[..at] == old(y[..at]) && y[at + 2 * |x|..] == old(y[at + 2 * |x|..])
  {
    var length := |carrierMapper|;
    ghost var bits := SoftBits(carrierMapper, x);
    for i := 0 to length
      invariant forall p :: at <= p < at + i ==> y[p] == bits[p - at]
      invariant forall p :: at + length <= p < at + length + i ==> y[p] == bits[p - at]
      invariant y[..at] == old(y[..at]) && y[at + 2 * length..] == old(y[at + 2 * length..])
    {
      var iMapped := carrierMapper[i];
      var v := x[iMapped];
      var pair := SoftBitPair(v);
      y[at + i] := pair.0;
      y[at + i + length] := pair.1;
    }
  }

  // ---------------------------------------------------------------------
  // Differential QPSK

  /**
   * The FFT bin read for DQPSK output `i`: the negative frequencies
   * `-K/2 .. -1` sit at the top of the FFT, `N - K/2 + i`, and the positive
   * ones `1 .. K/2` at `1 + (i - K/2)`.
   */
  function DqpskBin(nbFft: nat, nbData: nat, i: nat): (b: nat)
    requires nbData <= nbFft && nbData % 2 == 0 && i < nbData
    ensures b < nbFft
  {
    if i < nbData / 2 then nbFft - nbData / 2 + i else 1 + (i - nbData / 2)
  }

  /** The bins read are `1 ..= K/2` and `N - K/2 .. N`: never the DC bin 0. */
  lemma DqpskBinRange(nbFft: nat, nbData: nat, i: nat)
    requires nbData <= nbFft && nbData % 2 == 0 && i < nbData
    ensures var b := DqpskBin(nbFft, nbData, i);
      b != 0 && (1 <= b <= nbData / 2 || nbFft - nbData / 2 <= b < nbFft)
  {
  }

  /** With `N > K` the outputs read different bins. */
  lemma DqpskBinsDistinct(nbFft: nat, nbData: nat, i: nat, j: nat)
    requires nbData < nbFft && nbData % 2 == 0 && i < j < nbData
    ensures DqpskBin(nbFft, nbData, i) != DqpskBin(nbFft, nbData, j)
  {
  }

  /** Every bin of `1 ..= K/2` and `N - K/2 .. N` is read by some output. */
  lemma DqpskReadsEveryCarrierBin(nbFft: nat, nbData: nat, b: nat)
    requires nbData <= nbFft && nbData % 2 == 0
    requires 1 <= b <= nbData / 2 || nbFft - nbData / 2 <= b < nbFft
    ensures exists i :: 0 <= i < nbData && DqpskBin(nbFft, nbData, i) == b
  {
    if b < nbFft - nbData / 2 {
      assert DqpskBin(nbFft, nbData, b - 1 + nbData / 2) == b;
    } else {
      assert DqpskBin(nbFft, nbData, b - (nbFft - nbData / 2)) == b;
    }
  }

  /**
   * At `N == K`, which the routine's check `N >= K` admits, the first and
   * the last output both read bin `N/2`.
   */
  lemma DqpskSharesBinWhenFftIsFull(nbFft: nat, nbData: nat)
    requires nbFft == nbData && nbData > 0 && nbData % 2 == 0
    ensures DqpskBin(nbFft, nbData, 0) == DqpskBin(nbFft, nbData, nbData - 1) == nbFft / 2
  {
  }

  /** `y[i] = x0[b] * conj(x1[b])` for the bin `b` of output `i`. */
  function Dqpsk(nbFft: nat, nbData: nat, x0: seq<Complex>, x1: seq<Complex>): (y: seq<Complex>)
    requires |x0| == nbFft && |x1| == nbFft && nbData <= nbFft && nbData % 2 == 0
    ensures |y| == nbData
  {
    seq(nbData, i requires 0 <= i < nbData =>
      Mul(x0[DqpskBin(nbFft, nbData, i)], Conj(x1[DqpskBin(nbFft, nbData, i)])))
  }

  /**
   * Writes the DQPSK symbols of two consecutive FFTs into `y[at .. at + K]`,
   * negative frequencies first. The routine's five assertions are its
   * preconditions.
   */
  method CalculateDqpsk(nbFft: nat, nbData: nat, x0: seq<Complex>, x1: seq<Complex>, y: array<Complex>, at: nat)
    requires |x0| == nbFft && |x1| == nbFft
    requires at + nbData <= y.Length
    requires nbFft >= nbData && nbData % 2 == 0
    modifies y
    ensures y[at..at + nbData] == Dqpsk(nbFft, nbData, x0, x1)
    ensures y[..at] == old(y[..at]) && y[at + nbData..] == old(y[at + nbData..])
  {
    var nbDataHalf := nbData / 2;
    ghost var d := Dqpsk(nbFft, nbData, x0, x1);
    for i := 0 to nbDataHalf
      invariant forall p :: at <= p < at + i ==> y[p] == d[p - at]
      invariant y[..at] == old(y[..at]) && y[at + nbData..] == old(y[at + nbData..])
    {
      var dqpskIndex := i;
      var fftIndex := nbFft - nbDataHalf + i;
      var phaseDelta := Mul(x0[fftIndex], Conj(x1[fftIndex]));
      y[at + dqpskIndex] := phaseDelta;
    }
    for i := 0 to nbDataHalf
      invariant forall p :: at <= p < at + nbDataHalf + i ==> y[p] == d[p - at]
      invariant y[..at] == old(y[..at]) && y[at + nbData..] == old(y[at + nbData..])
    {
      var dqpskIndex := i + nbDataHalf;
      var fftIndex := 1 + i;
      var phaseDelta := Mul(x0[fftIndex], Conj(x1[fftIndex]));
      y[at + dqpskIndex] := phaseDelta;
    }
  }

  /**
   * A phase rotation common to two consecutive symbols, such as the one an
   * unknown channel phase adds, cancels out of every DQPSK output.
   */
  lemma DqpskIgnoresCommonRotation(c: Complex, nbFft: nat, nbData: nat, x0: seq<Complex>, x1: seq<Complex>)
    requires NormSqr(c) == 1.0
    requires |x0| == nbFft && |x1| == nbFft && nbData <= nbFft && nbData % 2 == 0
    ensures Dqpsk(nbFft, nbData, Rotate(c, x0), Rotate(c, x1)) == Dqpsk(nbFft, nbData, x0, x1)
  {
    var lhs, rhs := Dqpsk(nbFft, nbData, Rotate(c, x0), Rotate(c, x1)), Dqpsk(nbFft, nbData, x0, x1);
    forall i | 0 <= i < nbData
      ensures lhs[i] == rhs[i]
    {
      var b := DqpskBin(nbFft, nbData, i);
      UnitRotationStep(c, x1[b], x0[b]);
      MulCommutes(Mul(c, x0[b]), Conj(Mul(c, x1[b])));
      MulCommutes(x0[b], Conj(x1[b]));
    }
    assert lhs == rhs;
  }

  lemma MulCommutes(a: Complex, b: Complex)
    ensures Mul(a, b) == Mul(b, a)
  {
  }

  // ---------------------------------------------------------------------
  // Relative phase and magnitude spectrum

  /** `conj(x[i]) * x[i + 1]` for every bin but the last, which is zero. */
  function RelativePhase(x: seq<Complex>): (r: seq<Complex>)
    ensures |r| == |x|
  {
    seq(|x|, i requires 0 <= i < |x| => if i + 1 < |x| then Mul(Conj(x[i]), x[i + 1]) else ComplexZero)
  }

  /**
   * Replaces each bin by its phase step to the next, in place. The forward
   * loop reads `x[i + 1]` before it is overwritten. An empty slice makes
   * `length - 1` underflow.
   */
  method CalculateRelativePhase(x: array<Complex>)
    requires x.Length > 0
    modifies x
    ensures x[..] == RelativePhase(old(x[..]))
  {
    ghost var r := RelativePhase(x[..]);
    var length := x.Length;
    for i := 0 to length - 1
      invariant forall j :: 0 <= j < i ==> x[j] == r[j]
      invariant forall j :: i <= j < length ==> x[j] == old(x[j])
    {
      var delta := Mul(Conj(x[i]), x[i + 1]);
      x[i] := delta;
    }
    x[length - 1] := ComplexZero;
    assert forall j :: 0 <= j < length ==> x[j] == r[j];
    assert x[..] == r;
  }

  function Rotate(c: Complex, x: seq<Complex>): (r: seq<Complex>)
    ensures |r| == |x|
  {
    seq(|x|, i requires 0 <= i < |x| => Mul(c, x[i]))
  }

  /** `conj(c a) (c b) = |c|^2 conj(a) b`. */
  lemma ConjProductScales(c: Complex, a: Complex, b: Complex)
    ensures Mul(Conj(Mul(c, a)), Mul(c, b)) == Complex(NormSqr(c) * Mul(Conj(a), b).re, NormSqr(c) * Mul(Conj(a), b).im)
  {
    var ca, cb, ab := Mul(c, a), Mul(c, b), Mul(Conj(a), b);
    var lhs := Mul(Conj(ca), cb);
    ConjMulParts(ca, cb);
    ConjMulParts(a, b);
    ScaledParts(c.re, c.im, a.re, a.im, b.re, b.im, ca.re, ca.im, cb.re, cb.im);
  }

  /** `conj(x) y`, component by component. */
  lemma ConjMulParts(x: Complex, y: Complex)
    ensures Mul(Conj(x), y).re == x.re * y.re + x.im * y.im
    ensures Mul(Conj(x), y).im == x.re * y.im - x.im * y.re
  {
    assert (-x.im) * y.im == -(x.im * y.im);
    assert (-x.im) * y.re == -(x.im * y.re);
  }

  /**
   * `ConjProductScales` multiplied out: with `x = c a` and `y = c b`, both
   * parts of `conj(x) y` are `|c|^2` times those of `conj(a) b`.
   */
  lemma ScaledParts(p: real, q: real, ar: real, ai: real, br: real, bi: real, xr: real, xi: real, yr: real, yi: real)
    requires xr == p * ar - q * ai && xi == p * ai + q * ar
    requires yr == p * br - q * bi && yi == p * bi + q * br
    ensures xr * yr + xi * yi == (p * p + q * q) * (ar * br + ai * bi)
    ensures xr * yi - xi * yr == (p * p + q * q) * (ar * bi - ai * br)
  {
    ReIdentity(p, q, ar, ai, br, bi);
    ImIdentity(p, q, ar, ai, br, bi);
  }

  /** The real part of `ConjProductScales`, multiplied out. */
  lemma ReIdentity(p: real, q: real, ar: real, ai: real, br: real, bi: real)
    ensures (p * ar - q * ai) * (p * br - q * bi) + (p * ai + q * ar) * (p * bi + q * br)
         == (p * p + q * q) * (ar * br + ai * bi)
  {
  }

  /** The imaginary part of `ConjProductScales`, multiplied out. */
  lemma ImIdentity(p: real, q: real, ar: real, ai: real, br: real, bi: real)
    ensures (p * ar - q * ai) * (p * bi + q * br) - (p * ai + q * ar) * (p * br - q * bi)
         == (p * p + q * q) * (ar * bi - ai * br)
  {
  }

  /**
   * The relative phase does not see a common phase rotation of the
   * samples, which is why coarse synchronisation correlates it instead of
   * the raw spectrum.
   */
  lemma RelativePhaseIgnoresCommonRotation(c: Complex, x: seq<Complex>)
    requires NormSqr(c) == 1.0
    ensures RelativePhase(Rotate(c, x)) == RelativePhase(x)
  {
    var rx, r := Rotate(c, x), RelativePhase(x);
    var rr := RelativePhase(rx);
    forall i | 0 <= i < |x|
      ensures rr[i] == r[i]
    {
      if i + 1 < |x| {
        UnitRotationStep(c, x[i], x[i + 1]);
        assert rr[i] == Mul(Conj(rx[i]), rx[i + 1]);
      }
    }
    assert rr == r;
  }

  /** For a unit `c`, `conj(c a) (c b) = conj(a) b`. */
  lemma UnitRotationStep(c: Complex, a: Complex, b: Complex)
    requires NormSqr(c) == 1.0
    ensures Mul(Conj(Mul(c, a)), Mul(c, b)) == Mul(Conj(a), b)
  {
    ConjProductScales(c, a, b);
  }

  /**
   * `y[i] = db(x[(i + N/2) % N])`, the spectrum rotated so that bin 0
   * lands in the middle; `db` stands for `20 * log10(|z|)`.
   */
  function MagnitudeSpectrum(x: seq<Complex>, db: Complex -> real): (y: seq<real>)
    ensures |y| == |x|
  {
    seq(|x|, i requires 0 <= i < |x| => db(x[(i + |x| / 2) % |x|]))
  }

  method CalculateMagnitudeSpectrum(x: seq<Complex>, y: array<real>, db: Complex -> real)
    requires |x| == y.Length
    modifies y
    ensures y[..] == MagnitudeSpectrum(x, db)
  {
    var n := |x|;
    var m := n / 2;
    for i := 0 to n
      invariant forall k :: 0 <= k < i ==> y[k] == MagnitudeSpectrum(x, db)[k]
    {
      var j := (i + m) % n;
      var mag := db(x[j]);
      y[i] := mag;
    }
  }

  /**
   * For even `N`, entry `N/2 + f` of the rotated spectrum is frequency `f`:
   * bin `f` for `f >= 0`, bin `f + N` for `f < 0`. Coarse synchronisation
   * reads its window of offsets around `N/2` this way.
   */
  lemma MagnitudeSpectrumCentred(x: seq<Complex>, db: Complex -> real, f: int)
    requires |x| % 2 == 0 && -(|x| / 2) <= f < |x| / 2
    ensures 0 <= |x| / 2 + f < |x|
    ensures MagnitudeSpectrum(x, db)[|x| / 2 + f] == db(x[if f < 0 then f + |x| else f])
  {
    var n := |x|;
    var i := n / 2 + f;
    if f < 0 {
      ModUnique(i + n / 2, 0, f + n, n);
    } else {
      ModUnique(i + n / 2, 1, f, n);
    }
  }

  /** The rotation reads every bin exactly once: entry `i` reads bin `j` iff `i` is `j` rotated back. */
  lemma MagnitudeSpectrumReadsEachBinOnce(n: nat, i: nat, j: nat)
    requires i < n && j < n
    ensures (i + n / 2) % n == j <==> i == (j + n - n / 2) % n
  {
    var m := n / 2;
    if i + m < n {
      ModUnique(i + m, 0, i + m, n);
    } else {
      ModUnique(i + m, 1, i + m - n, n);
    }
    if j + n - m < n {
      ModUnique(j + n - m, 0, j + n - m, n);
    } else {
      ModUnique(j + n - m, 1, j - m, n);
    }
  }

  // ---------------------------------------------------------------------
  // Block power, cyclic-prefix phase error, float remainder, arg max

  function SumL1(block: seq<Complex>): (r: real)
    ensures r >= 0.0
  {
    if block == [] then 0.0 else SumL1(block[..|block| - 1]) + L1Norm(block[|block| - 1])
  }

  /** The mean L1 norm of a block; a block from `chunks_exact` is never empty. */
  function L1Average(block: seq<Complex>): (r: real)
    requires |block| > 0
    ensures r >= 0.0
  {
    SumL1(block) / (|block| as real)
  }

  /** `sum(suffix[i] * conj(prefix[i]))` over the first `count` samples. */
  function ConjugateSum(prefix: seq<Complex>, suffix: seq<Complex>, count: nat): Complex
    requires count <= |prefix| && count <= |suffix|
  {
    if count == 0 then ComplexZero
    else Add(ConjugateSum(prefix, suffix, count - 1), Mul(suffix[count - 1], Conj(prefix[count - 1])))
  }

  /**
   * The phase of the correlation between the cyclic prefix and the end of
   * the symbol it copies; `arg` stands for `atan2(im, re)`. The routine
   * asserts that the symbol is at least as long as its prefix.
   */
  function CyclicPhaseError(x: seq<Complex>, prefixLength: nat, arg: Complex -> real): real
    requires |x| >= prefixLength
  {
    var prefix := x[0..prefixLength];
    var suffix := x[|x| - prefixLength..|x|];
    arg(ConjugateSum(prefix, suffix, prefixLength))
  }

  /**
   * The float `%` of Rust: `a - b * trunc(a / b)`, which keeps the sign of
   * `a` and is smaller than `b` in magnitude.
   */
  function FloatRemainder(a: real, b: real): (r: real)
    requires b > 0.0
    ensures -b < r < b
    ensures a >= 0.0 ==> r >= 0.0
    ensures a <= 0.0 ==> r <= 0.0
  {
    var q := TruncToInt(a / b);
    RemainderBounds(a, b, a / b, q);
    a - b * (q as real)
  }

  /** A value already inside `(-b, b)` is left as it is. */
  lemma FloatRemainderInsideRange(a: real, b: real)
    requires b > 0.0 && -b < a < b
    ensures FloatRemainder(a, b) == a
  {
    var d := a / b;
    assert d * b == a;
    if d <= -1.0 {
      assert d * b <= -1.0 * b;
    }
    assert TruncToInt(d) == 0;
  }

  /** Scaling by a positive `b` keeps signs and maps `(-1, 1)` into `(-b, b)`. */
  lemma ScalePositive(b: real, f: real)
    requires b > 0.0
    ensures f >= 0.0 ==> b * f >= 0.0
    ensures f <= 0.0 ==> b * f <= 0.0
    ensures -1.0 < f < 1.0 ==> -b < b * f < b
  {
    if f >= 0.0 {
      assert b * f >= b * 0.0;
    } else {
      assert b * f <= b * 0.0;
    }
    if f < 1.0 {
      assert b * (1.0 - f) > 0.0;
    }
    if f > -1.0 {
      assert b * (1.0 + f) > 0.0;
    }
  }

  lemma RemainderBounds(a: real, b: real, d: real, q: int)
    requires b > 0.0 && d == a / b
    requires d >= 0.0 ==> q as real <= d < q as real + 1.0
    requires d < 0.0 ==> q as real - 1.0 < d <= q as real
    ensures -b < a - b * (q as real) < b
    ensures a >= 0.0 ==> a - b * (q as real) >= 0.0
    ensures a <= 0.0 ==> a - b * (q as real) <= 0.0
  {
    assert a == b * d;
    var f := d - q as real;
    assert a - b * (q as real) == b * f;
    ScaledFraction(a - b * (q as real), b, f);
    ScalePositive(b, d);
  }

  lemma ScaledFraction(r: real, b: real, f: real)
    requires b > 0.0 && -1.0 < f < 1.0 && r == b * f
    ensures -b < r < b
  {
    ScalePositive(b, f);
  }

  /**
   * `max_by` with a comparator that answers `Greater` only when strictly
   * greater: the fold keeps the later item on ties, so the result is the
   * last position of the maximum.
   */
  function MaxByLast(s: seq<real>): (r: nat)
    requires |s| > 0
    ensures r < |s|
    ensures forall j :: 0 <= j < |s| ==> s[j] <= s[r]
    ensures forall j :: r < j < |s| ==> s[j] < s[r]
  {
    if |s| == 1 then 0
    else
      var best := MaxByLast(s[..|s| - 1]);
      if s[best] > s[|s| - 1] then best else |s| - 1
  }

  // ---------------------------------------------------------------------
  // Transforms supplied by the numeric library

  /**
   * The transforms the demodulator does not compute itself: bin `k` of the
   * forward FFT of a block, sample `k` of its (unnormalised) inverse FFT,
   * `20 * log10(|z|)`, and `atan2(im, re)`.
   */
  datatype Dsp = Dsp(
    fftBin: (seq<Complex>, nat) -> Complex,
    ifftBin: (seq<Complex>, nat) -> Complex,
    db: Complex -> real,
    arg: Complex -> real)

  /** The forward FFT of a block, in place: as many bins as samples. */
  function Fft(dsp: Dsp, x: seq<Complex>): (y: seq<Complex>)
    ensures |y| == |x|
  {
    seq(|x|, k requires 0 <= k < |x| => dsp.fftBin(x, k))
  }

  function Ifft(dsp: Dsp, x: seq<Complex>): (y: seq<Complex>)
    ensures |y| == |x|
  {
    seq(|x|, k requires 0 <= k < |x| => dsp.ifftBin(x, k))
  }

  /** `x[k] * y[k]` for every `k`. */
  function PointwiseMul(x: seq<Complex>, y: seq<Complex>): (r: seq<Complex>)
    requires |x| == |y|
    ensures |r| == |x|
  {
    seq(|x|, k requires 0 <= k < |x| => Mul(x[k], y[k]))
  }

  function ConjAll(x: seq<Complex>): (r: seq<Complex>)
    ensures |r| == |x|
  {
    seq(|x|, k requires 0 <= k < |x| => Conj(x[k]))
  }

  /** `.sum()` of a slice of floats, added from the front. */
  function SumReals(s: seq<real>): real {
    if s == [] then 0.0 else SumReals(s[..|s| - 1]) + s[|s| - 1]
  }

  // ---------------------------------------------------------------------
  // Phase-locked loop

  /** The coefficients of `g`, highest power first. */
  const FastSineCoefficients: seq<real> := [
    3.161602020263671875, -14.049663543701171875, 38.495880126953125,
    -67.076629638671875, 64.83582305908203125, -25.1327419281005859375]

  /** Horner evaluation: `((c0 * z + c1) * z + ...) + c_last`. */
  function Horner(coefficients: seq<real>, z: real): real {
    if coefficients == [] then 0.0
    else Horner(coefficients[..|coefficients| - 1], z) * z + coefficients[|coefficients| - 1]
  }

  /**
   * A Chebyshev polynomial for `sin(2 * pi * x)`, accurate on
   * `[-0.75, 0.75]`: `g(x^2) * (x^2 - 1/4) * x` with `g` of degree five.
   */
  function FastSine(x: real): real {
    var z := x * x;
    Horner(FastSineCoefficients, z) * (z - 0.25) * x
  }

  /** The polynomial has the zeros of `sin(2 * pi * x)` at `0` and `+-1/2`. */
  lemma FastSineZeros()
    ensures FastSine(0.0) == 0.0 && FastSine(0.5) == 0.0 && FastSine(-0.5) == 0.0
  {
  }

  function Ceil(x: real): (c: int)
    ensures x <= c as real < x + 1.0
  {
    -((-x).Floor)
  }

  /** `f32::signum`: `-1` for negative numbers, `1` otherwise. */
  function Signum(x: real): real {
    if x < 0.0 then -1.0 else 1.0
  }

  /** The whole number of turns the wrap takes off `dt`: half turns round towards zero. */
  function WholeTurns(dt: real): int {
    if dt < 0.0 then -Ceil(-dt - 0.5) else Ceil(dt - 0.5)
  }

  /**
   * The phase `dt` translated into `[-1/2, 1/2]` by taking off `|dt| - 1/2`
   * rounded up, with the sign of `dt`: a whole number of turns.
   */
  function WrapHalfTurn(dt: real): (w: real)
    ensures -0.5 <= w <= 0.5
    ensures w == dt - WholeTurns(dt) as real
  {
    var offset := Ceil(Abs(dt) - 0.5) as real * Signum(dt);
    assert offset == WholeTurns(dt) as real;
    dt - offset
  }

  /** The phasor `cos + i sin` of `2 * pi * dt`, with both evaluated by `FastSine`. */
  function PllPhasor(dt: real): Complex {
    var w := WrapHalfTurn(dt);
    Complex(FastSine(w + 0.25), FastSine(w))
  }

  /** Sample `v` at position `index` of the block, rotated by `index * freqOffset` turns. */
  function PllSample(v: Complex, index: nat, freqOffset: real): Complex {
    Mul(v, PllPhasor(index as real * freqOffset))
  }

  /** The block rotated sample by sample, defined over its prefixes. */
  function ApplyPll(x: seq<Complex>, freqOffset: real): (y: seq<Complex>)
    ensures |y| == |x|
  {
    if x == [] then []
    else ApplyPll(x[..|x| - 1], freqOffset) + [PllSample(x[|x| - 1], |x| - 1, freqOffset)]
  }

  /** Each sample is rotated according to its own position only. */
  lemma {:induction false} ApplyPllSample(x: seq<Complex>, freqOffset: real, i: nat)
    requires i < |x|
    ensures ApplyPll(x, freqOffset)[i] == PllSample(x[i], i, freqOffset)
  {
    if i < |x| - 1 {
      ApplyPllSample(x[..|x| - 1], freqOffset, i);
    }
  }

  /** A prefix of the rotated block is the rotated prefix: the rotation of sample `i` depends on `i` only. */
  lemma {:induction false} ApplyPllPrefix(x: seq<Complex>, freqOffset: real, n: nat)
    requires n <= |x|
    ensures ApplyPll(x, freqOffset)[..n] == ApplyPll(x[..n], freqOffset)
    decreases |x|
  {
    if n < |x| {
      assert x[..|x| - 1][..n] == x[..n];
      ApplyPllPrefix(x[..|x| - 1], freqOffset, n);
    } else {
      assert x[..n] == x;
    }
  }

  /** `apply_pll`: each sample of `a[..count]` is multiplied in place by its phasor. */
  method ApplyPllInPlace(a: array<Complex>, count: nat, freqOffset: real)
    requires count <= a.Length
    modifies a
    ensures a[..count] == ApplyPll(old(a[..count]), freqOffset)
    ensures a[count..] == old(a[count..])
  {
    ghost var x := a[..count];
    for i := 0 to count
      invariant a[..i] == ApplyPll(x[..i], freqOffset)
      invariant a[i..] == old(a[i..])
    {
      a[i] := PllSample(a[i], i, freqOffset);
      assert x[..i + 1][..i] == x[..i];
      assert a[..i + 1] == a[..i] + [a[i]];
    }
    assert x[..count] == x;
  }

  /** The polynomial is odd, like the sine it approximates. */
  lemma FastSineOdd(x: real)
    ensures FastSine(-x) == -FastSine(x)
  {
    assert (-x) * (-x) == x * x;
  }
}
