/** Powers of two, used for FFT lengths. */
module PowersOfTwo {
  function Pow2(k: nat): (r: nat)
    ensures r >= 1
  {
    if k == 0 then 1 else 2 * Pow2(k - 1)
  }
}
