/** Facts about `/` and `%` that the buffer and carrier-map proofs share, and the smaller of two counts. */
module ModularArithmetic {

  /** `usize::min`: the smaller of two counts. */
  function Min(a: nat, b: nat): nat {
    if a < b then a else b
  }

  lemma {:induction false} MulAtLeast(a: int, m: int)
    ensures a >= 1 && m > 0 ==> a * m >= m
    decreases if a > 0 then a else 0
  {
    if a > 1 && m > 0 {
      MulAtLeast(a - 1, m);
      assert a * m == (a - 1) * m + m;
    }
  }

  /** The only multiple of `m` strictly between `-m` and `m` is zero. */
  lemma SmallMultipleIsZero(d: int, m: int)
    requires m > 0
    ensures -m < d * m < m ==> d == 0
  {
    MulAtLeast(d, m);
    MulAtLeast(-d, m);
    assert (-d) * m == -(d * m);
  }

  /** Quotient and remainder are unique. */
  lemma ModUnique(x: int, q: int, r: int, m: int)
    requires m > 0 && 0 <= r < m && x == q * m + r
    ensures x / m == q && x % m == r
  {
    var q', r' := x / m, x % m;
    assert x == q' * m + r';
    assert (q - q') * m == r' - r;
    SmallMultipleIsZero(q - q', m);
  }

  /** Adding a multiple of the modulus does not change the remainder. */
  lemma ModAddMultiple(k: int, m: int, z: int)
    requires m > 0
    ensures (k * m + z) % m == z % m
  {
    assert z == (z / m) * m + z % m;
    assert k * m + z == (k + z / m) * m + z % m;
    ModUnique(k * m + z, k + z / m, z % m, m);
  }

  /** Reducing one summand first gives the same remainder. */
  lemma ModOfSum(x: int, y: int, m: int)
    requires m > 0
    ensures (x % m + y) % m == (x + y) % m
  {
    assert x == (x / m) * m + x % m;
    ModAddMultiple(x / m, m, x % m + y);
  }

  /** Two numbers closer than the modulus have equal remainders only if equal. */
  lemma ModDistinct(a: int, b: int, m: int)
    requires m > 0 && b < a < b + m
    ensures a % m != b % m
  {
    var d := a / m - b / m;
    assert a == (a / m) * m + a % m;
    assert b == (b / m) * m + b % m;
    assert d * m == (a - b) - (a % m - b % m);
    SmallMultipleIsZero(d, m);
  }

  /** Multiplying by a natural number keeps the order. */
  lemma MulLeftMonotone(a: nat, b: nat, c: nat)
    requires a <= b
    ensures a * c <= b * c
  {
    assert b * c == a * c + (b - a) * c;
  }

  /** Whole blocks of `m` items fit inside the `n` items they are cut from. */
  lemma DivTimesBelow(n: nat, m: nat)
    requires m > 0
    ensures (n / m) * m <= n
  {
    assert n == (n / m) * m + n % m;
  }
}
