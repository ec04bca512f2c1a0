/**
 * The frequency-interleaving walk of ETSI EN 300 401, clause 14.6.1:
 * `pi(0) = 0`, `pi(j + 1) = (13 * pi(j) + N/4 - 1) mod N`. For a power-of-two
 * FFT length of at least 8 the first `N` values are all different, so the
 * walk visits every bin exactly once.
 *
 * The proof writes `pi(j)` as `c * S(j) mod N` with `c = N/4 - 1` (odd) and
 * `S(j) = 1 + 13 + ... + 13^(j-1)`, and shows that the power of two dividing
 * `S(d)` is the one dividing `d`.
 */
module PiTable {
  import opened PowersOfTwo
  import opened ModularArithmetic

  /** The bin the walk visits at step `j`. */
  function Pi(n: nat, j: nat): (r: nat)
    requires n > 0
    ensures r < n
  {
    if j == 0 then 0 else (13 * Pi(n, j - 1) + n / 4 - 1) % n
  }

  function Pow13(i: nat): (r: nat)
    ensures r >= 1
  {
    if i == 0 then 1 else 13 * Pow13(i - 1)
  }

  /** `1 + 13 + ... + 13^(d-1)`, in the Horner form the walk follows. */
  function GeomSum(d: nat): nat {
    if d == 0 then 0 else 13 * GeomSum(d - 1) + 1
  }

  /** `x` is divisible by `2^k`, stated one halving at a time. */
  predicate DivPow2(x: int, k: nat)
    decreases k
  {
    k == 0 || (x % 2 == 0 && DivPow2(x / 2, k - 1))
  }

  lemma {:induction false} DivPow2Zero(k: nat)
    ensures DivPow2(0, k)
  {
    if k > 0 {
      DivPow2Zero(k - 1);
    }
  }

  /** A positive multiple of `2^k` is at least `2^k`. */
  lemma {:induction false} DivPow2Bound(d: int, k: nat)
    ensures d > 0 && DivPow2(d, k) ==> d >= Pow2(k)
  {
    if k > 0 && d > 0 && DivPow2(d, k) {
      DivPow2Bound(d / 2, k - 1);
    }
  }

  /** `x % 2^k == 0` in the halving form. */
  lemma {:induction false} ModPow2IsDivPow2(x: int, k: nat)
    ensures x % Pow2(k) == 0 ==> DivPow2(x, k)
    decreases k
  {
    if k > 0 && x % Pow2(k) == 0 {
      var q := x / Pow2(k);
      assert x == q * Pow2(k);
      assert x == (q * Pow2(k - 1)) * 2;
      ModUnique(x, q * Pow2(k - 1), 0, 2);
      ModUnique(x / 2, q, 0, Pow2(k - 1));
      ModPow2IsDivPow2(x / 2, k - 1);
    }
  }

  lemma OddTimesOdd(a: int, b: int)
    requires a % 2 == 1 && b % 2 == 1
    ensures (a * b) % 2 == 1
  {
    var p, q := a / 2, b / 2;
    assert a == 2 * p + 1 && b == 2 * q + 1;
    assert a * b == (2 * p * q + p + q) * 2 + 1;
    ModUnique(a * b, 2 * p * q + p + q, 1, 2);
  }

  /** An odd factor does not change which power of two divides a number. */
  lemma {:induction false} DivPow2OddFactor(o: int, x: int, k: nat)
    requires o % 2 == 1
    ensures DivPow2(o * x, k) ==> DivPow2(x, k)
    decreases k
  {
    if k > 0 && DivPow2(o * x, k) {
      if x % 2 == 1 {
        OddTimesOdd(o, x);
      }
      var y := x / 2;
      assert x == 2 * y;
      assert o * x == 2 * (o * y);
      assert (o * x) / 2 == o * y;
      DivPow2OddFactor(o, y, k - 1);
    }
  }

  lemma {:induction false} Pow13ModFour(m: nat)
    ensures Pow13(m) % 4 == 1
  {
    if m > 0 {
      Pow13ModFour(m - 1);
      ModAddMultiple(3 * Pow13(m - 1), 4, Pow13(m - 1));
    }
  }

  lemma {:induction false} GeomSumParity(d: nat)
    ensures GeomSum(d) % 2 == d % 2
  {
    if d > 0 {
      GeomSumParity(d - 1);
      ModAddMultiple(6 * GeomSum(d - 1), 2, GeomSum(d - 1) + 1);
      ModOfSum(GeomSum(d - 1), 1, 2);
      ModOfSum(d - 1, 1, 2);
    }
  }

  /** `S(d + b) = 13^b * S(d) + S(b)`. */
  lemma {:induction false} GeomSumSplit(d: nat, b: nat)
    ensures GeomSum(d + b) == Pow13(b) * GeomSum(d) + GeomSum(b)
  {
    if b > 0 {
      GeomSumSplit(d, b - 1);
      SplitArith(Pow13(b - 1), GeomSum(d), GeomSum(b - 1), GeomSum(d + b - 1), GeomSum(d + b), Pow13(b), GeomSum(b));
    }
  }

  /** The arithmetic of one step of `GeomSumSplit`, apart from the definitions. */
  lemma SplitArith(p: int, s: int, t: int, prev: int, cur: int, pb: int, sb: int)
    requires prev == p * s + t && cur == 13 * prev + 1
    requires pb == 13 * p && sb == 13 * t + 1
    ensures cur == pb * s + sb
  {
    Lin13(p, s, t);
  }

  lemma Lin13(p: int, s: int, t: int)
    ensures 13 * (p * s + t) + 1 == (13 * p) * s + (13 * t + 1)
  {
  }

  /**
   * `S(2m) = (13^m + 1) * S(m)` where `13^m + 1` is twice an odd number, so
   * halving `S(2m)` leaves an odd multiple of `S(m)`.
   */
  lemma EvenSplitArith(p: int, sm: int, sd: int)
    requires p % 4 == 1 && sd == p * sm + sm
    ensures sd % 2 == 0 && ((p + 1) / 2) % 2 == 1 && sd / 2 == ((p + 1) / 2) * sm
  {
    var q := p / 4;
    var o := (p + 1) / 2;
    assert p == 4 * q + 1;
    assert p + 1 == 2 * o;
    assert o == 2 * q + 1;
    ModUnique(o, q, 1, 2);
    assert sd == 2 * (o * sm);
    ModUnique(sd, o * sm, 0, 2);
  }

  /** The power of two dividing `S(d)` also divides `d`. */
  lemma {:induction false} GeomSumDivPow2(d: nat, k: nat)
    ensures DivPow2(GeomSum(d), k) ==> DivPow2(d, k)
    decreases d
  {
    if k == 0 || d == 0 {
      DivPow2Zero(k);
    } else if d % 2 == 1 {
      GeomSumParity(d);
    } else {
      var m := d / 2;
      assert d == m + m;
      GeomSumSplit(m, m);
      Pow13ModFour(m);
      EvenSplitArith(Pow13(m), GeomSum(m), GeomSum(d));
      DivPow2OddFactor((Pow13(m) + 1) / 2, GeomSum(m), k - 1);
      GeomSumDivPow2(m, k - 1);
    }
  }

  lemma MulDistributes(c: int, x: int, y: int)
    ensures c * (x + y) == c * x + c * y
  {
  }

  lemma MulAssociates(a: int, b: int, c: int)
    ensures a * (b * c) == a * b * c
  {
  }

  /** `c * S(j + 1) = 13 * (c * S(j)) + c`. */
  lemma ScaledStep(c: int, s: int)
    ensures c * (13 * s + 1) == 13 * (c * s) + c
  {
  }

  /** One step of the walk may reduce its argument first. */
  lemma WalkStepMod(x: int, c: int, n: nat)
    requires n > 0
    ensures (13 * (x % n) + c) % n == (13 * x + c) % n
  {
    var q := x / n;
    assert x == q * n + x % n;
    assert 13 * x + c == (13 * q) * n + (13 * (x % n) + c);
    ModAddMultiple(13 * q, n, 13 * (x % n) + c);
  }

  /** The arithmetic of one step of `PiClosedForm`, apart from the walk's definitions. */
  lemma ClosedFormArith(prev: int, cur: int, c: int, s: int, y: int, n: int)
    requires n > 0
    requires prev == (c * s) % n && cur == (13 * prev + c) % n
    requires y == c * (13 * s + 1)
    ensures cur == y % n
  {
    WalkStepMod(c * s, c, n);
    ScaledStep(c, s);
  }

  /** The inductive step of `PiClosedForm`. */
  lemma PiClosedFormStep(n: nat, j: nat)
    requires n > 0 && n % 4 == 0 && j > 0
    requires Pi(n, j - 1) == ((n / 4 - 1) * GeomSum(j - 1)) % n
    ensures Pi(n, j) == ((n / 4 - 1) * GeomSum(j)) % n
  {
    var c := n / 4 - 1;
    ClosedFormArith(Pi(n, j - 1), Pi(n, j), c, GeomSum(j - 1), c * GeomSum(j), n);
  }

  /** The walk in closed form: `pi(j) = ((N/4 - 1) * S(j)) mod N`. */
  lemma {:induction false} PiClosedForm(n: nat, j: nat)
    requires n > 0 && n % 4 == 0
    ensures Pi(n, j) == ((n / 4 - 1) * GeomSum(j)) % n
  {
    if j > 0 {
      PiClosedForm(n, j - 1);
      PiClosedFormStep(n, j);
    } else {
      assert (n / 4 - 1) * GeomSum(j) == 0 * n + 0;
      ModUnique(0, 0, 0, n);
    }
  }

  lemma SameRemainderDivides(x: int, y: int, m: int)
    requires m > 0
    ensures x % m == y % m ==> (x - y) % m == 0
  {
    assert x == (x / m) * m + x % m;
    assert y == (y / m) * m + y % m;
    if x % m == y % m {
      assert x - y == (x / m - y / m) * m + 0;
      ModUnique(x - y, x / m - y / m, 0, m);
    }
  }

  /** `N/4 - 1` is odd when `N = 2^k`, `k >= 3`. */
  lemma QuarterMinusOneIsOdd(k: nat)
    requires k >= 3
    ensures Pow2(k) / 4 - 1 >= 1 && (Pow2(k) / 4 - 1) % 2 == 1
  {
    assert Pow2(k) == 4 * Pow2(k - 2);
    assert Pow2(k - 2) == 2 * Pow2(k - 3);
  }

  /** Two steps `b <= a` land on the same bin only if `N` divides `(N/4 - 1) * 13^b * S(a - b)`. */
  lemma WalkCollision(n: nat, a: nat, b: nat)
    requires n > 0 && n % 4 == 0 && b <= a
    ensures Pi(n, a) == Pi(n, b) ==> ((n / 4 - 1) * Pow13(b) * GeomSum(a - b)) % n == 0
  {
    var c := n / 4 - 1;
    var sa, sb, sd, p := GeomSum(a), GeomSum(b), GeomSum(a - b), Pow13(b);
    PiClosedForm(n, a);
    PiClosedForm(n, b);
    GeomSumSplit(a - b, b);
    assert sa == p * sd + sb;
    MulDistributes(c, p * sd, sb);
    MulAssociates(c, p, sd);
    SameRemainderDivides(c * sa, c * sb, n);
  }

  /** The first `N` steps of the walk visit `N` different bins. */
  lemma PiInjective(k: nat, a: nat, b: nat)
    requires k >= 3
    requires b < a < Pow2(k)
    ensures Pi(Pow2(k), a) != Pi(Pow2(k), b)
  {
    var n := Pow2(k);
    var c := n / 4 - 1;
    var d := a - b;
    assert n == 4 * Pow2(k - 2);
    QuarterMinusOneIsOdd(k);
    WalkCollision(n, a, b);
    Pow13ModFour(b);
    ModUnique(Pow13(b), Pow13(b) / 4 * 2, 1, 2);
    OddTimesOdd(c, Pow13(b));
    var o := c * Pow13(b);
    ModPow2IsDivPow2(o * GeomSum(d), k);
    DivPow2OddFactor(o, GeomSum(d), k);
    GeomSumDivPow2(d, k);
    DivPow2Bound(d, k);
  }
}
