/**
 * Complex baseband samples. The source uses 32-bit floats; the model uses
 * exact reals, so rounding is not represented.
 */
module ComplexSamples {

  datatype Complex = Complex(re: real, im: real)

  const ComplexZero: Complex := Complex(0.0, 0.0)

  function Conj(z: Complex): Complex {
    Complex(z.re, -z.im)
  }

  function Mul(a: Complex, b: Complex): Complex {
    Complex(a.re * b.re - a.im * b.im, a.re * b.im + a.im * b.re)
  }

  function Add(a: Complex, b: Complex): Complex {
    Complex(a.re + b.re, a.im + b.im)
  }

  /** `|z|^2`, the squared magnitude. */
  function NormSqr(z: Complex): real {
    z.re * z.re + z.im * z.im
  }

  function Abs(x: real): real {
    if x < 0.0 then -x else x
  }

  /** `|re| + |im|`, the L1 norm of a sample. */
  function L1Norm(z: Complex): (r: real)
    ensures r >= 0.0
  {
    Abs(z.re) + Abs(z.im)
  }
}
