/** Exact complex numbers over `real`, standing in for `complex<double>`. */
module ComplexNum {

  datatype Complex = Complex(re: real, im: real)

  const Zero: Complex := Complex(0.0, 0.0)
  const One: Complex := Complex(1.0, 0.0)

  function Mul(a: Complex, b: Complex): Complex {
    Complex(a.re * b.re - a.im * b.im, a.re * b.im + a.im * b.re)
  }

  function Sub(a: Complex, b: Complex): Complex {
    Complex(a.re - b.re, a.im - b.im)
  }

  /** `c *= k` for an `int` factor k: both parts are scaled. */
  function Scale(c: Complex, k: int): Complex {
    Complex(c.re * k as real, c.im * k as real)
  }

  lemma MulOneLeft(c: Complex)
    ensures Mul(One, c) == c
  {
  }

  lemma MulZeroLeft(c: Complex)
    ensures Mul(Zero, c) == Zero
  {
  }

  /** Taking off k-1 copies of t and then one more takes off k copies. */
  lemma SubScaled(acc: Complex, t: Complex, k: int)
    ensures Sub(Sub(acc, Scale(t, k - 1)), t) == Sub(acc, Scale(t, k))
  {
  }

  lemma ScaleOne(t: Complex)
    ensures Scale(t, 1) == t
  {
  }

  /** Taking off k copies of t and then m more takes off k + m copies. */
  lemma SubScaledTwice(acc: Complex, t: Complex, k: int, m: int)
    ensures Sub(Sub(acc, Scale(t, k)), Scale(t, m)) == Sub(acc, Scale(t, k + m))
  {
  }

  lemma SubScaledZero(acc: Complex, t: Complex)
    ensures Sub(acc, Scale(t, 0)) == acc
  {
  }

  /** Arithmetic on the real line, where every value here has a zero imaginary part. */
  lemma MulReal(a: real, b: real)
    ensures Mul(Complex(a, 0.0), Complex(b, 0.0)) == Complex(a * b, 0.0)
  {
  }

  lemma ScaleReal(a: real, k: int)
    ensures Scale(Complex(a, 0.0), k) == Complex(a * k as real, 0.0)
  {
  }

  lemma SubRealFactor(a: real, b: real, c: real)
    ensures Sub(Complex(a * b, 0.0), Complex(a * c, 0.0)) == Complex(a * (b - c), 0.0)
  {
  }
}
