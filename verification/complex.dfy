/** Exact complex arithmetic: a complex number is a pair of reals.
    Floating-point rounding is deliberately not modelled. */
module Complexes {

  import Reals

  datatype Complex = Complex(re: real, im: real)

  const Zero: Complex := Complex(0.0, 0.0)
  const One: Complex := Complex(1.0, 0.0)

  function Add(a: Complex, b: Complex): Complex {
    Complex(a.re + b.re, a.im + b.im)
  }

  function Sub(a: Complex, b: Complex): Complex {
    Complex(a.re - b.re, a.im - b.im)
  }

  function Mul(a: Complex, b: Complex): Complex {
    Complex(a.re * b.re - a.im * b.im, a.re * b.im + a.im * b.re)
  }

  /** Multiplication by a real scalar. */
  function Scale(s: real, a: Complex): Complex {
    Complex(s * a.re, s * a.im)
  }

  function Conj(a: Complex): Complex {
    Complex(a.re, -a.im)
  }

  /** |a|^2; the model never needs the modulus itself, only its square. */
  function AbsSq(a: Complex): (r: real)
    ensures r >= 0.0
  {
    Reals.SumOfSquaresNonNegative(a.re, a.im);
    a.re * a.re + a.im * a.im
  }

  lemma MulOneRight(a: Complex)
    ensures Mul(a, One) == a
  {
  }

  lemma MulAssoc(a: Complex, b: Complex, c: Complex)
    ensures Mul(Mul(a, b), c) == Mul(a, Mul(b, c))
  {
  }

  /** |a b|^2 = |a|^2 |b|^2. */
  lemma AbsSqMul(a: Complex, b: Complex)
    ensures AbsSq(Mul(a, b)) == AbsSq(a) * AbsSq(b)
  {
    var m := Mul(a, b);
    Reals.ProductOfSums(a.re, a.im, b.re, b.im, m.re, m.im, AbsSq(a), AbsSq(b), AbsSq(m));
  }

  lemma MulLeftCommute(x: Complex, c: Complex, y: Complex)
    ensures Mul(x, Mul(c, y)) == Mul(c, Mul(x, y))
  {
  }

  lemma MulAddDistributes(c: Complex, x: Complex, y: Complex)
    ensures Mul(c, Add(x, y)) == Add(Mul(c, x), Mul(c, y))
  {
  }

  /** conj(a) * a is the real number |a|^2. */
  lemma ConjMulSelf(a: Complex)
    ensures Mul(Conj(a), a) == Complex(AbsSq(a), 0.0)
  {
  }

  /** conj(conj(x) * y) = conj(y) * x */
  lemma ConjOfConjMul(x: Complex, y: Complex)
    ensures Conj(Mul(Conj(x), y)) == Mul(Conj(y), x)
  {
  }

  lemma AbsSqConj(a: Complex)
    ensures AbsSq(Conj(a)) == AbsSq(a)
  {
  }

  /** Expansion of |s x - t y|^2 for a real s and complex t, the single step
      of the Cauchy-Schwarz argument used by the fidelity bounds. */
  lemma AbsSqOfDifference(s: real, t: Complex, x: Complex, y: Complex)
    ensures AbsSq(Sub(Scale(s, x), Mul(t, y)))
         == Reals.Expansion(s, AbsSq(t), AbsSq(x), AbsSq(y), Mul(t, Mul(Conj(x), y)).re)
  {
    var w := Sub(Scale(s, x), Mul(t, y));
    var z := Mul(Conj(x), y);
    Reals.DifferenceExpansion(s, x.re, x.im, y.re, y.im, t.re, t.im,
      w.re, w.im, AbsSq(x), AbsSq(y), AbsSq(t), z.re, z.im, Mul(t, z).re);
    assert AbsSq(w) == w.re * w.re + w.im * w.im;
  }

  /** t · conj(t) is the real number |t|^2. */
  lemma MulConjSelf(t: Complex)
    ensures Mul(t, Conj(t)) == Complex(AbsSq(t), 0.0)
  {
  }
}

/** Facts about real numbers stated over plain variables, where the solver's
    polynomial normalisation sees every product directly. */
module Reals {

  lemma SquareNonNegative(x: real)
    ensures x * x >= 0.0
  {
    if x < 0.0 {
      assert x * x == (-x) * (-x);
    }
  }

  lemma SumOfSquaresNonNegative(x: real, y: real)
    ensures x * x + y * y >= 0.0
  {
    SquareNonNegative(x);
    SquareNonNegative(y);
  }

  /** |s x - t y|^2 written out over the real and imaginary parts
      x = a + bi, y = c + di, t = p + qi, with t y = e + fi and s x - t y = u + vi;
      nx, ny, nt, zr, zi and m name the parts the caller sees as separate terms. */
  lemma DifferenceExpansion(s: real, a: real, b: real, c: real, d: real, p: real, q: real,
                            u: real, v: real, nx: real, ny: real, nt: real,
                            zr: real, zi: real, m: real)
    requires u == s * a - (p * c - q * d) && v == s * b - (p * d + q * c)
    requires nx == a * a + b * b && ny == c * c + d * d && nt == p * p + q * q
    requires zr == a * c - -b * d && zi == a * d + -b * c
    requires m == p * zr - q * zi
    ensures u * u + v * v == Expansion(s, nt, nx, ny, m)
  {
    var e, f := p * c - q * d, p * d + q * c;
    var g, h := e * e + f * f, a * e + b * f;
    SquaresOfDifference(s, a, b, e, f, u, v, nx, g, h);
    ProductOfSums(p, q, c, d, e, f, nt, ny, g);
    CrossTerm(a, b, c, d, p, q, e, f, zr, zi, h, m);
  }

  lemma SquaresOfDifference(s: real, a: real, b: real, e: real, f: real, u: real, v: real,
                            nx: real, g: real, h: real)
    requires u == s * a - e && v == s * b - f
    requires nx == a * a + b * b && g == e * e + f * f && h == a * e + b * f
    ensures u * u + v * v == s * s * nx + g - 2.0 * s * h
  {
  }

  /** |t|^2 |y|^2 = |t y|^2 (the two-square identity). */
  lemma ProductOfSums(p: real, q: real, c: real, d: real, e: real, f: real,
                      nt: real, ny: real, g: real)
    requires e == p * c - q * d && f == p * d + q * c
    requires nt == p * p + q * q && ny == c * c + d * d && g == e * e + f * f
    ensures g == nt * ny
  {
  }

  lemma CrossTerm(a: real, b: real, c: real, d: real, p: real, q: real,
                  e: real, f: real, zr: real, zi: real, h: real, m: real)
    requires e == p * c - q * d && f == p * d + q * c
    requires zr == a * c - -b * d && zi == a * d + -b * c
    requires h == a * e + b * f && m == p * zr - q * zi
    ensures h == m
  {
  }

  /** s^2 nx + tt ny - 2 s m, the shape of an expanded |s x - t y|^2 with tt = |t|^2. */
  function Expansion(s: real, tt: real, nx: real, ny: real, m: real): real {
    s * s * nx + tt * ny - 2.0 * s * m
  }

  /** Expansions with the same s and tt add termwise. */
  lemma ExpansionAdds(s: real, tt: real, nx: real, ny: real, m: real, nx': real, ny': real, m': real)
    ensures Expansion(s, tt, nx, ny, m) + Expansion(s, tt, nx', ny', m')
         == Expansion(s, tt, nx + nx', ny + ny', m + m')
  {
  }

  /** x · y, kept behind a function so that the solver treats a product of
      two norms as a single quantity. */
  function Prod(x: real, y: real): real {
    x * y
  }

  lemma MulPositive(a: real, b: real)
    requires a > 0.0 && b > 0.0
    ensures a * b > 0.0
  {
  }

  lemma ProdPositive(a: real, b: real)
    requires a > 0.0 && b > 0.0
    ensures Prod(a, b) > 0.0
  {
    MulPositive(a, b);
  }

  /** From 0 <= na^2 nb + i2 na - 2 na i2 and na > 0 it follows that i2 <= na nb. */
  lemma BoundFromExpansion(na: real, nb: real, i2: real)
    requires na > 0.0 && Expansion(na, i2, nb, na, i2) >= 0.0
    ensures i2 <= Prod(na, nb)
  {
    assert Expansion(na, i2, nb, na, i2) == na * (na * nb - i2);
    if na * nb - i2 < 0.0 {
      MulPositive(na, i2 - na * nb);
    }
  }

  /** x / p, kept behind a function so that the solver compares quotients
      by their arguments. */
  function Ratio(x: real, p: real): real
    requires p != 0.0
  {
    x / p
  }

  /** A ratio of a non-negative number to a larger positive one lies in [0, 1]. */
  lemma RatioInUnitInterval(x: real, p: real)
    requires 0.0 <= x <= p && p > 0.0
    ensures 0.0 <= Ratio(x, p) <= 1.0
  {
    var f := x / p;
    assert f * p == x;
    if f < 0.0 {
      MulPositive(-f, p);
    }
    if f > 1.0 {
      MulPositive(f - 1.0, p);
    }
  }

  lemma RatioOfEquals(x: real, p: real)
    requires x == p && p != 0.0
    ensures Ratio(x, p) == 1.0
  {
  }
}
