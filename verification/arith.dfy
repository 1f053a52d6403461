/** Integer facts behind the Kronecker-product index arithmetic and the
    powers of two that size an n-qubit register. */
module Arith {

  function Pow2(n: nat): (r: nat)
    ensures r >= 1
  {
    if n == 0 then 1 else 2 * Pow2(n - 1)
  }

  lemma {:induction false} Pow2Add(a: nat, b: nat)
    ensures Pow2(a + b) == Pow2(a) * Pow2(b)
    decreases a
  {
    if a == 0 {
    } else {
      Pow2Add(a - 1, b);
      calc {
        Pow2(a + b);
        2 * Pow2(a - 1 + b);
        2 * (Pow2(a - 1) * Pow2(b));
        (2 * Pow2(a - 1)) * Pow2(b);
        Pow2(a) * Pow2(b);
      }
    }
  }

  /** Euclidean division is determined by quotient and remainder. */
  lemma DivModUnique(n: int, d: int, x: int, y: int)
    requires d > 0 && 0 <= y < d && n == d * x + y
    ensures n / d == x && n % d == y
  {
    var x', y' := n / d, n % d;
    assert n == d * x' + y';
    if x' < x {
      assert d * x - d * x' == d * (x - x');
      MulAtLeast(d, x - x');
    } else if x' > x {
      assert d * x' - d * x == d * (x' - x);
      MulAtLeast(d, x' - x);
    }
  }

  lemma MulAtLeast(d: int, k: int)
    requires d > 0 && k >= 1
    ensures d * k >= d
  {
    assert d * k == d * (k - 1) + d;
    MulNonNegative(d, k - 1);
  }

  lemma MulNonNegative(a: int, b: int)
    requires a >= 0 && b >= 0
    ensures a * b >= 0
  {
  }

  /** Splitting an index by p and then by q is splitting it by q * p. */
  lemma NestedDivMod(i: nat, p: nat, q: nat)
    requires p > 0 && q > 0
    ensures (i / p) / q == i / (q * p)
    ensures (i / p) % q == (i % (q * p)) / p
    ensures i % p == (i % (q * p)) % p
  {
    var a, b := i / p, i % p;
    var c, e := a / q, a % q;
    assert i == p * a + b;
    assert a == q * c + e;
    assert p * a == p * (q * c) + p * e;
    assert p * (q * c) == (q * p) * c;
    var r := p * e + b;
    assert i == (q * p) * c + r;
    assert p * e <= p * (q - 1) by {
      MulNonNegative(p, q - 1 - e);
      assert p * (q - 1) - p * e == p * (q - 1 - e);
    }
    assert p * (q - 1) == q * p - p;
    DivModUnique(i, q * p, c, r);
    DivModUnique(r, p, e, b);
  }

  /** The row index i of a product with p rows per block is fixed by block and offset. */
  lemma SplitIndex(i: nat, j: nat, p: nat)
    requires p > 0
    ensures i == j <==> (i / p == j / p && i % p == j % p)
  {
    assert i == p * (i / p) + i % p;
    assert j == p * (j / p) + j % p;
  }

  lemma IndexBelowProduct(i: nat, p: nat, q: nat)
    requires p > 0 && i < q * p
    ensures i / p < q
  {
  }
}
