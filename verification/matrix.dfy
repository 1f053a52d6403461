/** Dense complex matrices and vectors as nested sequences, with the
    Kronecker product defined by its entry formula
    (A ⊗ B)[i][j] = A[i / p][j / q] · B[i % p][j % q] for B of shape p × q. */
module Matrices {

  import opened Complexes
  import opened Arith

  type Vector = seq<Complex>
  type Matrix = seq<seq<Complex>>

  /** Every row has c entries and there are r rows. */
  predicate HasShape(m: Matrix, r: nat, c: nat) {
    |m| == r && forall i :: 0 <= i < r ==> |m[i]| == c
  }

  /** A non-empty rectangular matrix, the only kind the simulator builds. */
  predicate IsMatrix(m: Matrix) {
    |m| > 0 && |m[0]| > 0 && HasShape(m, |m|, |m[0]|)
  }

  function Cols(m: Matrix): nat
    requires |m| > 0
  {
    |m[0]|
  }

  predicate IsSquare(m: Matrix, d: nat) {
    d > 0 && HasShape(m, d, d)
  }

  /** The d × d identity matrix. */
  function Id(d: nat): (m: Matrix)
    requires d > 0
    ensures IsSquare(m, d) && IsMatrix(m)
  {
    seq(d, i requires 0 <= i < d => seq(d, j requires 0 <= j < d => if i == j then One else Zero))
  }

  /** The entries of the identity: one on the diagonal, zero elsewhere. */
  lemma IdAt(d: nat, r: nat, c: nat)
    requires r < d && c < d
    ensures Id(d)[r][c] == if r == c then One else Zero
  {
  }

  /** The 1 × 1 identity is the matrix [[1]]. */
  lemma IdOne()
    ensures Id(1) == [[One]]
  {
    IdAt(1, 0, 0);
    assert Id(1)[0] == [One];
  }

  function Kron(a: Matrix, b: Matrix): (k: Matrix)
    requires IsMatrix(a) && IsMatrix(b)
    ensures IsMatrix(k)
    ensures |k| == |a| * |b| && Cols(k) == Cols(a) * Cols(b)
  {
    var rows, cols := |a| * |b|, Cols(a) * Cols(b);
    seq(rows, i requires 0 <= i < rows => seq(cols, j requires 0 <= j < cols => Entry(a, b, i, j)))
  }

  /** Entry (i, j) of the Kronecker product of a and b. */
  function Entry(a: Matrix, b: Matrix, i: nat, j: nat): Complex
    requires IsMatrix(a) && IsMatrix(b)
    requires i < |a| * |b| && j < Cols(a) * Cols(b)
  {
    Arith.IndexBelowProduct(i, |b|, |a|);
    Arith.IndexBelowProduct(j, Cols(b), Cols(a));
    Mul(a[i / |b|][j / Cols(b)], b[i % |b|][j % Cols(b)])
  }

  /** The sum of the entrywise products of two equally long vectors. */
  function Dot(r: Vector, v: Vector): Complex
    requires |r| == |v|
  {
    if |r| == 0 then Zero else Add(Mul(r[0], v[0]), Dot(r[1..], v[1..]))
  }

  /** Matrix times column vector, numpy's `M @ v`. */
  function MatVec(m: Matrix, v: Vector): (r: Vector)
    requires IsMatrix(m) && Cols(m) == |v|
    ensures |r| == |m|
    ensures forall i :: 0 <= i < |m| ==> r[i] == Dot(m[i], v)
  {
    seq(|m|, i requires 0 <= i < |m| => Dot(m[i], v))
  }

  /** Two matrices of one shape with the same entries are equal. */
  lemma Extensionality(a: Matrix, b: Matrix, r: nat, c: nat)
    requires HasShape(a, r, c) && HasShape(b, r, c)
    requires forall i, j :: 0 <= i < r && 0 <= j < c ==> a[i][j] == b[i][j]
    ensures a == b
  {
    forall i | 0 <= i < r
      ensures a[i] == b[i]
    {
      assert forall j :: 0 <= j < c ==> a[i][j] == b[i][j];
    }
  }

  lemma KronAssoc(a: Matrix, b: Matrix, c: Matrix)
    requires IsMatrix(a) && IsMatrix(b) && IsMatrix(c)
    ensures Kron(Kron(a, b), c) == Kron(a, Kron(b, c))
  {
    var l, r := Kron(Kron(a, b), c), Kron(a, Kron(b, c));
    var rows, cols := |l|, Cols(l);
    assert |r| == rows && Cols(r) == cols by {
      assert (|a| * |b|) * |c| == |a| * (|b| * |c|);
      assert (Cols(a) * Cols(b)) * Cols(c) == Cols(a) * (Cols(b) * Cols(c));
    }
    forall i, j | 0 <= i < rows && 0 <= j < cols
      ensures l[i][j] == r[i][j]
    {
      KronAssocEntry(a, b, c, i, j);
    }
    Extensionality(l, r, rows, cols);
  }

  lemma KronAssocEntry(a: Matrix, b: Matrix, c: Matrix, i: nat, j: nat)
    requires IsMatrix(a) && IsMatrix(b) && IsMatrix(c)
    requires i < |Kron(Kron(a, b), c)| && j < Cols(Kron(Kron(a, b), c))
    requires i < |Kron(a, Kron(b, c))| && j < Cols(Kron(a, Kron(b, c)))
    ensures Kron(Kron(a, b), c)[i][j] == Kron(a, Kron(b, c))[i][j]
  {
    var ab, bc := Kron(a, b), Kron(b, c);
    var pc, qc, pb, qb := |c|, Cols(c), |b|, Cols(b);
    var i1, j1 := i / pc, j / qc;
    var i2, j2 := i % |bc|, j % Cols(bc);
    KronAt(ab, c, |ab|, Cols(ab), pc, qc, i, j);
    KronAt(a, b, |a|, Cols(a), pb, qb, i1, j1);
    KronAt(a, bc, |a|, Cols(a), |bc|, Cols(bc), i, j);
    KronAt(b, c, pb, qb, pc, qc, i2, j2);
    Arith.NestedDivMod(i, pc, pb);
    Arith.NestedDivMod(j, qc, qb);
    MulAssoc(a[i1 / pb][j1 / qb], b[i1 % pb][j1 % qb], c[i % pc][j % qc]);
  }

  /** Entry (i, j) of a ⊗ b, for a of shape ra × ca and b of shape rb × cb,
      with the bounds of the factor indices. */
  lemma KronAt(a: Matrix, b: Matrix, ra: nat, ca: nat, rb: nat, cb: nat, i: nat, j: nat)
    requires IsMatrix(a) && IsMatrix(b)
    requires |a| == ra && Cols(a) == ca && |b| == rb && Cols(b) == cb
    requires i < ra * rb && j < ca * cb
    ensures 0 <= i / rb < ra && 0 <= j / cb < ca && 0 <= i % rb < rb && 0 <= j % cb < cb
    ensures |Kron(a, b)| == ra * rb && Cols(Kron(a, b)) == ca * cb
    ensures Kron(a, b)[i][j] == Mul(a[i / rb][j / cb], b[i % rb][j % cb])
  {
    Arith.IndexBelowProduct(i, rb, ra);
    Arith.IndexBelowProduct(j, cb, ca);
    assert Kron(a, b)[i][j] == Entry(a, b, i, j);
  }

  /** I_m ⊗ I_n = I_(m n) */
  lemma KronIdentities(m: nat, n: nat)
    requires m > 0 && n > 0
    ensures m * n > 0
    ensures Kron(Id(m), Id(n)) == Id(m * n)
  {
    Arith.MulAtLeast(m, n);
    var k := Kron(Id(m), Id(n));
    forall i, j | 0 <= i < m * n && 0 <= j < m * n
      ensures k[i][j] == Id(m * n)[i][j]
    {
      KronIdentitiesAt(m, n, i, j);
      IdAt(m * n, i, j);
    }
    Extensionality(k, Id(m * n), m * n, m * n);
  }

  lemma KronIdentitiesAt(m: nat, n: nat, i: nat, j: nat)
    requires m > 0 && n > 0 && i < m * n && j < m * n
    ensures Kron(Id(m), Id(n))[i][j] == if i == j then One else Zero
  {
    KronAt(Id(m), Id(n), m, m, n, n, i, j);
    IdAt(m, i / n, j / n);
    IdAt(n, i % n, j % n);
    Arith.SplitIndex(i, j, n);
  }

  /** x ⊗ [[1]] = x */
  lemma KronUnitRight(x: Matrix)
    requires IsMatrix(x)
    ensures Kron(x, Id(1)) == x
  {
    var k := Kron(x, Id(1));
    forall i, j | 0 <= i < |x| && 0 <= j < Cols(x)
      ensures k[i][j] == x[i][j]
    {
      KronAt(x, Id(1), |x|, Cols(x), 1, 1, i, j);
      MulOneRight(x[i][j]);
    }
    Extensionality(k, x, |x|, Cols(x));
  }
}

