/** `_fidelity(a, b)`: the squared overlap |<a, b>|^2 / (‖a‖^2 ‖b‖^2)
    of two state vectors, with 0 returned when either vector has zero norm. */
module Fidelities {

  import opened Complexes
  import opened Matrices
  import Reals

  /** numpy's `vdot(a, b)`: the sum of conj(a_i) · b_i. */
  function Inner(a: Vector, b: Vector): Complex
    requires |a| == |b|
  {
    if |a| == 0 then Zero else Add(Mul(Conj(a[0]), b[0]), Inner(a[1..], b[1..]))
  }

  /** ‖a‖^2 = vdot(a, a).real, the sum of the squared moduli. */
  function NormSq(a: Vector): (r: real)
    ensures r >= 0.0
  {
    if |a| == 0 then 0.0 else AbsSq(a[0]) + NormSq(a[1..])
  }

  /** vdot(a, a) is real, and its real part is the norm the code reads. */
  lemma {:induction false} InnerSelf(a: Vector)
    ensures Inner(a, a) == Complex(NormSq(a), 0.0)
  {
    if |a| > 0 {
      InnerSelf(a[1..]);
      ConjMulSelf(a[0]);
    }
  }

  function Fidelity(a: Vector, b: Vector): (f: real)
    requires |a| == |b|
    ensures NormSq(a) == 0.0 || NormSq(b) == 0.0 ==> f == 0.0
    ensures 0.0 <= f <= 1.0
  {
    if NormSq(a) == 0.0 || NormSq(b) == 0.0 then 0.0
    else
      FidelityInUnitInterval(a, b);
      Reals.Ratio(AbsSq(Inner(a, b)), Reals.Prod(NormSq(a), NormSq(b)))
  }

  lemma FidelityInUnitInterval(a: Vector, b: Vector)
    requires |a| == |b| && NormSq(a) != 0.0 && NormSq(b) != 0.0
    ensures Reals.Prod(NormSq(a), NormSq(b)) != 0.0
    ensures 0.0 <= Reals.Ratio(AbsSq(Inner(a, b)), Reals.Prod(NormSq(a), NormSq(b))) <= 1.0
  {
    CauchySchwarz(a, b);
    Reals.ProdPositive(NormSq(a), NormSq(b));
    Reals.RatioInUnitInterval(AbsSq(Inner(a, b)), Reals.Prod(NormSq(a), NormSq(b)));
  }

  /** Swapping the arguments of vdot conjugates the result. */
  lemma {:induction false} InnerSwap(a: Vector, b: Vector)
    requires |a| == |b|
    ensures Inner(b, a) == Conj(Inner(a, b))
  {
    if |a| > 0 {
      InnerSwap(a[1..], b[1..]);
      ConjOfConjMul(a[0], b[0]);
    }
  }

  /** The fidelity does not depend on the order of its arguments. */
  lemma FidelitySymmetric(a: Vector, b: Vector)
    requires |a| == |b|
    ensures Fidelity(a, b) == Fidelity(b, a)
  {
    InnerSwap(a, b);
    AbsSqConj(Inner(a, b));
  }

  /** A vector of non-zero norm has fidelity 1 with itself. */
  lemma FidelitySelf(a: Vector)
    requires NormSq(a) != 0.0
    ensures Fidelity(a, a) == 1.0
  {
    InnerSelf(a);
    assert AbsSq(Inner(a, a)) == Reals.Prod(NormSq(a), NormSq(a));
    FidelityOfMaximalOverlap(a, a);
  }

  /** Equality in the Cauchy-Schwarz bound gives fidelity 1. */
  lemma FidelityOfMaximalOverlap(a: Vector, b: Vector)
    requires |a| == |b| && NormSq(a) != 0.0 && NormSq(b) != 0.0
    requires AbsSq(Inner(a, b)) == Reals.Prod(NormSq(a), NormSq(b))
    ensures Fidelity(a, b) == 1.0
  {
    FidelityInUnitInterval(a, b);
    Reals.RatioOfEquals(AbsSq(Inner(a, b)), Reals.Prod(NormSq(a), NormSq(b)));
  }

  /** Every amplitude of v multiplied by the same complex number c; with
      |c| = 1 this is a global phase. */
  function ScaleVec(c: Complex, v: Vector): (r: Vector)
    ensures |r| == |v|
  {
    seq(|v|, i requires 0 <= i < |v| => Mul(c, v[i]))
  }

  /** vdot is linear in its second argument. */
  lemma {:induction false} InnerScale(a: Vector, b: Vector, c: Complex)
    requires |a| == |b|
    ensures Inner(a, ScaleVec(c, b)) == Mul(c, Inner(a, b))
  {
    if |a| > 0 {
      var cb := ScaleVec(c, b);
      assert cb[1..] == ScaleVec(c, b[1..]);
      assert cb[0] == Mul(c, b[0]);
      InnerScale(a[1..], b[1..], c);
      MulLeftCommute(Conj(a[0]), c, b[0]);
      MulAddDistributes(c, Mul(Conj(a[0]), b[0]), Inner(a[1..], b[1..]));
    }
  }

  /** Scaling by c scales the squared norm by |c|^2. */
  lemma {:induction false} NormScale(b: Vector, c: Complex)
    ensures NormSq(ScaleVec(c, b)) == AbsSq(c) * NormSq(b)
  {
    if |b| > 0 {
      var cb := ScaleVec(c, b);
      assert cb[1..] == ScaleVec(c, b[1..]);
      assert cb[0] == Mul(c, b[0]);
      NormScale(b[1..], c);
      AbsSqMul(c, b[0]);
    }
  }

  /** A global phase on the second vector leaves the fidelity unchanged. */
  lemma FidelityPhaseRight(a: Vector, b: Vector, c: Complex)
    requires |a| == |b| && AbsSq(c) == 1.0
    ensures Fidelity(a, ScaleVec(c, b)) == Fidelity(a, b)
  {
    InnerScale(a, b, c);
    AbsSqMul(c, Inner(a, b));
    NormScale(b, c);
  }

  /** The fidelity is invariant under a global phase on either vector, so a
      package state that differs from the reference only by a phase still
      has fidelity 1 with it. */
  lemma FidelityGlobalPhase(a: Vector, b: Vector, c: Complex)
    requires |a| == |b| && AbsSq(c) == 1.0
    ensures Fidelity(a, ScaleVec(c, b)) == Fidelity(a, b)
    ensures Fidelity(ScaleVec(c, a), b) == Fidelity(a, b)
  {
    FidelityPhaseRight(a, b, c);
    FidelityPhaseRight(b, a, c);
    FidelitySymmetric(ScaleVec(c, a), b);
    FidelitySymmetric(a, b);
  }

  /** The sum over i of |s b_i - t a_i|^2. */
  function Residual(s: real, t: Complex, b: Vector, a: Vector): (r: real)
    requires |a| == |b|
    ensures r >= 0.0
  {
    if |a| == 0 then 0.0
    else AbsSq(Sub(Scale(s, b[0]), Mul(t, a[0]))) + Residual(s, t, b[1..], a[1..])
  }

  /** The residual expands to s^2 ‖b‖^2 + |t|^2 ‖a‖^2 - 2 s Re(t <b, a>). */
  lemma {:induction false} ResidualExpansion(s: real, t: Complex, b: Vector, a: Vector)
    requires |a| == |b|
    ensures Residual(s, t, b, a)
         == Reals.Expansion(s, AbsSq(t), NormSq(b), NormSq(a), Mul(t, Inner(b, a)).re)
  {
    if |a| == 0 {
      assert Residual(s, t, b, a) == 0.0 && NormSq(a) == 0.0 && NormSq(b) == 0.0;
      assert Inner(b, a) == Zero;
    } else {
      ResidualExpansion(s, t, b[1..], a[1..]);
      AbsSqOfDifference(s, t, b[0], a[0]);
      var z0, z := Mul(Conj(b[0]), a[0]), Inner(b[1..], a[1..]);
      MulDistributesRe(t, z0, z);
      Reals.ExpansionAdds(s, AbsSq(t), AbsSq(b[0]), AbsSq(a[0]), Mul(t, z0).re,
        NormSq(b[1..]), NormSq(a[1..]), Mul(t, z).re);
    }
  }

  lemma MulDistributesRe(t: Complex, x: Complex, y: Complex)
    ensures Mul(t, Add(x, y)).re == Mul(t, x).re + Mul(t, y).re
  {
  }

  /** |<a, b>|^2 <= ‖a‖^2 ‖b‖^2, from the residual of b against a with
      s = ‖a‖^2 and t = <a, b>. */
  lemma CauchySchwarz(a: Vector, b: Vector)
    requires |a| == |b| && NormSq(a) != 0.0
    ensures AbsSq(Inner(a, b)) <= Reals.Prod(NormSq(a), NormSq(b))
  {
    var na, nb, i := NormSq(a), NormSq(b), Inner(a, b);
    ResidualExpansion(na, i, b, a);
    InnerSwap(a, b);
    MulConjSelf(i);
    Reals.BoundFromExpansion(na, nb, AbsSq(i));
  }
}
