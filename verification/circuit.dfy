/** Circuits as the simulators see them, and the dense reference evolution
    both of them compute: every unitary operation, embedded into the full
    register, multiplies the state vector. */
module Circuits {

  import opened Complexes
  import opened Matrices
  import opened Arith
  import opened Sorting
  import opened Embedding

  /** One operation of a circuit. `name` is `str(op)`, `unitary` is
      `op.is_unitary()` and `gate` the dense matrix the decision-diagram
      package produces for it. */
  datatype Op = Op(name: string, targets: seq<nat>, unitary: bool, gate: Matrix)

  datatype Circuit = Circuit(numQubits: nat, ops: seq<Op>)

  /** A unitary operation's matrix is 2^k × 2^k for its k targets, which are
      distinct qubits of the register. */
  predicate WellFormedOp(op: Op, n: nat) {
    op.unitary ==>
      IsSquare(op.gate, Pow2(|op.targets|)) && Distinct(op.targets) &&
      forall i :: 0 <= i < |op.targets| ==> op.targets[i] < n
  }

  predicate WellFormedOps(ops: seq<Op>, n: nat) {
    forall i :: 0 <= i < |ops| ==> WellFormedOp(ops[i], n)
  }

  /** The computational basis state |0...0> of dimension d. */
  function BasisZero(d: nat): (v: Vector)
    requires d > 0
    ensures |v| == d && v[0] == One
    ensures forall i :: 1 <= i < d ==> v[i] == Zero
  {
    seq(d, i requires 0 <= i < d => if i == 0 then One else Zero)
  }

  /** The operator an operation applies to the whole n-qubit register. */
  function FullOperator(op: Op, n: nat): (u: Matrix)
    requires op.unitary && WellFormedOp(op, n)
    ensures IsSquare(u, Pow2(n)) && IsMatrix(u)
  {
    EmbedGateSquare(op.gate, op.targets, n);
    EmbedGate(op.gate, op.targets, n)
  }

  /** `U_full @ v` for one operation; a non-unitary operation is skipped. */
  function Step(op: Op, n: nat, v: Vector): (r: Vector)
    requires WellFormedOp(op, n) && |v| == Pow2(n)
    ensures |r| == Pow2(n)
    ensures !op.unitary ==> r == v
  {
    if op.unitary then MatVec(FullOperator(op, n), v) else v
  }

  /** The state after all operations of `ops`, applied in order to v. */
  function Evolve(ops: seq<Op>, n: nat, v: Vector): (r: Vector)
    requires WellFormedOps(ops, n) && |v| == Pow2(n)
    ensures |r| == Pow2(n)
  {
    if |ops| == 0 then v
    else Step(ops[|ops| - 1], n, Evolve(ops[..|ops| - 1], n, v))
  }

  /** The operations that are unitary, in circuit order. */
  function Unitaries(ops: seq<Op>): (r: seq<Op>)
    ensures |r| <= |ops|
    ensures forall i :: 0 <= i < |r| ==> r[i].unitary
    ensures forall x :: x in r ==> x in ops
    ensures forall x :: x in ops && x.unitary ==> x in r
  {
    if |ops| == 0 then []
    else Unitaries(ops[..|ops| - 1]) + (if ops[|ops| - 1].unitary then [ops[|ops| - 1]] else [])
  }

  /** Filtering keeps circuit order: the unitary operations of a + b are
      those of a followed by those of b. */
  lemma {:induction false} UnitariesAppend(a: seq<Op>, b: seq<Op>)
    ensures Unitaries(a + b) == Unitaries(a) + Unitaries(b)
    decreases |b|
  {
    if |b| == 0 {
      assert a + b == a;
    } else {
      var k := |b| - 1;
      assert (a + b)[..|a + b| - 1] == a + b[..k];
      assert (a + b)[|a + b| - 1] == b[k];
      UnitariesAppend(a, b[..k]);
    }
  }

  lemma UnitariesWellFormed(ops: seq<Op>, n: nat)
    requires WellFormedOps(ops, n)
    ensures WellFormedOps(Unitaries(ops), n)
  {
    var r := Unitaries(ops);
    forall i | 0 <= i < |r|
      ensures WellFormedOp(r[i], n)
    {
      assert r[i] in ops;
    }
  }

  /** Non-unitary operations do not contribute to the evolution: evolving by
      the unitary operations alone gives the same state. */
  lemma {:induction false} EvolveSkipsNonUnitary(ops: seq<Op>, n: nat, v: Vector)
    requires WellFormedOps(ops, n) && |v| == Pow2(n)
    ensures WellFormedOps(Unitaries(ops), n)
    ensures Evolve(Unitaries(ops), n, v) == Evolve(ops, n, v)
  {
    UnitariesWellFormed(ops, n);
    if |ops| > 0 {
      var init, last := ops[..|ops| - 1], ops[|ops| - 1];
      assert WellFormedOps(init, n);
      EvolveSkipsNonUnitary(init, n, v);
      var u := Unitaries(init);
      assert Evolve(ops, n, v) == Step(last, n, Evolve(init, n, v));
      if last.unitary {
        assert Unitaries(ops) == u + [last];
        EvolveSnoc(u, last, n, v);
      } else {
        assert Unitaries(ops) == u;
      }
    }
  }

  /** Evolving by one more operation is one more step. */
  lemma EvolveSnoc(ops: seq<Op>, op: Op, n: nat, v: Vector)
    requires WellFormedOps(ops, n) && WellFormedOp(op, n) && |v| == Pow2(n)
    ensures WellFormedOps(ops + [op], n)
    ensures Evolve(ops + [op], n, v) == Step(op, n, Evolve(ops, n, v))
  {
    var ops' := ops + [op];
    assert ops'[..|ops'| - 1] == ops;
    assert ops'[|ops'| - 1] == op;
  }
}
