/** `DDSimulator`: the decision-diagram simulator loop. The decision-diagram
    package itself is a parameter (`Engine`), so the model covers what the
    loop does around it: skipping non-unitary operations, recording one
    statistics row per gate, keeping the running memory peak, and advancing
    the dense reference vector for registers of at most eight qubits. */
module Simulator {

  import opened Wrappers
  import opened Complexes
  import opened Matrices
  import opened Arith
  import opened Circuits
  import opened Instrumentation
  import opened Fidelities

  /** The package operations the simulator calls, for a type S of package
      states: `zero_state(n)`, `apply_unitary_operation(state, op)`,
      `state.size()`, `state.get_vector()`, and the package's `num_edges`
      attribute as read once the state is produced (None when the package
      has no such attribute). */
  datatype Engine<!S> = Engine(
    zeroState: nat -> S,
    apply: (S, Op) -> S,
    size: S -> nat,
    vector: S -> Vector,
    numEdges: S -> Option<int>)

  /** What the environment reports around one operation: the measured
      runtime in seconds and the resident set size in bytes. */
  datatype Sample = Sample(runtimeS: real, rssBytes: nat)

  /** The simulator's fields: the register size, the current state, the log,
      `peak_ram` and the optional reference vector `ref_vec`. */
  datatype Sim<S> = Sim(n: nat, state: S, log: seq<Statistics>, peakRam: real, refVec: Option<Vector>)

  /** The largest register for which a dense reference vector is kept. */
  const MaxReferenceQubits: nat := 8

  /** `np.vdot` needs both vectors of one length: the package's vectors have
      one entry per basis state. */
  ghost predicate VectorsSized<S(!new)>(engine: Engine<S>, n: nat) {
    forall s: S :: |engine.vector(s)| == Pow2(n)
  }

  predicate ReferenceSized<S(!new)>(sim: Sim<S>) {
    sim.refVec.Some? ==> |sim.refVec.value| == Pow2(sim.n)
  }

  /** The samples taken for the unitary operations, in circuit order. */
  function UnitarySamples(ops: seq<Op>, samples: seq<Sample>): (r: seq<Sample>)
    requires |ops| == |samples|
    ensures |r| == |Unitaries(ops)|
  {
    if |ops| == 0 then []
    else
      var k := |ops| - 1;
      UnitarySamples(ops[..k], samples[..k]) + (if ops[k].unitary then [samples[k]] else [])
  }

  /** The record `_apply_single_op` logs for a unitary `op`, given the sample
      taken around it, the package state `st` it produced and the reference
      vector `ref` after the same operation: the state's size and edge count,
      the gate label, the runtime in milliseconds, the resident memory in
      MiB, and the fidelity between the reference and the package's vector
      exactly when a reference is kept. */
  predicate GateRecord<S(!new)>(engine: Engine<S>, n: nat, r: Statistics, op: Op, sample: Sample, st: S,
                                ref: Option<Vector>)
    requires VectorsSized(engine, n) && (ref.Some? ==> |ref.value| == Pow2(n))
  {
    && r.gate == op.name
    && r.nodes == engine.size(st)
    && r.edges == (if engine.numEdges(st).Some? then engine.numEdges(st).value else 2 * engine.size(st))
    && r.runtimeMs == sample.runtimeS * 1000.0
    && r.ramMB == sample.rssBytes as real / BytesPerMiB
    && r.fidelity == (if ref.Some? then Some(Fidelity(ref.value, engine.vector(st))) else None)
  }

  /** `DDSimulator.__init__`; `numpy` says whether NumPy could be imported. */
  function Init<S(!new)>(engine: Engine<S>, n: nat, numpy: bool): (sim: Sim<S>)
    ensures sim.n == n && sim.state == engine.zeroState(n)
    ensures sim.log == [] && sim.peakRam == 0.0
    ensures sim.refVec.Some? <==> numpy && n <= MaxReferenceQubits
    ensures sim.refVec.Some? ==> sim.refVec.value == BasisZero(Pow2(n))
  {
    var ref := if numpy && n <= MaxReferenceQubits then Some(BasisZero(Pow2(n))) else None;
    Sim(n, engine.zeroState(n), [], 0.0, ref)
  }

  /** `DDSimulator._apply_single_op`. The constructor opens a `psutil`
      process handle unconditionally, so a memory reading is always taken. */
  function ApplySingleOp<S(!new)>(engine: Engine<S>, sim: Sim<S>, op: Op, sample: Sample): (sim': Sim<S>)
    requires WellFormedOp(op, sim.n) && ReferenceSized(sim) && VectorsSized(engine, sim.n)
    ensures !op.unitary ==> sim' == sim
    ensures op.unitary ==> sim'.state == engine.apply(sim.state, op)
    ensures op.unitary ==> |sim'.log| == |sim.log| + 1 && sim'.log[..|sim.log|] == sim.log
    ensures sim'.n == sim.n && sim'.refVec.Some? == sim.refVec.Some? && ReferenceSized(sim')
    ensures op.unitary && sim.refVec.Some? ==> sim'.refVec == Some(Step(op, sim.n, sim.refVec.value))
    ensures op.unitary ==>
      var r := sim'.log[|sim.log|];
      && GateRecord(engine, sim.n, r, op, sample, sim'.state, sim'.refVec)
      && r.peakMB == sim'.peakRam == Max(sim.peakRam, r.ramMB)
  {
    if !op.unitary then sim
    else
      var next := engine.apply(sim.state, op);
      var stats := CollectStatistics(engine.size(next), engine.numEdges(next), op.name, sample.runtimeS,
                                     Some(sample.rssBytes));
      var refVec := if sim.refVec.Some? then Some(Step(op, sim.n, sim.refVec.value)) else None;
      var fidelity := if refVec.Some? then Some(Fidelity(refVec.value, engine.vector(next))) else stats.fidelity;
      var peak := Max(sim.peakRam, stats.ramMB);
      Sim(sim.n, next, sim.log + [stats.(fidelity := fidelity, peakMB := peak)], peak, refVec)
  }

  /** `DDSimulator.run`: every operation in order, with one sample each. */
  function Run<S(!new)>(engine: Engine<S>, sim: Sim<S>, ops: seq<Op>, samples: seq<Sample>): (r: Sim<S>)
    requires |samples| == |ops| && WellFormedOps(ops, sim.n)
    requires ReferenceSized(sim) && VectorsSized(engine, sim.n)
    ensures r.n == sim.n && r.refVec.Some? == sim.refVec.Some? && ReferenceSized(r)
    ensures |r.log| == |sim.log| + |Unitaries(ops)|
    ensures r.log[..|sim.log|] == sim.log
    decreases |ops|
  {
    if |ops| == 0 then sim
    else
      var k := |ops| - 1;
      assert WellFormedOps(ops[..k], sim.n);
      var before := Run(engine, sim, ops[..k], samples[..k]);
      var after := ApplySingleOp(engine, before, ops[k], samples[k]);
      assert after.log[..|sim.log|] == before.log[..|sim.log|];
      after
  }

  /** The decision-diagram state after applying the given operations in order. */
  function ApplyAll<S(!new)>(engine: Engine<S>, ops: seq<Op>, s: S): S {
    if |ops| == 0 then s else engine.apply(ApplyAll(engine, ops[..|ops| - 1], s), ops[|ops| - 1])
  }

  /** Run unfolds into one more ApplySingleOp for the last operation. */
  lemma {:induction false} RunSnoc<S(!new)>(engine: Engine<S>, sim: Sim<S>, ops: seq<Op>, samples: seq<Sample>)
    requires |samples| == |ops| > 0 && WellFormedOps(ops, sim.n)
    requires ReferenceSized(sim) && VectorsSized(engine, sim.n)
    ensures WellFormedOps(ops[..|ops| - 1], sim.n)
    ensures Run(engine, sim, ops, samples)
         == ApplySingleOp(engine, Run(engine, sim, ops[..|ops| - 1], samples[..|ops| - 1]),
                          ops[|ops| - 1], samples[|ops| - 1])
  {
  }

  /** The package state is the zero state advanced by the unitary operations
      only, in circuit order. */
  lemma {:induction false} RunState<S(!new)>(engine: Engine<S>, sim: Sim<S>, ops: seq<Op>, samples: seq<Sample>)
    requires |samples| == |ops| && WellFormedOps(ops, sim.n)
    requires ReferenceSized(sim) && VectorsSized(engine, sim.n)
    ensures Run(engine, sim, ops, samples).state == ApplyAll(engine, Unitaries(ops), sim.state)
    decreases |ops|
  {
    if |ops| > 0 {
      var k := |ops| - 1;
      RunSnoc(engine, sim, ops, samples);
      RunState(engine, sim, ops[..k], samples[..k]);
      var u := Unitaries(ops[..k]);
      if ops[k].unitary {
        assert Unitaries(ops) == u + [ops[k]];
        assert (u + [ops[k]])[..|u|] == u;
      } else {
        assert Unitaries(ops) == u;
      }
    }
  }

  /** The reference vector is the starting vector evolved by the dense
      reference semantics, so with the starting basis state it is what the
      state-vector simulator computes for the same circuit. */
  lemma {:induction false} RunReference<S(!new)>(engine: Engine<S>, sim: Sim<S>, ops: seq<Op>, samples: seq<Sample>)
    requires |samples| == |ops| && WellFormedOps(ops, sim.n)
    requires ReferenceSized(sim) && VectorsSized(engine, sim.n)
    ensures sim.refVec.Some? ==>
      Run(engine, sim, ops, samples).refVec == Some(Evolve(ops, sim.n, sim.refVec.value))
    decreases |ops|
  {
    if |ops| > 0 {
      var k := |ops| - 1;
      RunSnoc(engine, sim, ops, samples);
      RunReference(engine, sim, ops[..k], samples[..k]);
    }
  }

  /** The simulator's bookkeeping: `peak_ram` is the peak of the logged
      readings, every record carries the peak up to itself, and a record has
      a fidelity, in [0, 1], exactly when a reference vector is kept. */
  predicate Consistent<S(!new)>(sim: Sim<S>) {
    && PeaksTracked(sim.log)
    && sim.peakRam == Peak(RamsOf(sim.log))
    && forall i :: 0 <= i < |sim.log| ==>
         && (sim.log[i].fidelity.Some? <==> sim.refVec.Some?)
         && (sim.log[i].fidelity.Some? ==> 0.0 <= sim.log[i].fidelity.value <= 1.0)
  }

  lemma InitConsistent<S(!new)>(engine: Engine<S>, n: nat, numpy: bool)
    ensures Consistent(Init(engine, n, numpy))
  {
  }

  lemma ApplySingleOpConsistent<S(!new)>(engine: Engine<S>, sim: Sim<S>, op: Op, sample: Sample)
    requires WellFormedOp(op, sim.n) && ReferenceSized(sim) && VectorsSized(engine, sim.n)
    requires Consistent(sim)
    ensures Consistent(ApplySingleOp(engine, sim, op, sample))
  {
    if op.unitary {
      var sim' := ApplySingleOp(engine, sim, op, sample);
      var s := sim'.log[|sim.log|];
      assert sim'.log == sim.log + [s];
      PeaksTrackedAppend(sim.log, s);
    }
  }

  /** Running any operations keeps the bookkeeping consistent. */
  lemma {:induction false} RunConsistent<S(!new)>(engine: Engine<S>, sim: Sim<S>, ops: seq<Op>, samples: seq<Sample>)
    requires |samples| == |ops| && WellFormedOps(ops, sim.n)
    requires ReferenceSized(sim) && VectorsSized(engine, sim.n)
    requires Consistent(sim)
    ensures Consistent(Run(engine, sim, ops, samples))
    decreases |ops|
  {
    if |ops| > 0 {
      var k := |ops| - 1;
      RunSnoc(engine, sim, ops, samples);
      RunConsistent(engine, sim, ops[..k], samples[..k]);
      ApplySingleOpConsistent(engine, Run(engine, sim, ops[..k], samples[..k]), ops[k], samples[k]);
    }
  }

  /** Record i of the new log is the one `_apply_single_op` wrote for the
      i-th unitary operation: it describes the package state after the first
      i + 1 unitary operations, carries the i-th unitary operation's sample,
      and, when a reference vector is kept, compares that state with the
      reference evolved by the same i + 1 operations. */
  lemma {:induction false} RunRecords<S(!new)>(engine: Engine<S>, sim: Sim<S>, ops: seq<Op>, samples: seq<Sample>,
                                               i: nat)
    requires |samples| == |ops| && WellFormedOps(ops, sim.n)
    requires ReferenceSized(sim) && VectorsSized(engine, sim.n)
    requires i < |Unitaries(ops)|
    ensures WellFormedOps(Unitaries(ops)[..i + 1], sim.n)
    ensures var us := Unitaries(ops)[..i + 1];
      GateRecord(engine, sim.n, Run(engine, sim, ops, samples).log[|sim.log| + i], us[i],
                 UnitarySamples(ops, samples)[i], ApplyAll(engine, us, sim.state),
                 if sim.refVec.Some? then Some(Evolve(us, sim.n, sim.refVec.value)) else None)
    decreases |ops|
  {
    UnitariesWellFormed(ops, sim.n);
    var k := |ops| - 1;
    RunSnoc(engine, sim, ops, samples);
    var u := Unitaries(ops[..k]);
    var before := Run(engine, sim, ops[..k], samples[..k]);
    var r := Run(engine, sim, ops, samples);
    var tail := if ops[k].unitary then [ops[k]] else [];
    assert Unitaries(ops) == u + tail;
    if i < |u| {
      RunRecords(engine, sim, ops[..k], samples[..k], i);
      assert r.log[..|before.log|] == before.log;
      assert r.log[|sim.log| + i] == before.log[|sim.log| + i];
      assert Unitaries(ops)[..i + 1] == u[..i + 1];
      assert UnitarySamples(ops, samples)[i] == UnitarySamples(ops[..k], samples[..k])[i];
    } else {
      assert ops[k].unitary && i == |u|;
      assert Unitaries(ops)[..i + 1] == Unitaries(ops);
      RunLastRecord(engine, sim, ops, samples);
    }
  }

  /** The record of the last operation, when it is unitary, is the last
      record of the log. */
  lemma RunLastRecord<S(!new)>(engine: Engine<S>, sim: Sim<S>, ops: seq<Op>, samples: seq<Sample>)
    requires |samples| == |ops| > 0 && WellFormedOps(ops, sim.n)
    requires ReferenceSized(sim) && VectorsSized(engine, sim.n)
    requires ops[|ops| - 1].unitary
    ensures WellFormedOps(Unitaries(ops), sim.n)
    ensures var us := Unitaries(ops);
      && |us| > 0
      && GateRecord(engine, sim.n, Run(engine, sim, ops, samples).log[|sim.log| + |us| - 1], us[|us| - 1],
                    UnitarySamples(ops, samples)[|us| - 1], ApplyAll(engine, us, sim.state),
                    if sim.refVec.Some? then Some(Evolve(us, sim.n, sim.refVec.value)) else None)
  {
    UnitariesWellFormed(ops, sim.n);
    var k := |ops| - 1;
    var op := ops[k];
    RunSnoc(engine, sim, ops, samples);
    var u := Unitaries(ops[..k]);
    assert Unitaries(ops) == u + [op];
    assert (u + [op])[..|u|] == u;
    RunState(engine, sim, ops[..k], samples[..k]);
    RunReference(engine, sim, ops[..k], samples[..k]);
    if sim.refVec.Some? {
      EvolveSkipsNonUnitary(ops[..k], sim.n, sim.refVec.value);
      EvolveSnoc(u, op, sim.n, sim.refVec.value);
    }
  }

  /** `run` on a fresh simulator: the log and the final package state. */
  function RunCircuit<S(!new)>(engine: Engine<S>, numpy: bool, c: Circuit, samples: seq<Sample>)
    : (r: (seq<Statistics>, S))
    requires |samples| == |c.ops| && WellFormedOps(c.ops, c.numQubits)
    requires VectorsSized(engine, c.numQubits)
    ensures |r.0| == |Unitaries(c.ops)|
  {
    var sim := Run(engine, Init(engine, c.numQubits, numpy), c.ops, samples);
    (sim.log, sim.state)
  }

  /** What a whole run promises: the final state, the peak bookkeeping, the
      fidelity column, and a reference vector exactly for small registers
      that equals the dense evolution of |0...0>. */
  lemma RunCircuitProperties<S(!new)>(engine: Engine<S>, numpy: bool, c: Circuit, samples: seq<Sample>)
    requires |samples| == |c.ops| && WellFormedOps(c.ops, c.numQubits)
    requires VectorsSized(engine, c.numQubits)
    ensures var n := c.numQubits;
      var sim := Run(engine, Init(engine, n, numpy), c.ops, samples);
      && sim.state == ApplyAll(engine, Unitaries(c.ops), engine.zeroState(n))
      && Consistent(sim)
      && (sim.refVec.Some? <==> numpy && n <= MaxReferenceQubits)
      && (sim.refVec.Some? ==> sim.refVec.value == Evolve(c.ops, n, BasisZero(Pow2(n))))
  {
    var init := Init(engine, c.numQubits, numpy);
    RunState(engine, init, c.ops, samples);
    InitConsistent(engine, c.numQubits, numpy);
    RunConsistent(engine, init, c.ops, samples);
    RunReference(engine, init, c.ops, samples);
  }

  /** On a fresh simulator, record i describes the package state after the
      first i + 1 unitary operations from |0...0>; with NumPy and at most
      eight qubits its fidelity compares that state with |0...0> evolved
      densely by the same operations, and otherwise it has none. */
  lemma RunCircuitRecord<S(!new)>(engine: Engine<S>, numpy: bool, c: Circuit, samples: seq<Sample>, i: nat)
    requires |samples| == |c.ops| && WellFormedOps(c.ops, c.numQubits)
    requires VectorsSized(engine, c.numQubits)
    requires i < |Unitaries(c.ops)|
    ensures WellFormedOps(Unitaries(c.ops)[..i + 1], c.numQubits)
    ensures var n := c.numQubits;
      var us := Unitaries(c.ops)[..i + 1];
      GateRecord(engine, n, RunCircuit(engine, numpy, c, samples).0[i], us[i], UnitarySamples(c.ops, samples)[i],
                 ApplyAll(engine, us, engine.zeroState(n)),
                 if numpy && n <= MaxReferenceQubits then Some(Evolve(us, n, BasisZero(Pow2(n)))) else None)
  {
    RunRecords(engine, Init(engine, c.numQubits, numpy), c.ops, samples, i);
  }
}
