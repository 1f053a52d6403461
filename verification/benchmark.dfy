/** `benchmark_circuits`: for every circuit, the total runtime of the
    decision-diagram run and, when the reference run succeeds, of the
    state-vector run. A failed reference run drops only its own row. */
module Benchmarking {

  import opened Wrappers
  import opened Arith
  import opened Circuits
  import opened Instrumentation
  import opened Simulator
  import opened ReferenceComparison

  datatype BenchRow = BenchRow(circuit: string, impl: string, runtimeMs: real)

  const DecisionDiagramImpl: string := "DD"
  const StateVectorImpl: string := "StateVector"

  /** What the two runs of one circuit produced: the circuit's file stem,
      the decision-diagram log, and the state-vector log unless
      `run_statevector` raised. */
  datatype Outcome = Outcome(stem: string, ddLog: seq<Statistics>, svLog: Option<seq<SvRecord>>)

  /** `sum(s.runtime_ms for s in stats_dd)`, added from the left. */
  function DdTotal(log: seq<Statistics>): real {
    if |log| == 0 then 0.0 else DdTotal(log[..|log| - 1]) + log[|log| - 1].runtimeMs
  }

  /** `sum(d["runtime_s"] * 1000.0 for d in stats_sv)`, added from the left. */
  function SvTotal(log: seq<SvRecord>): real {
    if |log| == 0 then 0.0 else SvTotal(log[..|log| - 1]) + log[|log| - 1].runtimeS * 1000.0
  }

  /** The total of the logged seconds. */
  function SecondsTotal(log: seq<SvRecord>): real {
    if |log| == 0 then 0.0 else SecondsTotal(log[..|log| - 1]) + log[|log| - 1].runtimeS
  }

  /** Converting each record to milliseconds before summing gives the total
      seconds in milliseconds. */
  lemma {:induction false} SvTotalInSeconds(log: seq<SvRecord>)
    ensures SvTotal(log) == SecondsTotal(log) * 1000.0
  {
    if |log| > 0 {
      SvTotalInSeconds(log[..|log| - 1]);
    }
  }

  /** The decision-diagram total of a concatenated log is the sum of the
      totals of its parts. */
  lemma {:induction false} DdTotalAppend(a: seq<Statistics>, b: seq<Statistics>)
    ensures DdTotal(a + b) == DdTotal(a) + DdTotal(b)
    decreases |b|
  {
    if |b| == 0 {
      assert a + b == a;
    } else {
      var b' := b[..|b| - 1];
      assert (a + b)[..|a + b| - 1] == a + b' && (a + b)[|a + b| - 1] == b[|b| - 1];
      DdTotalAppend(a, b');
    }
  }

  function DdSummaryRow(o: Outcome): BenchRow {
    BenchRow(o.stem, DecisionDiagramImpl, DdTotal(o.ddLog))
  }

  function SvSummaryRow(o: Outcome): BenchRow
    requires o.svLog.Some?
  {
    BenchRow(o.stem, StateVectorImpl, SvTotal(o.svLog.value))
  }

  /** The rows one circuit contributes. */
  function Block(o: Outcome): (r: seq<BenchRow>)
    ensures 1 <= |r| <= 2 && r[0] == DdSummaryRow(o)
    ensures |r| == 2 <==> o.svLog.Some?
  {
    [DdSummaryRow(o)] + if o.svLog.Some? then [SvSummaryRow(o)] else []
  }

  /** The records `benchmark_circuits` collects, in circuit order. */
  function Benchmark(outcomes: seq<Outcome>): (r: seq<BenchRow>)
    ensures |outcomes| <= |r| <= 2 * |outcomes|
  {
    if |outcomes| == 0 then []
    else Benchmark(outcomes[..|outcomes| - 1]) + Block(outcomes[|outcomes| - 1])
  }

  /** The number of circuits whose reference run succeeded. */
  function Successes(outcomes: seq<Outcome>): (c: nat)
    ensures c <= |outcomes|
  {
    if |outcomes| == 0 then 0
    else Successes(outcomes[..|outcomes| - 1]) + if outcomes[|outcomes| - 1].svLog.Some? then 1 else 0
  }

  /** One row per circuit plus one per successful reference run. */
  lemma {:induction false} BenchmarkLength(outcomes: seq<Outcome>)
    ensures |Benchmark(outcomes)| == |outcomes| + Successes(outcomes)
  {
    if |outcomes| > 0 {
      BenchmarkLength(outcomes[..|outcomes| - 1]);
    }
  }

  /** The circuits are processed independently, one after the other. */
  lemma {:induction false} BenchmarkAppend(a: seq<Outcome>, b: seq<Outcome>)
    ensures Benchmark(a + b) == Benchmark(a) + Benchmark(b)
    decreases |b|
  {
    if |b| == 0 {
      assert a + b == a;
    } else {
      var b' := b[..|b| - 1];
      assert (a + b)[..|a + b| - 1] == a + b' && (a + b)[|a + b| - 1] == b[|b| - 1];
      BenchmarkAppend(a, b');
      assert Benchmark(a + b) == Benchmark(a + b') + Block(b[|b| - 1]);
    }
  }

  /** The rows of circuit i sit right after those of the circuits before it
      and before those after it: its decision-diagram row, then its
      state-vector row if and only if its reference run succeeded. */
  lemma {:induction false} BenchmarkBlocks(outcomes: seq<Outcome>, i: nat)
    requires i < |outcomes|
    ensures Benchmark(outcomes)
         == Benchmark(outcomes[..i]) + Block(outcomes[i]) + Benchmark(outcomes[i + 1..])
  {
    var pre, mid, post := outcomes[..i], [outcomes[i]], outcomes[i + 1..];
    assert outcomes == (pre + mid) + post;
    BenchmarkAppend(pre + mid, post);
    BenchmarkAppend(pre, mid);
    BenchmarkSingle(outcomes[i]);
  }

  /** A single circuit contributes exactly its block. */
  lemma BenchmarkSingle(o: Outcome)
    ensures Benchmark([o]) == Block(o)
  {
    assert [o][..0] == [];
  }

  /** A failing reference run removes exactly that circuit's state-vector
      row: every other row is kept, in the same order. */
  lemma {:induction false} FailureSkipsOnlyItsRow(outcomes: seq<Outcome>, i: nat)
    requires i < |outcomes| && outcomes[i].svLog.Some?
    ensures var off := |Benchmark(outcomes[..i])|;
      var rows := Benchmark(outcomes);
      var failed := outcomes[i := outcomes[i].(svLog := None)];
      && off + 1 < |rows|
      && rows[off] == DdSummaryRow(outcomes[i])
      && rows[off + 1] == SvSummaryRow(outcomes[i])
      && Benchmark(failed) == rows[..off + 1] + rows[off + 2..]
  {
    var o := outcomes[i];
    var failed := outcomes[i := o.(svLog := None)];
    BenchmarkBlocks(outcomes, i);
    BenchmarkBlocks(failed, i);
    assert failed[..i] == outcomes[..i] && failed[i + 1..] == outcomes[i + 1..];
    assert Block(o) == [DdSummaryRow(o), SvSummaryRow(o)];
    assert Block(failed[i]) == [DdSummaryRow(o)];
    DropSecond(Benchmark(outcomes[..i]), DdSummaryRow(o), SvSummaryRow(o), Benchmark(outcomes[i + 1..]));
  }

  /** Dropping the element right after position |before|. */
  lemma DropSecond<T>(before: seq<T>, d: T, v: T, after: seq<T>)
    ensures var rows := before + [d, v] + after;
      && |before| + 1 < |rows|
      && rows[|before|] == d && rows[|before| + 1] == v
      && before + [d] + after == rows[..|before| + 1] + rows[|before| + 2..]
  {
    var rows := before + [d, v] + after;
    assert rows[..|before| + 1] == before + [d];
    assert rows[|before| + 2..] == after;
  }

  /** The rows of one implementation, in order. */
  function RowsOf(rows: seq<BenchRow>, impl: string): (r: seq<BenchRow>)
    ensures |r| <= |rows|
  {
    if |rows| == 0 then []
    else RowsOf(rows[..|rows| - 1], impl) + if rows[|rows| - 1].impl == impl then [rows[|rows| - 1]] else []
  }

  lemma {:induction false} RowsOfAppend(a: seq<BenchRow>, b: seq<BenchRow>, impl: string)
    ensures RowsOf(a + b, impl) == RowsOf(a, impl) + RowsOf(b, impl)
    decreases |b|
  {
    if |b| == 0 {
      assert a + b == a;
    } else {
      var b' := b[..|b| - 1];
      var x := b[|b| - 1];
      assert (a + b)[..|a + b| - 1] == a + b' && (a + b)[|a + b| - 1] == x;
      RowsOfAppend(a, b', impl);
      assert RowsOf(a + b, impl) == RowsOf(a + b', impl) + if x.impl == impl then [x] else [];
    }
  }

  /** A circuit's block holds its decision-diagram row and, after a
      successful reference run, its state-vector row. */
  lemma BlockRows(o: Outcome)
    ensures RowsOf(Block(o), DecisionDiagramImpl) == [DdSummaryRow(o)]
    ensures RowsOf(Block(o), StateVectorImpl) == if o.svLog.Some? then [SvSummaryRow(o)] else []
  {
    ImplsDistinct();
    var d := DdSummaryRow(o);
    assert [d][..0] == [];
    assert RowsOf([d], DecisionDiagramImpl) == [d];
    assert RowsOf([d], StateVectorImpl) == [];
    if o.svLog.Some? {
      var b := [d, SvSummaryRow(o)];
      assert b == Block(o) && b[..1] == [d];
    } else {
      assert Block(o) == [d];
    }
  }

  lemma ImplsDistinct()
    ensures DecisionDiagramImpl != StateVectorImpl
  {
    assert DecisionDiagramImpl[0] != StateVectorImpl[0];
  }

  /** Exactly one decision-diagram row per circuit, in circuit order, with
      the circuit's total runtime. */
  lemma {:induction false} BenchmarkDecisionDiagramRows(outcomes: seq<Outcome>)
    ensures RowsOf(Benchmark(outcomes), DecisionDiagramImpl) == DdRowsOf(outcomes)
  {
    if |outcomes| > 0 {
      var k := |outcomes| - 1;
      BenchmarkDecisionDiagramRows(outcomes[..k]);
      RowsOfAppend(Benchmark(outcomes[..k]), Block(outcomes[k]), DecisionDiagramImpl);
      BlockRows(outcomes[k]);
    }
  }

  /** One decision-diagram row per circuit, in circuit order. */
  function DdRowsOf(outcomes: seq<Outcome>): (r: seq<BenchRow>)
    ensures |r| == |outcomes|
  {
    if |outcomes| == 0 then []
    else DdRowsOf(outcomes[..|outcomes| - 1]) + [DdSummaryRow(outcomes[|outcomes| - 1])]
  }

  /** Row i of DdRowsOf belongs to circuit i. */
  lemma {:induction false} DdRowsOfAt(outcomes: seq<Outcome>)
    ensures forall i :: 0 <= i < |outcomes| ==> DdRowsOf(outcomes)[i] == DdSummaryRow(outcomes[i])
  {
    if |outcomes| > 0 {
      var k := |outcomes| - 1;
      DdRowsOfAt(outcomes[..k]);
    }
  }

  /** The state-vector rows of the circuits whose reference run succeeded. */
  function SvRowsOf(outcomes: seq<Outcome>): (r: seq<BenchRow>)
    ensures |r| == Successes(outcomes)
  {
    if |outcomes| == 0 then []
    else
      var o := outcomes[|outcomes| - 1];
      SvRowsOf(outcomes[..|outcomes| - 1]) + if o.svLog.Some? then [SvSummaryRow(o)] else []
  }

  /** The state-vector rows are those of the successful reference runs, in
      circuit order. */
  lemma {:induction false} BenchmarkStateVectorRows(outcomes: seq<Outcome>)
    ensures RowsOf(Benchmark(outcomes), StateVectorImpl) == SvRowsOf(outcomes)
  {
    if |outcomes| > 0 {
      var k := |outcomes| - 1;
      BenchmarkStateVectorRows(outcomes[..k]);
      RowsOfAppend(Benchmark(outcomes[..k]), Block(outcomes[k]), StateVectorImpl);
      BlockRows(outcomes[k]);
    }
  }

  /** One circuit to benchmark: its stem, the parsed circuit, and the
      samples each simulator observes. */
  datatype Job = Job(stem: string, circuit: Circuit, ddSamples: seq<Sample>, svSamples: seq<Sample>)

  /** The decision-diagram package built for an n-qubit circuit. */
  ghost predicate Ready<S(!new)>(engineFor: nat -> Engine<S>, job: Job) {
    var n := job.circuit.numQubits;
    && |job.ddSamples| == |job.circuit.ops| && |job.svSamples| == |job.circuit.ops|
    && WellFormedOps(job.circuit.ops, n)
    && VectorsSized(engineFor(n), n)
  }

  /** The outcome the two simulators produce for a job: the reference run
      fails exactly on registers above its qubit budget. */
  function OutcomeOf<S(!new)>(engineFor: nat -> Engine<S>, numpy: bool, job: Job): (o: Outcome)
    requires Ready(engineFor, job)
    ensures o.svLog.Some? <==> job.circuit.numQubits <= MaxQubits
  {
    var c := job.circuit;
    var ddLog := RunCircuit(engineFor(c.numQubits), numpy, c, job.ddSamples).0;
    var svLog := if c.numQubits <= MaxQubits then Some(SvLog(c.ops, job.svSamples, c.numQubits).0) else None;
    Outcome(job.stem, ddLog, svLog)
  }

  function Outcomes<S(!new)>(engineFor: nat -> Engine<S>, numpy: bool, jobs: seq<Job>): (r: seq<Outcome>)
    requires forall i :: 0 <= i < |jobs| ==> Ready(engineFor, jobs[i])
    ensures |r| == |jobs|
    ensures forall i :: 0 <= i < |jobs| ==> r[i] == OutcomeOf(engineFor, numpy, jobs[i])
  {
    seq(|jobs|, i requires 0 <= i < |jobs| && Ready(engineFor, jobs[i]) => OutcomeOf(engineFor, numpy, jobs[i]))
  }

  /** The loop body for one circuit: the decision-diagram row, then the
      state-vector row unless `run_statevector` raised. */
  method RunJob<S(!new)>(engineFor: nat -> Engine<S>, numpy: bool, job: Job) returns (block: seq<BenchRow>)
    requires Ready(engineFor, job)
    ensures block == Block(OutcomeOf(engineFor, numpy, job))
  {
    var c := job.circuit;
    var ddLog := RunCircuit(engineFor(c.numQubits), numpy, c, job.ddSamples).0;
    block := [BenchRow(job.stem, DecisionDiagramImpl, DdTotal(ddLog))];
    var sv := RunStatevector(c, job.svSamples);
    if sv.Success? {
      block := block + [BenchRow(job.stem, StateVectorImpl, SvTotal(sv.value.0))];
    }
  }

  lemma BenchmarkStep<S(!new)>(engineFor: nat -> Engine<S>, numpy: bool, jobs: seq<Job>, i: nat)
    requires i < |jobs| && forall j :: 0 <= j < |jobs| ==> Ready(engineFor, jobs[j])
    ensures Benchmark(Outcomes(engineFor, numpy, jobs[..i + 1]))
         == Benchmark(Outcomes(engineFor, numpy, jobs[..i])) + Block(OutcomeOf(engineFor, numpy, jobs[i]))
  {
    var done, o := Outcomes(engineFor, numpy, jobs[..i]), OutcomeOf(engineFor, numpy, jobs[i]);
    assert Outcomes(engineFor, numpy, jobs[..i + 1]) == done + [o];
    BenchmarkAppend(done, [o]);
    assert [o][..0] == [];
  }

  /** `benchmark_circuits`, running both simulators on every job in turn. */
  method BenchmarkCircuits<S(!new)>(engineFor: nat -> Engine<S>, numpy: bool, jobs: seq<Job>)
    returns (rows: seq<BenchRow>)
    requires forall i :: 0 <= i < |jobs| ==> Ready(engineFor, jobs[i])
    ensures rows == Benchmark(Outcomes(engineFor, numpy, jobs))
    ensures |jobs| <= |rows| <= 2 * |jobs|
  {
    rows := [];
    var i := 0;
    while i < |jobs|
      invariant 0 <= i <= |jobs|
      invariant rows == Benchmark(Outcomes(engineFor, numpy, jobs[..i]))
    {
      var block := RunJob(engineFor, numpy, jobs[i]);
      BenchmarkStep(engineFor, numpy, jobs, i);
      rows := rows + block;
      i := i + 1;
    }
    assert jobs[..i] == jobs;
  }
}
