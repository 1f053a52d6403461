/** `run_statevector`: the dense state-vector reference simulator. It keeps
    the whole 2^n vector, multiplies it by every embedded unitary and logs
    one record per gate, with the memory reading taken in units of 10^6
    bytes. */
module ReferenceComparison {

  import opened Wrappers
  import opened Complexes
  import opened Matrices
  import opened Arith
  import opened Circuits
  import opened Instrumentation
  import opened Simulator

  /** One record of the state-vector log. `nodes` and `edges` both hold the
      vector's length, and the fidelity column holds a fixed note. */
  datatype SvRecord = SvRecord(
    gate: string,
    runtimeS: real,
    nodes: nat,
    edges: nat,
    ramMB: real,
    peakMB: real,
    fidelity: string)

  const FidelityNote: string := "1.0, as compared with itself"

  /** The reference simulator refuses registers larger than this. */
  const MaxQubits: nat := 8

  /** The memory reading is divided by 10^6, not by 2^20 as on the
      decision-diagram side. */
  const BytesPerMB: real := 1000000.0

  /** A resident set size in bytes, read in megabytes. */
  function Megabytes(rss: nat): (mb: real)
    ensures mb >= 0.0
  {
    rss as real / BytesPerMB
  }

  /** The `ValueError` raised for a register that is too large. */
  datatype SvError = TooManyQubits(numQubits: nat)

  /** The memory readings of a state-vector log, in order. */
  function SvRams(log: seq<SvRecord>): (r: seq<real>)
    ensures |r| == |log|
    ensures forall i :: 0 <= i < |log| ==> r[i] == log[i].ramMB
  {
    seq(|log|, i requires 0 <= i < |log| => log[i].ramMB)
  }

  /** `r` is the record `run_statevector` writes for the unitary operation
      `op` with the given sample, when `peak` is the running peak including
      this reading. */
  predicate RecordFor(r: SvRecord, op: Op, sample: Sample, n: nat, peak: real) {
    && r.gate == op.name
    && r.runtimeS == sample.runtimeS
    && r.nodes == Pow2(n) && r.edges == Pow2(n)
    && r.ramMB == Megabytes(sample.rssBytes)
    && r.peakMB == peak
    && r.fidelity == FidelityNote
  }

  /** Each record of the log is the one `run_statevector` writes for the
      matching unitary operation and sample, carrying the peak of the
      readings up to and including its own. */
  predicate RecordsMatch(log: seq<SvRecord>, ops: seq<Op>, samples: seq<Sample>, n: nat)
    requires |log| == |ops| == |samples|
  {
    forall i :: 0 <= i < |log| ==> RecordFor(log[i], ops[i], samples[i], n, Peak(SvRams(log)[..i + 1]))
  }

  /** The record `run_statevector` writes for a unitary operation, given the
      peak so far. */
  function SvEntry(op: Op, sample: Sample, n: nat, peak: real): (s: SvRecord)
    ensures s.peakMB >= peak && s.peakMB >= s.ramMB
    ensures RecordFor(s, op, sample, n, Max(peak, s.ramMB))
  {
    var ram := Megabytes(sample.rssBytes);
    SvRecord(op.name, sample.runtimeS, Pow2(n), Pow2(n), ram, Max(peak, ram), FidelityNote)
  }

  /** The log and the running peak after the given operations, with one
      sample per operation; non-unitary operations leave both alone. */
  function SvLog(ops: seq<Op>, samples: seq<Sample>, n: nat): (r: (seq<SvRecord>, real))
    requires |ops| == |samples|
    ensures |r.0| == |Unitaries(ops)|
  {
    if |ops| == 0 then ([], 0.0)
    else
      var k := |ops| - 1;
      var (log, peak) := SvLog(ops[..k], samples[..k], n);
      if ops[k].unitary then
        var s := SvEntry(ops[k], samples[k], n, peak);
        (log + [s], s.peakMB)
      else (log, peak)
  }

  /** The log holds exactly the records for the unitary operations and their
      samples, in order, and the running peak is the peak of its readings. */
  lemma {:induction false} SvLogMatches(ops: seq<Op>, samples: seq<Sample>, n: nat)
    requires |ops| == |samples|
    ensures SvLog(ops, samples, n).1 == Peak(SvRams(SvLog(ops, samples, n).0))
    ensures RecordsMatch(SvLog(ops, samples, n).0, Unitaries(ops), UnitarySamples(ops, samples), n)
  {
    if |ops| > 0 {
      var k := |ops| - 1;
      SvLogMatches(ops[..k], samples[..k], n);
      var prev := SvLog(ops[..k], samples[..k], n);
      SvLogUnfold(ops, samples, n);
      var us, ss := Unitaries(ops[..k]), UnitarySamples(ops[..k], samples[..k]);
      if ops[k].unitary {
        var s := SvEntry(ops[k], samples[k], n, prev.1);
        RecordsMatchAppend(prev.0, us, ss, n, ops[k], samples[k], s,
                           SvLog(ops, samples, n).0, Unitaries(ops), UnitarySamples(ops, samples));
      } else {
        assert SvLog(ops, samples, n) == prev;
        assert Unitaries(ops) == us && UnitarySamples(ops, samples) == ss;
      }
    }
  }

  /** One step of `SvLog`, `Unitaries` and `UnitarySamples` at the last
      operation. */
  lemma SvLogUnfold(ops: seq<Op>, samples: seq<Sample>, n: nat)
    requires 0 < |ops| == |samples|
    ensures var k := |ops| - 1;
      var prev := SvLog(ops[..k], samples[..k], n);
      var s := SvEntry(ops[k], samples[k], n, prev.1);
      && SvLog(ops, samples, n) == (if ops[k].unitary then (prev.0 + [s], s.peakMB) else prev)
      && Unitaries(ops) == Unitaries(ops[..k]) + (if ops[k].unitary then [ops[k]] else [])
      && UnitarySamples(ops, samples)
         == UnitarySamples(ops[..k], samples[..k]) + (if ops[k].unitary then [samples[k]] else [])
  {
  }

  /** `run_statevector` on a parsed circuit; `samples` holds, for every
      operation, the runtime and resident set size the environment reports. */
  method RunStatevector(c: Circuit, samples: seq<Sample>) returns (r: Result<(seq<SvRecord>, Vector), SvError>)
    requires |samples| == |c.ops| && WellFormedOps(c.ops, c.numQubits)
    ensures r.Failure? <==> c.numQubits > MaxQubits
    ensures r.Failure? ==> r.error == TooManyQubits(c.numQubits)
    ensures r.Success? ==> r.value.1 == Evolve(c.ops, c.numQubits, BasisZero(Pow2(c.numQubits)))
    ensures r.Success? ==> r.value.0 == SvLog(c.ops, samples, c.numQubits).0
    ensures r.Success? ==> |r.value.0| == |Unitaries(c.ops)|
    ensures r.Success? ==> RecordsMatch(r.value.0, Unitaries(c.ops), UnitarySamples(c.ops, samples), c.numQubits)
  {
    var n := c.numQubits;
    if n > MaxQubits {
      return Failure(TooManyQubits(n));
    }
    var state := BasisZero(Pow2(n));
    var peak := 0.0;
    var stats: seq<SvRecord> := [];
    var i := 0;
    while i < |c.ops|
      invariant 0 <= i <= |c.ops|
      invariant WellFormedOps(c.ops[..i], n)
      invariant state == Evolve(c.ops[..i], n, BasisZero(Pow2(n)))
      invariant (stats, peak) == SvLog(c.ops[..i], samples[..i], n)
    {
      var op := c.ops[i];
      PrefixStep(c.ops, samples, i, n, BasisZero(Pow2(n)));
      if op.unitary {
        var u := FullOperator(op, n);
        state := MatVec(u, state);
        var ram := Megabytes(samples[i].rssBytes);
        peak := Max(peak, ram);
        stats := stats + [SvRecord(op.name, samples[i].runtimeS, Pow2(n), Pow2(n), ram, peak, FidelityNote)];
      }
      i := i + 1;
    }
    assert c.ops[..i] == c.ops && samples[..i] == samples;
    SvLogMatches(c.ops, samples, n);
    return Success((stats, state));
  }

  /** Extending the processed prefix by one operation extends the log and the
      evolution by that operation. */
  lemma PrefixStep(ops: seq<Op>, samples: seq<Sample>, i: nat, n: nat, v: Vector)
    requires i < |ops| == |samples| && WellFormedOps(ops, n) && |v| == Pow2(n)
    ensures WellFormedOps(ops[..i], n) && WellFormedOps(ops[..i + 1], n)
    ensures var (log, peak) := SvLog(ops[..i], samples[..i], n);
      SvLog(ops[..i + 1], samples[..i + 1], n)
        == if ops[i].unitary then
             var s := SvEntry(ops[i], samples[i], n, peak); (log + [s], s.peakMB)
           else (log, peak)
    ensures Evolve(ops[..i + 1], n, v) == Step(ops[i], n, Evolve(ops[..i], n, v))
  {
    assert ops[..i + 1][..i] == ops[..i] && samples[..i + 1][..i] == samples[..i];
  }

  /** Appending the record for one more unitary operation keeps the log
      matching, provided the record carries `max(peak, ram)`. */
  lemma RecordsMatchAppend(log: seq<SvRecord>, ops: seq<Op>, ss: seq<Sample>, n: nat,
                           op: Op, sample: Sample, s: SvRecord,
                           log': seq<SvRecord>, ops': seq<Op>, ss': seq<Sample>)
    requires |log| == |ops| == |ss| && RecordsMatch(log, ops, ss, n)
    requires log' == log + [s] && ops' == ops + [op] && ss' == ss + [sample]
    requires RecordFor(s, op, sample, n, Max(Peak(SvRams(log)), s.ramMB))
    ensures Peak(SvRams(log')) == s.peakMB
    ensures RecordsMatch(log', ops', ss', n)
  {
    var rams, rams' := SvRams(log), SvRams(log');
    assert rams' == rams + [s.ramMB];
    PeakSnoc(rams, s.ramMB);
    forall i | 0 <= i < |log'|
      ensures RecordFor(log'[i], ops'[i], ss'[i], n, Peak(rams'[..i + 1]))
    {
      if i < |log| {
        assert rams'[..i + 1] == rams[..i + 1];
        assert log'[i] == log[i] && ops'[i] == ops[i] && ss'[i] == ss[i];
      } else {
        assert rams'[..i + 1] == rams';
        assert log'[i] == s && ops'[i] == op && ss'[i] == sample;
      }
    }
  }

  /** In a matching log every record's peak is at least its own reading, and
      the peaks never decrease along the log. */
  lemma SvPeaksMonotone(log: seq<SvRecord>, ops: seq<Op>, samples: seq<Sample>, n: nat)
    requires |log| == |ops| == |samples| && RecordsMatch(log, ops, samples, n)
    ensures forall i :: 0 <= i < |log| ==> log[i].peakMB >= log[i].ramMB
    ensures forall i, j :: 0 <= i <= j < |log| ==> log[i].peakMB <= log[j].peakMB
  {
    var rams := SvRams(log);
    forall i | 0 <= i < |log|
      ensures log[i].peakMB >= log[i].ramMB
    {
      assert RecordFor(log[i], ops[i], samples[i], n, Peak(rams[..i + 1]));
      PeakBounds(rams[..i + 1]);
      assert rams[..i + 1][i] == log[i].ramMB;
    }
    forall i, j | 0 <= i <= j < |log|
      ensures log[i].peakMB <= log[j].peakMB
    {
      assert RecordFor(log[i], ops[i], samples[i], n, Peak(rams[..i + 1]));
      assert RecordFor(log[j], ops[j], samples[j], n, Peak(rams[..j + 1]));
      PeakMonotone(rams, i + 1, j + 1);
    }
  }
}
