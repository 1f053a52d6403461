/** Per-gate statistics records (`Statistics`, `collect_statistics`) and the
    running memory peak the simulators keep alongside them. */
module Instrumentation {

  import opened Wrappers

  /** One row of the decision-diagram log. */
  datatype Statistics = Statistics(
    nodes: int,
    edges: int,
    gate: string,
    runtimeMs: real,
    ramMB: real,
    peakMB: real,
    fidelity: Option<real>)

  /** The dataclass field defaults. */
  const Defaults: Statistics := Statistics(0, 0, "", 0.0, 0.0, 0.0, None)

  /** Resident memory is reported in units of 2^20 bytes. */
  const BytesPerMiB: real := 1048576.0

  /** `collect_statistics`: `size` is the state's node count, `numEdges` the
      package's `num_edges` attribute when it has one, and `rss` the resident
      set size in bytes when memory introspection is available. */
  function CollectStatistics(size: nat, numEdges: Option<int>, gate: string, runtimeS: real,
                             rss: Option<nat>): (s: Statistics)
    ensures s.nodes == size
    ensures numEdges.Some? ==> s.edges == numEdges.value
    ensures numEdges.None? ==> s.edges == 2 * s.nodes
    ensures s.gate == gate
    ensures s.runtimeMs == runtimeS * 1000.0
    ensures rss.Some? ==> s.ramMB == rss.value as real / BytesPerMiB
    ensures rss.None? ==> s.ramMB == 0.0
    ensures s.ramMB >= 0.0
    ensures s.peakMB == 0.0 && s.fidelity == None
  {
    var ram := if rss.Some? then rss.value as real / BytesPerMiB else 0.0;
    var edges := if numEdges.Some? then numEdges.value else 2 * size;
    Defaults.(nodes := size, edges := edges, gate := gate, runtimeMs := runtimeS * 1000.0, ramMB := ram)
  }

  /** Python's `max(a, b)` on two floats. */
  function Max(a: real, b: real): (m: real)
    ensures m >= a && m >= b
    ensures m == a || m == b
  {
    if a >= b then a else b
  }

  /** The running peak after the memory readings `rams`, starting from 0.0. */
  function Peak(rams: seq<real>): (p: real)
    ensures p >= 0.0
  {
    if |rams| == 0 then 0.0
    else Max(Peak(rams[..|rams| - 1]), rams[|rams| - 1])
  }

  /** The running peak bounds every reading and is either the starting 0.0 or
      one of the readings. */
  lemma {:induction false} PeakBounds(rams: seq<real>)
    ensures forall i :: 0 <= i < |rams| ==> rams[i] <= Peak(rams)
    ensures Peak(rams) == 0.0 || exists i :: 0 <= i < |rams| && rams[i] == Peak(rams)
  {
    if |rams| > 0 {
      var k := |rams| - 1;
      PeakBounds(rams[..k]);
      assert forall i :: 0 <= i < k ==> rams[..k][i] == rams[i];
      if Peak(rams) != rams[k] && Peak(rams) != 0.0 {
        var i :| 0 <= i < k && rams[..k][i] == Peak(rams[..k]);
        assert rams[i] == Peak(rams);
      }
    }
  }

  /** One more reading raises the peak to `max(peak, reading)`. */
  lemma PeakSnoc(rams: seq<real>, x: real)
    ensures Peak(rams + [x]) == Max(Peak(rams), x)
  {
    assert (rams + [x])[..|rams|] == rams;
  }

  /** A later peak is never below an earlier one. */
  lemma {:induction false} PeakMonotone(rams: seq<real>, i: nat, j: nat)
    requires i <= j <= |rams|
    ensures Peak(rams[..i]) <= Peak(rams[..j])
    decreases j - i
  {
    if i < j {
      PeakMonotone(rams, i, j - 1);
      assert rams[..j][..j - 1] == rams[..j - 1];
    }
  }

  /** The memory readings of a log, in order. */
  function RamsOf(log: seq<Statistics>): (r: seq<real>)
    ensures |r| == |log|
    ensures forall i :: 0 <= i < |log| ==> r[i] == log[i].ramMB
  {
    seq(|log|, i requires 0 <= i < |log| => log[i].ramMB)
  }

  /** Every record carries the peak up to and including itself. */
  predicate PeaksTracked(log: seq<Statistics>) {
    forall i :: 0 <= i < |log| ==> log[i].peakMB == Peak(RamsOf(log)[..i + 1])
  }

  /** In a log whose peaks are tracked, each record's peak is at least its own
      reading and the peaks never decrease along the log. */
  lemma TrackedPeaksBound(log: seq<Statistics>)
    requires PeaksTracked(log)
    ensures forall i :: 0 <= i < |log| ==> log[i].peakMB >= log[i].ramMB
    ensures forall i, j :: 0 <= i <= j < |log| ==> log[i].peakMB <= log[j].peakMB
  {
    forall i | 0 <= i < |log|
      ensures log[i].peakMB >= log[i].ramMB
    {
      TrackedPeakCoversRam(log, i);
    }
    forall i, j | 0 <= i <= j < |log|
      ensures log[i].peakMB <= log[j].peakMB
    {
      PeakMonotone(RamsOf(log), i + 1, j + 1);
    }
  }

  lemma TrackedPeakCoversRam(log: seq<Statistics>, i: nat)
    requires PeaksTracked(log) && i < |log|
    ensures log[i].peakMB >= log[i].ramMB
  {
    var prefix := RamsOf(log)[..i + 1];
    assert prefix[i] == log[i].ramMB;
    assert log[i].peakMB == Peak(prefix);
    PeakBounds(prefix);
  }

  /** Appending a record that carries the running peak keeps the peaks tracked. */
  lemma {:induction false} PeaksTrackedAppend(log: seq<Statistics>, s: Statistics)
    requires PeaksTracked(log)
    requires s.peakMB == Max(Peak(RamsOf(log)), s.ramMB)
    ensures PeaksTracked(log + [s])
    ensures Peak(RamsOf(log + [s])) == s.peakMB
  {
    var log' := log + [s];
    var rams, rams' := RamsOf(log), RamsOf(log');
    assert rams' == rams + [s.ramMB];
    PeakSnoc(rams, s.ramMB);
    forall i | 0 <= i < |log'|
      ensures log'[i].peakMB == Peak(rams'[..i + 1])
    {
      if i < |log| {
        assert rams'[..i + 1] == rams[..i + 1];
        assert log'[i] == log[i];
      } else {
        assert rams'[..i + 1] == rams';
      }
    }
  }
}
