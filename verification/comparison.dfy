/** `compare_logs`: the two simulators' per-gate logs merged into one table.
    A data frame is a sequence of rows, a row maps column names to cells, and
    a column a row lacks reads as missing (NaN). */
module Comparison {

  import opened Wrappers
  import opened Instrumentation
  import opened ReferenceComparison

  datatype Cell = Int(i: int) | Num(x: real) | Text(s: string) | Null

  type Row = map<string, Cell>

  const ImplColumn: string := "impl"
  const IndexColumn: string := "gate_idx"
  const SecondsColumn: string := "runtime_s"
  const MillisColumn: string := "runtime_ms"
  const DecisionDiagramTag: string := "DecisionDiagram"
  const StateVectorTag: string := "StateVector"

  /** Multiplying a text column by 1000.0 raises a `TypeError`. */
  datatype CompareError = NonNumericSeconds

  /** The `__dict__` of a decision-diagram record. */
  function StatsRow(s: Statistics): (r: Row)
    ensures MillisColumn in r && r[MillisColumn] == Num(s.runtimeMs) && SecondsColumn !in r
  {
    map["nodes" := Int(s.nodes), "edges" := Int(s.edges), "gate" := Text(s.gate),
        "runtime_ms" := Num(s.runtimeMs), "ram_MB" := Num(s.ramMB), "peak_MB" := Num(s.peakMB),
        "fidelity" := if s.fidelity.Some? then Num(s.fidelity.value) else Null]
  }

  /** The dictionary `run_statevector` writes for a record. */
  function SvRow(s: SvRecord): (r: Row)
    ensures SecondsColumn in r && r[SecondsColumn] == Num(s.runtimeS) && MillisColumn !in r
  {
    map["gate" := Text(s.gate), "runtime_s" := Num(s.runtimeS), "nodes" := Int(s.nodes),
        "edges" := Int(s.edges), "ram_MB" := Num(s.ramMB), "peak_MB" := Num(s.peakMB),
        "fidelity" := Text(s.fidelity)]
  }

  /** a and b hold the same columns with the same values, apart from the
      columns in `except`. */
  ghost predicate AgreeExcept(a: Row, b: Row, except: set<string>) {
    forall k :: k !in except ==> (k in a <==> k in b) && (k in a ==> a[k] == b[k])
  }

  /** Some row of the frame has the column. */
  predicate HasColumn(rows: seq<Row>, column: string) {
    exists i :: 0 <= i < |rows| && column in rows[i]
  }

  /** No row holds text in the seconds column. */
  predicate NumericSeconds(rows: seq<Row>) {
    forall i :: 0 <= i < |rows| && SecondsColumn in rows[i] ==> !rows[i][SecondsColumn].Text?
  }

  /** The numeric value of a number cell. */
  function Value(c: Cell): real
    requires c.Int? || c.Num?
  {
    if c.Int? then c.i as real else c.x
  }

  /** A cell times 1000.0; a missing value stays missing. */
  function Milliseconds(c: Cell): (r: Cell)
    requires !c.Text?
    ensures r.Null? <==> c.Null?
    ensures !c.Null? ==> r.Num? && r.x / 1000.0 == Value(c)
  {
    match c
    case Int(i) => Num(i as real * 1000.0)
    case Num(x) => Num(x * 1000.0)
    case Null => Null
  }

  /** One state-vector row with `runtime_ms` filled from `runtime_s` and
      `runtime_s` dropped. */
  function ToMillis(row: Row): (r: Row)
    requires SecondsColumn in row ==> !row[SecondsColumn].Text?
    ensures SecondsColumn !in r && MillisColumn in r
    ensures SecondsColumn in row ==> r[MillisColumn] == Milliseconds(row[SecondsColumn])
    ensures SecondsColumn !in row ==> r[MillisColumn] == Null
    ensures AgreeExcept(r, row, {SecondsColumn, MillisColumn})
  {
    var ms := if SecondsColumn in row then Milliseconds(row[SecondsColumn]) else Null;
    (row - {SecondsColumn})[MillisColumn := ms]
  }

  /** Every row tagged with its implementation and its position in its own log. */
  function Tag(rows: seq<Row>, impl: string): (r: seq<Row>)
    ensures |r| == |rows|
    ensures forall i :: 0 <= i < |rows| ==>
      && ImplColumn in r[i] && r[i][ImplColumn] == Text(impl)
      && IndexColumn in r[i] && r[i][IndexColumn] == Int(i)
      && AgreeExcept(r[i], rows[i], {ImplColumn, IndexColumn})
  {
    seq(|rows|, i requires 0 <= i < |rows| => rows[i][ImplColumn := Text(impl)][IndexColumn := Int(i)])
  }

  /** `compare_logs(log_dd, log_sv)`. */
  function CompareLogs(dd: seq<Row>, sv: seq<Row>): (r: Result<seq<Row>, CompareError>)
    ensures r.Failure? <==> !NumericSeconds(sv)
    ensures r.Success? ==> |r.value| == |dd| + |sv|
  {
    if !NumericSeconds(sv) then Failure(NonNumericSeconds)
    else
      var converted :=
        if HasColumn(sv, SecondsColumn) then seq(|sv|, i requires 0 <= i < |sv| => ToMillis(sv[i]))
        else sv;
      Success(Tag(dd, DecisionDiagramTag) + Tag(converted, StateVectorTag))
  }

  /** The first |dd| rows are the decision-diagram rows in order, tagged and
      indexed and otherwise untouched. */
  lemma CompareLogsDecisionDiagramRows(dd: seq<Row>, sv: seq<Row>)
    requires NumericSeconds(sv)
    ensures var r := CompareLogs(dd, sv).value;
      forall i :: 0 <= i < |dd| ==>
        && ImplColumn in r[i] && r[i][ImplColumn] == Text(DecisionDiagramTag)
        && IndexColumn in r[i] && r[i][IndexColumn] == Int(i)
        && AgreeExcept(r[i], dd[i], {ImplColumn, IndexColumn})
  {
  }

  /** The remaining rows are the state-vector rows in order, tagged and
      indexed from 0; when the log has a `runtime_s` column, every row has it
      replaced by `runtime_ms`, and nothing else changes. */
  lemma CompareLogsStateVectorRows(dd: seq<Row>, sv: seq<Row>)
    requires NumericSeconds(sv)
    ensures var rest := CompareLogs(dd, sv).value[|dd|..];
      |rest| == |sv| && forall j :: 0 <= j < |sv| ==> StateVectorRow(rest[j], sv, j)
  {
    var r := CompareLogs(dd, sv).value;
    var converted :=
      if HasColumn(sv, SecondsColumn) then seq(|sv|, i requires 0 <= i < |sv| => ToMillis(sv[i]))
      else sv;
    var tagged := Tag(converted, StateVectorTag);
    assert r == Tag(dd, DecisionDiagramTag) + tagged;
    assert r[|dd|..] == tagged;
    ColumnsDistinct();
    forall j | 0 <= j < |sv|
      ensures StateVectorRow(tagged[j], sv, j)
    {
      if HasColumn(sv, SecondsColumn) {
        TaggedMillisRow(tagged[j], converted[j], sv[j], j);
      }
    }
  }

  /** What `compare_logs` makes of the state-vector row j. */
  ghost predicate StateVectorRow(row: Row, sv: seq<Row>, j: nat)
    requires j < |sv| && NumericSeconds(sv)
  {
    && ImplColumn in row && row[ImplColumn] == Text(StateVectorTag)
    && IndexColumn in row && row[IndexColumn] == Int(j)
    && (HasColumn(sv, SecondsColumn) ==>
          && SecondsColumn !in row && MillisColumn in row
          && (SecondsColumn in sv[j] ==> row[MillisColumn] == Milliseconds(sv[j][SecondsColumn]))
          && AgreeExcept(row, sv[j], {ImplColumn, IndexColumn, SecondsColumn, MillisColumn}))
    && (!HasColumn(sv, SecondsColumn) ==> AgreeExcept(row, sv[j], {ImplColumn, IndexColumn}))
  }

  lemma ColumnsDistinct()
    ensures ImplColumn != SecondsColumn && ImplColumn != MillisColumn
    ensures IndexColumn != SecondsColumn && IndexColumn != MillisColumn
  {
    assert ImplColumn[0] != SecondsColumn[0] && ImplColumn[0] != MillisColumn[0];
    assert IndexColumn[0] != SecondsColumn[0] && IndexColumn[0] != MillisColumn[0];
  }

  /** Tagging a converted row keeps the conversion. */
  lemma TaggedMillisRow(tagged: Row, converted: Row, row: Row, j: nat)
    requires SecondsColumn in row ==> !row[SecondsColumn].Text?
    requires converted == ToMillis(row)
    requires ImplColumn in tagged && IndexColumn in tagged
    requires AgreeExcept(tagged, converted, {ImplColumn, IndexColumn})
    requires ImplColumn != SecondsColumn && ImplColumn != MillisColumn
    requires IndexColumn != SecondsColumn && IndexColumn != MillisColumn
    ensures SecondsColumn !in tagged && MillisColumn in tagged
    ensures tagged[MillisColumn] == converted[MillisColumn]
    ensures AgreeExcept(tagged, row, {ImplColumn, IndexColumn, SecondsColumn, MillisColumn})
  {
    assert SecondsColumn !in {ImplColumn, IndexColumn} && MillisColumn !in {ImplColumn, IndexColumn};
  }

  /** Merging the two simulators' own logs always succeeds, and afterwards
      every row carries its runtime in milliseconds: the decision-diagram
      value as logged, the state-vector value as seconds times 1000. */
  lemma MergedSimulatorLogs(ddLog: seq<Statistics>, svLog: seq<SvRecord>)
    ensures var r := CompareLogs(StatsRows(ddLog), SvRows(svLog));
      && r.Success?
      && |r.value| == |ddLog| + |svLog|
      && (forall i :: 0 <= i < |r.value| ==> MillisColumn in r.value[i] && SecondsColumn !in r.value[i])
      && (forall i :: 0 <= i < |ddLog| ==> r.value[i][MillisColumn] == Num(ddLog[i].runtimeMs))
      && (var rest := r.value[|ddLog|..];
          forall j :: 0 <= j < |svLog| ==> rest[j][MillisColumn] == Num(svLog[j].runtimeS * 1000.0))
  {
    var dd, sv := StatsRows(ddLog), SvRows(svLog);
    SvRowsNumeric(svLog);
    var r := CompareLogs(dd, sv).value;
    MergedDecisionDiagramRows(ddLog, sv);
    MergedStateVectorRows(dd, svLog);
    forall i | 0 <= i < |r|
      ensures MillisColumn in r[i] && SecondsColumn !in r[i]
    {
      if i >= |dd| {
        assert r[i] == r[|dd|..][i - |dd|];
      }
    }
  }

  lemma MergedDecisionDiagramRows(ddLog: seq<Statistics>, sv: seq<Row>)
    requires NumericSeconds(sv)
    ensures var r := CompareLogs(StatsRows(ddLog), sv).value;
      forall i :: 0 <= i < |ddLog| ==>
        MillisColumn in r[i] && SecondsColumn !in r[i] && r[i][MillisColumn] == Num(ddLog[i].runtimeMs)
  {
    var dd := StatsRows(ddLog);
    CompareLogsDecisionDiagramRows(dd, sv);
    ColumnsDistinct();
    var r := CompareLogs(dd, sv).value;
    forall i | 0 <= i < |ddLog|
      ensures MillisColumn in r[i] && SecondsColumn !in r[i] && r[i][MillisColumn] == Num(ddLog[i].runtimeMs)
    {
      assert AgreeExcept(r[i], dd[i], {ImplColumn, IndexColumn});
      assert MillisColumn !in {ImplColumn, IndexColumn} && SecondsColumn !in {ImplColumn, IndexColumn};
    }
  }

  lemma MergedStateVectorRows(dd: seq<Row>, svLog: seq<SvRecord>)
    ensures NumericSeconds(SvRows(svLog))
    ensures var rest := CompareLogs(dd, SvRows(svLog)).value[|dd|..];
      forall j :: 0 <= j < |svLog| ==>
        MillisColumn in rest[j] && SecondsColumn !in rest[j] && rest[j][MillisColumn] == Num(svLog[j].runtimeS * 1000.0)
  {
    var sv := SvRows(svLog);
    var seconds := seq(|svLog|, i requires 0 <= i < |svLog| => svLog[i].runtimeS);
    forall j | 0 <= j < |sv|
      ensures SecondsColumn in sv[j] && sv[j][SecondsColumn] == Num(seconds[j])
    {
      assert sv[j] == SvRow(svLog[j]);
    }
    SecondsConverted(dd, sv, seconds);
  }

  /** A state-vector log whose every row holds a number of seconds comes out
      with that number times 1000 in `runtime_ms`. */
  lemma SecondsConverted(dd: seq<Row>, sv: seq<Row>, seconds: seq<real>)
    requires |seconds| == |sv|
    requires forall j :: 0 <= j < |sv| ==> SecondsColumn in sv[j] && sv[j][SecondsColumn] == Num(seconds[j])
    ensures NumericSeconds(sv)
    ensures var rest := CompareLogs(dd, sv).value[|dd|..];
      forall j :: 0 <= j < |sv| ==>
        MillisColumn in rest[j] && SecondsColumn !in rest[j] && rest[j][MillisColumn] == Num(seconds[j] * 1000.0)
  {
    CompareLogsStateVectorRows(dd, sv);
    var rest := CompareLogs(dd, sv).value[|dd|..];
    forall j | 0 <= j < |sv|
      ensures MillisColumn in rest[j] && SecondsColumn !in rest[j]
      ensures rest[j][MillisColumn] == Num(seconds[j] * 1000.0)
    {
      ConvertedSvRow(rest[j], sv, j, seconds[j]);
    }
  }

  lemma SvRowsNumeric(svLog: seq<SvRecord>)
    ensures NumericSeconds(SvRows(svLog))
  {
    var sv: seq<Row> := SvRows(svLog);
    forall i | 0 <= i < |sv| && SecondsColumn in sv[i]
      ensures !sv[i][SecondsColumn].Text?
    {
      assert sv[i] == SvRow(svLog[i]);
    }
  }

  lemma ConvertedSvRow(row: Row, sv: seq<Row>, j: nat, seconds: real)
    requires j < |sv| && NumericSeconds(sv)
    requires SecondsColumn in sv[j] && sv[j][SecondsColumn] == Num(seconds)
    requires StateVectorRow(row, sv, j)
    ensures MillisColumn in row && SecondsColumn !in row
    ensures row[MillisColumn] == Num(seconds * 1000.0)
  {
    assert HasColumn(sv, SecondsColumn);
  }

  /** The decision-diagram log as rows. */
  function StatsRows(log: seq<Statistics>): (r: seq<Row>)
    ensures |r| == |log| && forall i :: 0 <= i < |log| ==> r[i] == StatsRow(log[i])
  {
    seq(|log|, i requires 0 <= i < |log| => StatsRow(log[i]))
  }

  /** The state-vector log as rows. */
  function SvRows(log: seq<SvRecord>): (r: seq<Row>)
    ensures |r| == |log| && forall i :: 0 <= i < |log| ==> r[i] == SvRow(log[i])
  {
    seq(|log|, i requires 0 <= i < |log| => SvRow(log[i]))
  }
}
