// Writing evaluation metrics (azureml/pipeline/components/code/write_metrics.py):
// the prompt-flow output rows are flattened into raw metric rows; each raw row
// is resolved against the DIM_METRIC table by (metric_name, metric_version),
// provisioning a missing metric as an "llm" evaluator metric; its value goes
// to the numeric or the string column according to the metric's type; and the
// fact rows are inserted into FACT_EVALUATION_METRIC without overwriting.
module Metrics {
  import opened Tables

  /** DIM_METRIC is keyed by (metric_name, metric_version). */
  type MetricKey = (Value, Value)

  /** A DIM_METRIC row as the metric handler reads it back; the id and the type
      may be null in the table. */
  datatype DimMetric = DimMetric(metricId: Option<int>, metricType: Value, evaluatorName: Value, evaluatorType: string)

  /** A FACT_EVALUATION_METRIC row. The fact creation time is the raw
      millisecond timestamp; its rendering as a date string is not modelled. */
  datatype FactMetric = FactMetric(metricId: int, evaluationDatasetId: Value, conversationId: Value,
                                   metadataId: Value, numericValue: Value, strValue: Value, rawValue: Value,
                                   timestamp: Value)

  function KeyOf(r: Row): MetricKey
  {
    (Cell(r, "metric_name"), Cell(r, "metric_version"))
  }

  /** The DIM_METRIC row provisioned for a raw row that has no metric yet. */
  function Provisioned(r: Row, id: int): DimMetric
  {
    DimMetric(Some(id), Cell(r, "metric_type"), Cell(r, "metric_name"), "llm")
  }

  /** `str(metric_type).lower() == "numerical"`; only a string can pass. */
  predicate IsNumerical(t: Value)
  {
    t.Str? && ToLower(t.s) == "numerical"
  }

  predicate IsCategorical(t: Value)
  {
    t.Str? && ToLower(t.s) == "categorical"
  }

  /** A metric process_metrics can use: an id, a type, and the type is
      numerical or categorical in any letter case. */
  predicate Usable(d: DimMetric)
  {
    d.metricId.Some? && d.metricType != Null && (IsNumerical(d.metricType) || IsCategorical(d.metricType))
  }

  /** The fact row of a raw row: the metric's id, the row's identifiers and raw
      value verbatim, and the value in the column its type selects. */
  function FactFor(r: Row, d: DimMetric): (f: FactMetric)
    requires Usable(d)
    ensures f.metricId == d.metricId.value
    ensures f.evaluationDatasetId == Cell(r, "evaluation_dataset_id") && f.conversationId == Cell(r, "conversation_id")
    ensures f.metadataId == Cell(r, "metadata_id") && f.rawValue == Cell(r, "metric_raw_value")
    ensures IsNumerical(d.metricType) ==> f.numericValue == Cell(r, "metric_value") && f.strValue == Null
    ensures IsCategorical(d.metricType) ==> f.numericValue == Null && f.strValue == Cell(r, "metric_value")
  {
    var numerical := IsNumerical(d.metricType);
    FactMetric(d.metricId.value, Cell(r, "evaluation_dataset_id"), Cell(r, "conversation_id"), Cell(r, "metadata_id"),
               if numerical then Cell(r, "metric_value") else Null,
               if numerical then Null else Cell(r, "metric_value"),
               Cell(r, "metric_raw_value"), Cell(r, "timestamp"))
  }

  /** DIM_METRIC, with the identity column as a counter. */
  class MetricStore {
    var rows: map<MetricKey, DimMetric>
    var nextId: int

    /** Every id in the table was issued before `nextId`. */
    ghost predicate Valid()
      reads this
    {
      forall k :: k in rows && rows[k].metricId.Some? ==> rows[k].metricId.value < nextId
    }

    constructor (rows: map<MetricKey, DimMetric>, nextId: int)
      requires forall k :: k in rows && rows[k].metricId.Some? ==> rows[k].metricId.value < nextId
      ensures this.rows == rows && this.nextId == nextId && Valid()
    {
      this.rows := rows;
      this.nextId := nextId;
    }

    /** select_row_by_columns on (metric_name, metric_version). */
    method Select(key: MetricKey) returns (r: Option<DimMetric>)
      ensures key in rows ==> r == Some(rows[key])
      ensures key !in rows ==> r.None?
    {
      r := if key in rows then Some(rows[key]) else None;
    }

    /** The lookup of a raw row's metric, provisioning it first when it is
        missing or has no id: the insert-only upsert leaves a key that is
        already present (even with a null id) as it is, and gives a new key a
        fresh id. The result is the row read back. */
    method Resolve(r: Row) returns (d: DimMetric)
      requires Valid()
      modifies this
      ensures Valid() && nextId >= old(nextId)
      ensures KeyOf(r) in rows && d == rows[KeyOf(r)]
      ensures old(KeyOf(r) in rows) ==> rows == old(rows)
      ensures old(KeyOf(r) !in rows) ==> rows == old(rows)[KeyOf(r) := Provisioned(r, old(nextId))]
    {
      var found := Select(KeyOf(r));
      if found.None? || found.value.metricId.None? {
        if KeyOf(r) !in rows {
          rows := rows[KeyOf(r) := Provisioned(r, nextId)];
          nextId := nextId + 1;
        }
        found := Select(KeyOf(r));
      }
      d := found.value;
    }
  }

  function MetricKeys(raw: seq<Row>): (ks: seq<MetricKey>)
    ensures |ks| == |raw| && forall k :: 0 <= k < |raw| ==> ks[k] == KeyOf(raw[k])
  {
    seq(|raw|, k requires 0 <= k < |raw| => KeyOf(raw[k]))
  }

  /** `now` keeps every row of `before`, and every row it adds is an "llm"
      metric named by its key, with an id issued at or after `base`, for one
      of `keys`. */
  ghost predicate Extends(before: map<MetricKey, DimMetric>, now: map<MetricKey, DimMetric>, base: int,
                          keys: seq<MetricKey>)
  {
    (forall key :: key in before ==> key in now && now[key] == before[key]) &&
    forall key :: key in now && key !in before ==>
      now[key].evaluatorType == "llm" && now[key].evaluatorName == key.0 &&
      now[key].metricId.Some? && now[key].metricId.value >= base && key in keys
  }

  lemma ExtendsStep(before: map<MetricKey, DimMetric>, mid: map<MetricKey, DimMetric>,
                    now: map<MetricKey, DimMetric>, base: int, keys: seq<MetricKey>, r: Row, next: int)
    requires Extends(before, mid, base, keys) && KeyOf(r) in keys && next >= base
    requires now == mid || (KeyOf(r) !in mid && now == mid[KeyOf(r) := Provisioned(r, next)])
    ensures Extends(before, now, base, keys)
  {
  }

  /** process_metrics: one fact row per raw row, in order, each against the
      DIM_METRIC row of its key after provisioning. Existing DIM_METRIC rows are
      never changed and a new one is an "llm" metric with a fresh id. The call
      fails exactly when some row meets a metric without an id or without a
      numerical or categorical type. */
  method ProcessMetrics(store: MetricStore, raw: seq<Row>) returns (r: Result<seq<FactMetric>>)
    requires store.Valid()
    modifies store
    ensures store.Valid()
    ensures Extends(old(store.rows), store.rows, old(store.nextId), MetricKeys(raw))
    ensures r.Ok? ==> (|r.value| == |raw| &&
      forall k :: 0 <= k < |raw| ==>
        KeyOf(raw[k]) in store.rows && Usable(store.rows[KeyOf(raw[k])]) &&
        r.value[k] == FactFor(raw[k], store.rows[KeyOf(raw[k])]))
    ensures r.Err? ==> exists k :: 0 <= k < |raw| && KeyOf(raw[k]) in store.rows && !Usable(store.rows[KeyOf(raw[k])])
  {
    var facts := [];
    ghost var keys := MetricKeys(raw);
    for i := 0 to |raw|
      invariant store.Valid() && store.nextId >= old(store.nextId)
      invariant Extends(old(store.rows), store.rows, old(store.nextId), keys)
      invariant |facts| == i
      invariant forall k :: 0 <= k < i ==>
        KeyOf(raw[k]) in store.rows && Usable(store.rows[KeyOf(raw[k])]) &&
        facts[k] == FactFor(raw[k], store.rows[KeyOf(raw[k])])
    {
      var row := raw[i];
      ghost var mid := store.rows;
      ghost var next := store.nextId;
      var d := store.Resolve(row);
      ExtendsStep(old(store.rows), mid, store.rows, old(store.nextId), keys, row, next);
      if d.metricId.None? {
        return Err("metric not found in DIM_METRIC after upsertion");
      }
      if d.metricType == Null {
        return Err("metric type not found in DIM_METRIC");
      }
      if !IsNumerical(d.metricType) && !IsCategorical(d.metricType) {
        return Err("invalid metric type");
      }
      FactsStay(raw, facts, mid, store.rows, d, i);
      facts := facts + [FactFor(row, d)];
    }
    r := Ok(facts);
  }

  /** The fact rows built so far still agree with the DIM_METRIC rows after a
      step that keeps every existing row, and the next raw row's fact row
      against its resolved row extends them. */
  lemma FactsStay(raw: seq<Row>, facts: seq<FactMetric>, mid: map<MetricKey, DimMetric>,
                  now: map<MetricKey, DimMetric>, d: DimMetric, i: int)
    requires 0 <= i < |raw| && |facts| == i
    requires forall k :: 0 <= k < i ==>
      KeyOf(raw[k]) in mid && Usable(mid[KeyOf(raw[k])]) && facts[k] == FactFor(raw[k], mid[KeyOf(raw[k])])
    requires Usable(d) && KeyOf(raw[i]) in now && d == now[KeyOf(raw[i])]
    requires now == mid || (KeyOf(raw[i]) !in mid && now == mid[KeyOf(raw[i]) := Provisioned(raw[i], d.metricId.value)])
    ensures var next := facts + [FactFor(raw[i], d)];
      forall k :: 0 <= k < i + 1 ==>
        KeyOf(raw[k]) in now && Usable(now[KeyOf(raw[k])]) && next[k] == FactFor(raw[k], now[KeyOf(raw[k])])
  {
    var next := facts + [FactFor(raw[i], d)];
    forall k | 0 <= k < i + 1
      ensures KeyOf(raw[k]) in now && Usable(now[KeyOf(raw[k])]) && next[k] == FactFor(raw[k], now[KeyOf(raw[k])])
    {
      if k < i {
        assert now[KeyOf(raw[k])] == mid[KeyOf(raw[k])];
        assert next[k] == facts[k];
      }
    }
  }

  // ---------------------------------------------------------------------
  // write_metrics

  /** FACT_EVALUATION_METRIC is keyed by (evaluation_dataset_id, metric_id). */
  function FactKey(f: FactMetric): (Value, int)
  {
    (f.evaluationDatasetId, f.metricId)
  }

  function FactEntries(facts: seq<FactMetric>): (es: seq<((Value, int), FactMetric)>)
    ensures |es| == |facts| && forall i :: 0 <= i < |facts| ==> es[i] == (FactKey(facts[i]), facts[i])
  {
    seq(|facts|, i requires 0 <= i < |facts| => (FactKey(facts[i]), facts[i]))
  }

  class FactStore {
    var rows: map<(Value, int), FactMetric>

    constructor (rows: map<(Value, int), FactMetric>)
      ensures this.rows == rows
    {
      this.rows := rows;
    }

    /** write_metrics: the insert-only upsert of the fact rows. */
    method WriteMetrics(facts: seq<FactMetric>)
      modifies this
      ensures rows == InsertAbsent(old(rows), FactEntries(facts))
    {
      ghost var es := FactEntries(facts);
      var i := 0;
      while i < |facts|
        invariant 0 <= i <= |facts|
        invariant rows == InsertAbsent(old(rows), es[..i])
      {
        InsertAbsentSnoc(old(rows), es, i);
        assert es[i] == (FactKey(facts[i]), facts[i]);
        if FactKey(facts[i]) !in rows {
          rows := rows[FactKey(facts[i]) := facts[i]];
        }
        i := i + 1;
      }
      assert es[..|facts|] == es;
    }
  }

  /** Writing keeps every existing fact row, stores every written key, and a
      new key holds the first fact row written with it. */
  lemma WriteMetricsKeeps(old_rows: map<(Value, int), FactMetric>, facts: seq<FactMetric>, i: int)
    requires 0 <= i < |facts| && FactKey(facts[i]) !in old_rows
    requires forall j :: 0 <= j < i ==> FactKey(facts[j]) != FactKey(facts[i])
    ensures forall k :: k in old_rows ==> InsertAbsent(old_rows, FactEntries(facts))[k] == old_rows[k]
    ensures forall j :: 0 <= j < |facts| ==> FactKey(facts[j]) in InsertAbsent(old_rows, FactEntries(facts))
    ensures InsertAbsent(old_rows, FactEntries(facts))[FactKey(facts[i])] == facts[i]
  {
    var es := FactEntries(facts);
    assert forall j :: 0 <= j < |facts| ==> es[j].0 == FactKey(facts[j]);
    InsertAbsentFirstWins(old_rows, es, i);
  }

  // ---------------------------------------------------------------------
  // read_metrics

  /** The raw metric rows of one prompt-flow output row. */
  function RowResults(r: Row): seq<Value>
    requires Cell(r, "evaluation_results").List?
  {
    Cell(r, "evaluation_results").items
  }

  predicate ResultsDecode(files: seq<Table>)
  {
    forall f, k :: 0 <= f < |files| && 0 <= k < |files[f]| ==> Cell(files[f][k], "evaluation_results").List?
  }

  /** The raw metric rows of the output files: file by file, row by row. */
  function AllResults(files: seq<Table>): seq<Value>
    requires ResultsDecode(files)
    decreases |files|
  {
    if files == [] then []
    else
      var n := |files| - 1;
      assert ResultsDecode(files[..n]) by {
        forall f, k | 0 <= f < n && 0 <= k < |files[..n][f]| ensures Cell(files[..n][f][k], "evaluation_results").List? {
          assert files[..n][f] == files[f];
        }
      }
      AllResults(files[..n]) + FileResults(files[n])
  }

  function FileResults(t: Table): seq<Value>
    requires forall k :: 0 <= k < |t| ==> Cell(t[k], "evaluation_results").List?
    decreases |t|
  {
    if t == [] then [] else FileResults(t[..|t| - 1]) + RowResults(t[|t| - 1])
  }

  /** The total number of rows over files. */
  function TotalRows(files: seq<Table>): (n: nat)
    ensures files == [] ==> n == 0
    decreases |files|
  {
    if files == [] then 0 else TotalRows(files[..|files| - 1]) + |files[|files| - 1]|
  }

  /** The row counts of read_metrics. */
  datatype Counts = Counts(inputRows: int, outputRows: int)
  {
    /** The failed-rows figure logged: input rows less output rows. */
    function Failed(): int
    {
      inputRows - outputRows
    }
  }

  /** The input count of read_metrics as written: the counter is assigned, not
      added to, so only the last input file counts. */
  function InputRowsAsWritten(inputFiles: seq<Table>): (n: nat)
    ensures inputFiles != [] ==> n == |inputFiles[|inputFiles| - 1]|
    ensures inputFiles == [] ==> n == 0
  {
    if inputFiles == [] then 0 else |inputFiles[|inputFiles| - 1]|
  }

  /** The input loop as written. */
  method CountInputRowsAsWritten(inputFiles: seq<Table>) returns (n: nat)
    ensures n == InputRowsAsWritten(inputFiles)
  {
    n := 0;
    for i := 0 to |inputFiles|
      invariant i > 0 ==> n == |inputFiles[i - 1]|
      invariant i == 0 ==> n == 0
    {
      n := |inputFiles[i]|;
    }
  }

  /** With two input files of two and three rows fully processed into five
      output rows, the code as written reports three input rows and -2
      failed rows. */
  lemma InputRowsAsWrittenUndercounts()
    ensures var files := [[map[], map[]], [map[], map[], map[]]];
      InputRowsAsWritten(files) == 3 && TotalRows(files) == 5 &&
      Counts(InputRowsAsWritten(files), 5).Failed() == -2
  {
    var files: seq<Table> := [[map[], map[]], [map[], map[], map[]]];
    assert files[..1] == [[map[], map[]]];
    assert files[..1][..0] == [];
  }

  /** read_metrics with the input counter accumulated over the files: the raw
      metric rows in file and row order, and both row totals. */
  method ReadMetrics(outputFiles: seq<Table>, inputFiles: seq<Table>) returns (raw: seq<Value>, counts: Counts)
    requires ResultsDecode(outputFiles)
    ensures raw == AllResults(outputFiles)
    ensures counts == Counts(TotalRows(inputFiles), TotalRows(outputFiles))
  {
    raw := [];
    var outputRows := 0;
    for f := 0 to |outputFiles|
      invariant ResultsDecode(outputFiles[..f])
      invariant raw == AllResults(outputFiles[..f])
      invariant outputRows == TotalRows(outputFiles[..f])
    {
      assert outputFiles[..f + 1][..f] == outputFiles[..f];
      assert outputFiles[..f + 1][f] == outputFiles[f];
      var t := outputFiles[f];
      var fileRaw := [];
      for k := 0 to |t|
        invariant fileRaw == FileResults(t[..k])
      {
        assert t[..k + 1][..k] == t[..k];
        fileRaw := fileRaw + RowResults(t[k]);
      }
      assert t[..|t|] == t;
      raw := raw + fileRaw;
      outputRows := outputRows + |t|;
    }
    assert outputFiles[..|outputFiles|] == outputFiles;
    var inputRows := 0;
    for f := 0 to |inputFiles|
      invariant inputRows == TotalRows(inputFiles[..f])
    {
      assert inputFiles[..f + 1][..f] == inputFiles[..f];
      inputRows := inputRows + |inputFiles[f]|;
    }
    assert inputFiles[..|inputFiles|] == inputFiles;
    counts := Counts(inputRows, outputRows);
  }

  /** With the counter accumulated, a run in which every input file produced
      an output file of as many rows reports no failed rows. */
  lemma {:induction false} FailedRowsExact(inputFiles: seq<Table>, outputFiles: seq<Table>)
    requires |inputFiles| == |outputFiles|
    requires forall i :: 0 <= i < |inputFiles| ==> |inputFiles[i]| == |outputFiles[i]|
    ensures Counts(TotalRows(inputFiles), TotalRows(outputFiles)).Failed() == 0
    decreases |inputFiles|
  {
    if inputFiles != [] {
      var n := |inputFiles| - 1;
      FailedRowsExact(inputFiles[..n], outputFiles[..n]);
    }
  }

  /** The total of a concatenation of file lists is the sum of their totals. */
  lemma {:induction false} TotalRowsAppend(a: seq<Table>, b: seq<Table>)
    ensures TotalRows(a + b) == TotalRows(a) + TotalRows(b)
    decreases |b|
  {
    if b == [] {
      assert a + b == a;
    } else {
      assert (a + b)[..|a + b| - 1] == a + b[..|b| - 1];
      TotalRowsAppend(a, b[..|b| - 1]);
    }
  }
}
