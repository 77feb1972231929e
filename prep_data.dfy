// Preparing the evaluation input (azureml/pipeline/components/code/prep_data.py):
// the gold-zone fact rows of one application and type inside the requested
// time range get the evaluator's metric list, each becomes one flow input
// record {"evaluation_dataset": [row]}, and an empty selection is an error.
// Instants are millisecond timestamps; the metric list is carried as its
// decoded value.
module PrepData {
  import opened Tables

  predicate OfApp(r: Row, appName: string)
  {
    Cell(r, "app_name") == Str(appName)
  }

  predicate OfType(r: Row, appType: string)
  {
    Cell(r, "app_type") == Str(appType)
  }

  /** The timestamp lies in [start, end]; a missing timestamp compares false. */
  predicate InRange(r: Row, start: int, end: int)
  {
    Cell(r, "timestamp").Int? && start <= Cell(r, "timestamp").i <= end
  }

  /** A row the filters keep. */
  predicate Selected(r: Row, appName: string, appType: string, start: int, end: int)
  {
    OfApp(r, appName) && OfType(r, appType) && InRange(r, start, end)
  }

  function WithMetricNames(t: Table, metricNames: Value): (r: Table)
    ensures |r| == |t| && forall i :: 0 <= i < |t| ==> r[i] == t[i]["metric_names" := metricNames]
  {
    seq(|t|, i requires 0 <= i < |t| => t[i]["metric_names" := metricNames])
  }

  /** filter_evaluation_fact_on_common_properties, step by step: the
      application filter, the type filter, the application filter again, the
      metric_names assignment, and the time filter. */
  function FilterEvaluationFact(t: Table, appName: string, appType: string, start: int, end: int,
                                metricNames: Value): Table
  {
    var byApp := Filter(t, (r: Row) => OfApp(r, appName));
    var byType := Filter(byApp, (r: Row) => OfType(r, appType));
    var again := Filter(byType, (r: Row) => OfApp(r, appName));
    Filter(WithMetricNames(again, metricNames), (r: Row) => InRange(r, start, end))
  }

  lemma {:induction false} FilterFilter(t: Table, p: Row -> bool, q: Row -> bool)
    ensures Filter(Filter(t, p), q) == Filter(t, (r: Row) => p(r) && q(r))
    decreases |t|
  {
    if t != [] {
      FilterFilter(t[1..], p, q);
      if p(t[0]) {
        var s := [t[0]] + Filter(t[1..], p);
        assert s[0] == t[0] && s[1..] == Filter(t[1..], p);
      }
    }
  }

  /** Setting metric_names does not change which rows the time filter keeps. */
  lemma {:induction false} FilterWithMetricNames(t: Table, metricNames: Value, start: int, end: int)
    ensures Filter(WithMetricNames(t, metricNames), (r: Row) => InRange(r, start, end)) ==
            WithMetricNames(Filter(t, (r: Row) => InRange(r, start, end)), metricNames)
    decreases |t|
  {
    if t != [] {
      var p := (r: Row) => InRange(r, start, end);
      WithMetricNamesCons(t, metricNames);
      FilterWithMetricNames(t[1..], metricNames, start, end);
      assert Cell(t[0]["metric_names" := metricNames], "timestamp") == Cell(t[0], "timestamp");
      if p(t[0]) {
        WithMetricNamesCons([t[0]] + Filter(t[1..], p), metricNames);
        assert ([t[0]] + Filter(t[1..], p))[1..] == Filter(t[1..], p);
      }
    }
  }

  /** WithMetricNames on a non-empty table, by its first row and the rest. */
  lemma WithMetricNamesCons(t: Table, metricNames: Value)
    requires t != []
    ensures WithMetricNames(t, metricNames) ==
            [t[0]["metric_names" := metricNames]] + WithMetricNames(t[1..], metricNames)
  {
    var w, rest := WithMetricNames(t, metricNames), WithMetricNames(t[1..], metricNames);
    assert forall i :: 1 <= i < |t| ==> w[i] == rest[i - 1];
  }

  /** The filters keep exactly the rows of the application and type whose
      timestamp lies in the range, bounds included, in order, and give each
      the metric list. */
  lemma FilterKeepsExactly(t: Table, appName: string, appType: string, start: int, end: int, metricNames: Value)
    ensures var p := (r: Row) => Selected(r, appName, appType, start, end);
      FilterEvaluationFact(t, appName, appType, start, end, metricNames) == WithMetricNames(Filter(t, p), metricNames)
  {
    var a := (r: Row) => OfApp(r, appName);
    var b := (r: Row) => OfType(r, appType);
    var c := (r: Row) => InRange(r, start, end);
    FilterFilter(t, a, b);
    var ab := (r: Row) => a(r) && b(r);
    FilterFilter(t, ab, a);
    var aba := (r: Row) => ab(r) && a(r);
    FilterWithMetricNames(Filter(t, aba), metricNames, start, end);
    FilterFilter(t, aba, c);
    var p := (r: Row) => Selected(r, appName, appType, start, end);
    FilterExt(t, (r: Row) => aba(r) && c(r), p);
  }

  lemma {:induction false} FilterExt(t: Table, p: Row -> bool, q: Row -> bool)
    requires forall r :: p(r) == q(r)
    ensures Filter(t, p) == Filter(t, q)
    decreases |t|
  {
    if t != [] {
      FilterExt(t[1..], p, q);
    }
  }

  /** format_dataframe_output: one record per row, the row wrapped in a one-element list. */
  function FormatOutput(t: Table): (out: Table)
    ensures |out| == |t|
    ensures forall i :: 0 <= i < |t| ==>
      (out[i].Keys == {"evaluation_dataset"} && out[i]["evaluation_dataset"] == List([Dict(t[i])]))
  {
    seq(|t|, i requires 0 <= i < |t| => map["evaluation_dataset" := List([Dict(t[i])])])
  }

  /** main after reading the facts: filter, fail on an empty selection,
      format. */
  function PrepData(facts: Table, appName: string, appType: string, start: int, end: int,
                    metricNames: Value): (r: Result<Table>)
    ensures r.Err? <==> forall i :: 0 <= i < |facts| ==> !Selected(facts[i], appName, appType, start, end)
    ensures r.Ok? ==> r.value == FormatOutput(FilterEvaluationFact(facts, appName, appType, start, end, metricNames))
  {
    var filtered := FilterEvaluationFact(facts, appName, appType, start, end, metricNames);
    var p := (r: Row) => Selected(r, appName, appType, start, end);
    FilterKeepsExactly(facts, appName, appType, start, end, metricNames);
    assert |filtered| == |Filter(facts, p)|;
    assert (exists i :: 0 <= i < |facts| && p(facts[i])) ==> Filter(facts, p) != [] by {
      if i :| 0 <= i < |facts| && p(facts[i]) {
        assert facts[i] in Filter(facts, p);
      }
    }
    assert Filter(facts, p) != [] ==> exists i :: 0 <= i < |facts| && p(facts[i]) by {
      if Filter(facts, p) != [] {
        var x := Filter(facts, p)[0];
        assert x in facts && p(x);
        var i :| 0 <= i < |facts| && facts[i] == x;
      }
    }
    if filtered == [] then Err("Prep data returned no records to run evaluation.")
    else Ok(FormatOutput(filtered))
  }
}
