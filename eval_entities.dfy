// The evaluation entities (src/common/entities.py): applications, metrics,
// evaluators, the transformer of the fact table with its columns and
// evaluation types, the nested mapping column used by human evaluation, and
// the human evaluator records the configuration builds. Values the source
// types as float (a metric version, a distribution) are carried as opaque
// Values.
module EvalEntities {
  import opened Tables
  import Entities

  datatype App = App(appName: string, parentAppName: Option<string>, appType: string,
                     parentAppBotName: Option<string>, appId: Option<int>, parentAppId: Option<int>)

  datatype Metric = Metric(metricName: string, metricType: string, metricAllowedValues: seq<Value>,
                           metricId: Option<int>)

  datatype Evaluator = Evaluator(evaluatorName: string, evaluatorType: Option<string>,
                                 evaluationFlowPath: Option<string>, evaluationEndpoint: Option<string>,
                                 evaluationSchedule: Option<string>, evaluationScheduleStartTime: Option<string>,
                                 evaluationMetrics: seq<Metric>, evaluationMetricsVersion: Value, app: App)

  datatype EvaluationType = EvaluationType(evaluation: string, distribution: Value)

  /** The transformer of the silver-zone fact table into gold-zone tables. */
  datatype Transformer = Transformer(name: string, botName: string, appTypes: seq<Value>,
                                     sourceFactTable: string, sourceFactSchema: string, endpoint: string,
                                     schedule: string, scheduleStartTime: string,
                                     columns: seq<Entities.MappingColumn>, evaluationTypes: seq<EvaluationType>)

  /** A column with sub-fields; the configuration leaves the source name (input
      side) or the target name (output side) unset, and sort_by is optional. */
  datatype NestedColumn = NestedColumn(sourceName: Option<string>, targetName: Option<string>, dataType: string,
                                       sortBy: Option<string>, subFields: seq<Entities.MappingColumn>)

  /** An entry of a human evaluator's column mappings: a plain or a nested column. */
  datatype ColumnMapping = Plain(column: Entities.MappingColumn) | Nested(nested: NestedColumn)

  datatype TaskMonk = TaskMonk(projectId: Value, batchNamePrefix: Value)

  datatype HumanEvaluator = HumanEvaluator(name: string, appName: string, parentAppName: string,
                                           platformDetails: Option<TaskMonk>,
                                           inputColumnMappings: seq<ColumnMapping>,
                                           outputColumnMappings: seq<ColumnMapping>)

  datatype HumanEvaluatorDetails = HumanEvaluatorDetails(name: string, evaluators: seq<Evaluator>,
                                                         humanEvaluators: seq<HumanEvaluator>,
                                                         uploadEndpoint: Value, uploadSchedule: Value,
                                                         uploadScheduleStartTime: Value,
                                                         downloadEndpoint: Value, downloadSchedule: Value,
                                                         downloadScheduleStartTime: Value)

  // ---------------------------------------------------------------------
  // Metric

  /** to_dict: name, type and allowed values; the database id is left out. */
  function MetricToDict(m: Metric): (d: Value)
    ensures d.Dict? && d.fields.Keys == {"metric_name", "metric_type", "metric_allowed_values"}
    ensures "metric_id" !in d.fields
    ensures d.fields["metric_name"] == Str(m.metricName) && d.fields["metric_type"] == Str(m.metricType)
    ensures d.fields["metric_allowed_values"] == List(m.metricAllowedValues)
  {
    Dict(map["metric_name" := Str(m.metricName), "metric_type" := Str(m.metricType),
             "metric_allowed_values" := List(m.metricAllowedValues)])
  }

  /** The dictionary does not depend on the id, and it determines every other
      field: two metrics have the same dictionary exactly when they differ at
      most in their id. */
  lemma MetricToDictIgnoresId(m1: Metric, m2: Metric)
    ensures MetricToDict(m1) == MetricToDict(m2) <==> m1.(metricId := None) == m2.(metricId := None)
  {
    if MetricToDict(m1) == MetricToDict(m2) {
      assert MetricToDict(m1).fields["metric_name"] == MetricToDict(m2).fields["metric_name"];
      assert MetricToDict(m1).fields["metric_type"] == MetricToDict(m2).fields["metric_type"];
      assert MetricToDict(m1).fields["metric_allowed_values"] == MetricToDict(m2).fields["metric_allowed_values"];
    }
  }

  // ---------------------------------------------------------------------
  // Transformer

  /** The dictionary get_columns emits for one column. */
  function ColumnEntry(c: Entities.MappingColumn): (d: Value)
    ensures d.Dict? && d.fields.Keys == {"source", "target", "data_type"}
  {
    Dict(map["source" := Str(c.sourceName), "target" := Str(c.targetName), "data_type" := Str(c.dataType)])
  }

  /** get_columns: one entry per column, in column order. */
  method GetColumns(t: Transformer) returns (columns: seq<Value>)
    ensures |columns| == |t.columns|
    ensures forall i :: 0 <= i < |t.columns| ==> columns[i] == ColumnEntry(t.columns[i])
  {
    columns := [];
    for i := 0 to |t.columns|
      invariant |columns| == i
      invariant forall k :: 0 <= k < i ==> columns[k] == ColumnEntry(t.columns[k])
    {
      columns := columns + [ColumnEntry(t.columns[i])];
    }
  }

  /** get_columns carries what MappingColumn.to_dict carries, under the keys
      source, target and data_type instead of source_name, target_name and
      data_type. */
  lemma ColumnEntryRenamesToDict(c: Entities.MappingColumn)
    ensures var e, d := ColumnEntry(c), Entities.MappingColumnToDict(c);
      e.fields["source"] == d.fields["source_name"] && e.fields["target"] == d.fields["target_name"] &&
      e.fields["data_type"] == d.fields["data_type"]
  {
  }

  /** The dictionary get_evaluation_types emits for one evaluation type. */
  function EvaluationTypeEntry(e: EvaluationType): (d: Value)
    ensures d.Dict? && d.fields.Keys == {"evaluation", "distribution"}
    ensures d.fields["evaluation"] == Str(e.evaluation) && d.fields["distribution"] == e.distribution
  {
    Dict(map["evaluation" := Str(e.evaluation), "distribution" := e.distribution])
  }

  /** get_evaluation_types: one entry per evaluation type, in order. */
  method GetEvaluationTypes(t: Transformer) returns (types: seq<Value>)
    ensures |types| == |t.evaluationTypes|
    ensures forall i :: 0 <= i < |t.evaluationTypes| ==> types[i] == EvaluationTypeEntry(t.evaluationTypes[i])
  {
    types := [];
    for i := 0 to |t.evaluationTypes|
      invariant |types| == i
      invariant forall k :: 0 <= k < i ==> types[k] == EvaluationTypeEntry(t.evaluationTypes[k])
    {
      types := types + [EvaluationTypeEntry(t.evaluationTypes[i])];
    }
  }

  // ---------------------------------------------------------------------
  // MappingColumnNested

  /** An optional string as a dictionary value: the string, or None. */
  function OptionalStr(o: Option<string>): (v: Value)
    ensures o.None? <==> v == Null
    ensures o.Some? ==> v == Str(o.value)
  {
    if o.Some? then Str(o.value) else Null
  }

  /** The inverse of OptionalStr, failing on anything but a string or None. */
  function ReadOptionalStr(v: Value): (r: Option<Option<string>>)
    ensures r.Some? <==> v.Str? || v == Null
    ensures r.Some? ==> OptionalStr(r.value) == v
  {
    if v.Str? then Some(Some(v.s)) else if v == Null then Some(None) else None
  }

  function NestedToDict(n: NestedColumn): (d: Value)
    ensures d.Dict? && d.fields.Keys == {"source_name", "target_name", "data_type", "sort_by", "sub_fields"}
    ensures d.fields["source_name"] == OptionalStr(n.sourceName) && d.fields["target_name"] == OptionalStr(n.targetName)
    ensures d.fields["data_type"] == Str(n.dataType) && d.fields["sort_by"] == OptionalStr(n.sortBy)
    ensures d.fields["sub_fields"] == List(Entities.ColumnsToDicts(n.subFields))
  {
    Dict(map["source_name" := OptionalStr(n.sourceName), "target_name" := OptionalStr(n.targetName),
             "data_type" := Str(n.dataType), "sort_by" := OptionalStr(n.sortBy),
             "sub_fields" := List(Entities.ColumnsToDicts(n.subFields))])
  }

  /** from_dict: every key is read, each sub-field as a MappingColumn. */
  function NestedFromDict(d: Value): (r: Option<NestedColumn>)
    ensures r.Some? <==> (d.Dict? && "source_name" in d.fields && "target_name" in d.fields &&
                          "sort_by" in d.fields && "sub_fields" in d.fields && d.fields["sub_fields"].List? &&
                          ReadOptionalStr(d.fields["source_name"]).Some? &&
                          ReadOptionalStr(d.fields["target_name"]).Some? &&
                          Entities.StrField(d, "data_type").Some? &&
                          ReadOptionalStr(d.fields["sort_by"]).Some? &&
                          Entities.ColumnsFromDicts(d.fields["sub_fields"].items).Some?)
    ensures r.Some? ==> (d.Dict? && "source_name" in d.fields && "target_name" in d.fields &&
                         "sort_by" in d.fields && "sub_fields" in d.fields && d.fields["sub_fields"].List? &&
                         d.fields["source_name"] == OptionalStr(r.value.sourceName) &&
                         d.fields["target_name"] == OptionalStr(r.value.targetName) &&
                         Entities.StrField(d, "data_type") == Some(r.value.dataType) &&
                         d.fields["sort_by"] == OptionalStr(r.value.sortBy) &&
                         Entities.ColumnsFromDicts(d.fields["sub_fields"].items) == Some(r.value.subFields))
  {
    if !d.Dict? || "source_name" !in d.fields || "target_name" !in d.fields || "sort_by" !in d.fields ||
       "sub_fields" !in d.fields || !d.fields["sub_fields"].List?
    then None
    else
      var s := ReadOptionalStr(d.fields["source_name"]);
      var t := ReadOptionalStr(d.fields["target_name"]);
      var ty := Entities.StrField(d, "data_type");
      var sort := ReadOptionalStr(d.fields["sort_by"]);
      var subs := Entities.ColumnsFromDicts(d.fields["sub_fields"].items);
      if s.None? || t.None? || ty.None? || sort.None? || subs.None? then None
      else Some(NestedColumn(s.value, t.value, ty.value, sort.value, subs.value))
  }

  /** A nested column reads back with its names, its data type, its sort_by
      (set or not) and its sub-fields in order. */
  lemma NestedRoundTrip(n: NestedColumn)
    ensures NestedFromDict(NestedToDict(n)) == Some(n)
  {
    Entities.ColumnsRoundTrip(n.subFields);
  }
}
