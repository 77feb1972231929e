// The turn-relevance prompt flow's Python steps: parse_evaluation_data takes
// the one evaluation row out of the flow input
// (azureml/promptflow/turn_relevance/parse_input.py), and concat_results turns
// the LLM's relevance answer into a score and writes it, with the metric's
// name and version, into the evaluation row
// (postprod-eval/azureml/promptflow/turn_relevance/parse_score.py and the
// older copy src/azureml/promptflow/turn_relevance/parse_score.py).
// The metric_names cell holds the JSON list prep_data wrote; it is modelled
// by its decoded value.
module Promptflow {
  import opened Tables

  // ---------------------------------------------------------------------
  // parse_evaluation_data

  /** The first element of the flow input, or ValueError when it is empty. */
  function ParseEvaluationData(input: seq<Value>): (r: Result<Value>)
    ensures |input| > 0 <==> r.Ok?
    ensures r.Ok? ==> r.value == input[0]
  {
    if |input| > 0 then Ok(input[0]) else Err("Evaluation data is empty")
  }

  /** Elements after the first never affect the result. */
  lemma ParseIgnoresTail(first: Value, rest1: seq<Value>, rest2: seq<Value>)
    ensures ParseEvaluationData([first] + rest1) == ParseEvaluationData([first] + rest2) == Ok(first)
  {
  }

  // ---------------------------------------------------------------------
  // The score

  /** The copies differ in what an answer without a score becomes: the
      current one writes 0 and sets metric_type, the older one writes NaN
      (here: Null) and sets no metric_type. */
  datatype Variant = ZeroFallback | NaNFallback

  function FirstDigitFrom(s: string, i: nat): (r: Option<nat>)
    requires i <= |s|
    ensures r.Some? ==> i <= r.value < |s| && IsDigit(s[r.value]) &&
                        forall k :: i <= k < r.value ==> !IsDigit(s[k])
    ensures r.None? ==> forall k :: i <= k < |s| ==> !IsDigit(s[k])
    decreases |s| - i
  {
    if i == |s| then None else if IsDigit(s[i]) then Some(i) else FirstDigitFrom(s, i + 1)
  }

  /** `re.search(r"\d", s)`: the position of the first digit. */
  function FirstDigit(s: string): (r: Option<nat>)
    ensures r.Some? ==> r.value < |s| && IsDigit(s[r.value]) && forall k :: 0 <= k < r.value ==> !IsDigit(s[k])
    ensures r.None? <==> forall k :: 0 <= k < |s| ==> !IsDigit(s[k])
  {
    FirstDigitFrom(s, 0)
  }

  /** The value a fallback score takes. */
  function Fallback(v: Variant): Value
  {
    if v == ZeroFallback then Int(0) else Null
  }

  /** One pass of the scoring loop: the first digit of the answer, as a
      number; an answer without a digit does not parse and takes the
      fallback, and is reported as an error. */
  method ScoreItems(answer: string, v: Variant) returns (scores: seq<Value>, errors: seq<string>)
    ensures |scores| == 1
    ensures FirstDigit(answer).Some? ==> scores[0] == Int(DigitValue(answer[FirstDigit(answer).value])) && errors == []
    ensures FirstDigit(answer).None? ==> scores[0] == Fallback(v) && errors == ["gpt_relevance"]
  {
    var loadList := [("gpt_relevance", answer)];
    scores, errors := [], [];
    for i := 0 to |loadList|
      invariant |scores| == i
      invariant i == 1 ==> (FirstDigit(answer).Some? ==>
        scores[0] == Int(DigitValue(answer[FirstDigit(answer).value])) && errors == [])
      invariant i == 1 ==> (FirstDigit(answer).None? ==> scores[0] == Fallback(v) && errors == ["gpt_relevance"])
      invariant i == 0 ==> errors == []
    {
      var (name, text) := loadList[i];
      var score;
      var m := FirstDigit(text);
      if m.Some? {
        score := Int(DigitValue(text[m.value]));
      } else {
        score := Fallback(v);
        errors := errors + [name];
      }
      scores := scores + [score];
    }
  }

  /** The score of an answer: a single digit from 0 to 9 when the answer has
      one, the fallback otherwise. */
  function Score(answer: string, v: Variant): (r: Value)
    ensures FirstDigit(answer).Some? ==> r.Int? && 0 <= r.i <= 9
    ensures FirstDigit(answer).Some? ==> r == Int(DigitValue(answer[FirstDigit(answer).value]))
    ensures FirstDigit(answer).None? ==> r == Fallback(v)
  {
    var m := FirstDigit(answer);
    if m.Some? then Int(DigitValue(answer[m.value])) else Fallback(v)
  }

  /** An answer of "10" scores 1: only the first digit counts. */
  lemma ScoreTakesFirstDigit()
    ensures Score("10", ZeroFallback) == Int(1) && Score("10", NaNFallback) == Int(1)
  {
    assert FirstDigit("10") == Some(0);
  }

  /** An answer without digits scores 0 in the current copy and NaN in the
      older one. */
  lemma ScoreOfNonNumber()
    ensures Score("not a number", ZeroFallback) == Int(0) && Score("not a number", NaNFallback) == Null
  {
    var s := "not a number";
    forall k | 0 <= k < |s|
      ensures !IsDigit(s[k])
    {
    }
  }

  // ---------------------------------------------------------------------
  // concat_results

  /** The evaluation row the flow passes in and gets back. */
  class EvaluationDataset {
    var fields: Row

    constructor (fields: Row)
      ensures this.fields == fields
    {
      this.fields := fields;
    }
  }

  /** How a call ends: the error raised, if any, and the row as left. */
  datatype Outcome = Outcome(error: Option<string>, fields: Row)

  /** metric_names can be decoded as a list (json.loads). */
  predicate Decodes(fields: Row)
  {
    "metric_names" in fields && fields["metric_names"].List?
  }

  /** The first metric of the list carries `key`. */
  predicate FirstMetricHas(items: seq<Value>, key: string)
  {
    |items| > 0 && items[0].Dict? && key in items[0].fields
  }

  /** The row concat_results leaves and the error it raises: metric_names is
      decoded, then removed, then the first metric's name and version, the
      score and the raw answer are written in turn (and, in the current copy,
      metric_type "numerical"). A step that fails stops where it is, with
      the earlier writes done. */
  function ConcatOutcome(fields: Row, answer: string, v: Variant): (o: Outcome)
    ensures !Decodes(fields) ==> o == Outcome(Some("metric_names does not decode"), fields)
    ensures o.error.None? <==>
      (Decodes(fields) && FirstMetricHas(fields["metric_names"].items, "metric_name") &&
       FirstMetricHas(fields["metric_names"].items, "metric_version"))
  {
    if !Decodes(fields) then Outcome(Some("metric_names does not decode"), fields)
    else
      var metrics := fields["metric_names"].items;
      var popped := fields - {"metric_names"};
      if !FirstMetricHas(metrics, "metric_name") then Outcome(Some("no metric_name"), popped)
      else
        var named := popped["metric_name" := metrics[0].fields["metric_name"]];
        if !FirstMetricHas(metrics, "metric_version") then Outcome(Some("no metric_version"), named)
        else
          var scored := named["metric_version" := metrics[0].fields["metric_version"]]
                             ["metric_value" := Score(answer, v)]["metric_raw_value" := Str(answer)];
          Outcome(None, if v == ZeroFallback then scored["metric_type" := Str("numerical")] else scored)
  }

  /** concat_results: the row is updated in place and returned as the only
      element of a list. */
  method ConcatResults(ds: EvaluationDataset, answer: string, v: Variant) returns (r: Result<seq<EvaluationDataset>>)
    modifies ds
    ensures ds.fields == ConcatOutcome(old(ds.fields), answer, v).fields
    ensures r.Ok? <==> ConcatOutcome(old(ds.fields), answer, v).error.None?
    ensures r.Ok? ==> r.value == [ds]
  {
    var scores, errors := ScoreItems(answer, v);
    if !("metric_names" in ds.fields && ds.fields["metric_names"].List?) {
      return Err("metric_names does not decode");
    }
    var metrics := ds.fields["metric_names"].items;
    ds.fields := ds.fields - {"metric_names"};
    if !(|metrics| > 0 && metrics[0].Dict? && "metric_name" in metrics[0].fields) {
      return Err("no metric_name");
    }
    ds.fields := ds.fields["metric_name" := metrics[0].fields["metric_name"]];
    if !("metric_version" in metrics[0].fields) {
      return Err("no metric_version");
    }
    ds.fields := ds.fields["metric_version" := metrics[0].fields["metric_version"]];
    ds.fields := ds.fields["metric_value" := scores[0]];
    ds.fields := ds.fields["metric_raw_value" := Str(answer)];
    if v == ZeroFallback {
      ds.fields := ds.fields["metric_type" := Str("numerical")];
    }
    r := Ok([ds]);
  }

  /** A successful call removes metric_names, copies the first metric's name
      and version, writes the score and the raw answer verbatim (and in the
      current copy the type "numerical"), and leaves every other key as it
      was. */
  lemma ConcatResultsFields(fields: Row, answer: string, v: Variant)
    requires ConcatOutcome(fields, answer, v).error.None?
    ensures var out, first := ConcatOutcome(fields, answer, v).fields, fields["metric_names"].items[0].fields;
      "metric_names" !in out &&
      out["metric_name"] == first["metric_name"] && out["metric_version"] == first["metric_version"] &&
      out["metric_value"] == Score(answer, v) && out["metric_raw_value"] == Str(answer) &&
      (v == ZeroFallback ==> out["metric_type"] == Str("numerical")) &&
      (v == NaNFallback ==> ("metric_type" in out <==> "metric_type" in fields)) &&
      forall k :: k in fields && k !in OutputKeys ==> k in out && out[k] == fields[k]
  {
  }

  const OutputKeys: set<string> := {"metric_names", "metric_name", "metric_version", "metric_value",
                                    "metric_raw_value", "metric_type"}
}
