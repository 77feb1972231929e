// get_human_evaluator_info (src/common/config_handler.py:75-196): each
// human-evaluation entry with at least one active evaluator becomes a
// HumanEvaluatorDetails holding, per active evaluator, an Evaluator (built as
// in get_evaluator_info but without flow path, endpoint or schedule) and a
// HumanEvaluator with its platform and its input and output column mappings;
// the upload and download settings come from the first deployment of each name.
module HumanConfig {
  import opened Tables
  import opened EvalEntities
  import Entities
  import Config

  /** An entry of a column-mapping list. Keys the source reads with `[]` are
      None when absent, and reading one then fails. */
  datatype MappingEntry = MappingEntry(source: Option<string>, target: Option<string>, dataType: Option<string>,
                                       sortBy: Option<string>, subFields: Option<seq<Config.ColumnEntry>>)

  datatype PlatformEntry = PlatformEntry(name: string, projectId: Value, batchNamePrefix: Value)

  datatype HumanRef = HumanRef(name: string, active: Option<string>, appName: string, parentAppName: string,
                               appType: string, platform: PlatformEntry,
                               inputMappings: seq<MappingEntry>, outputMappings: seq<MappingEntry>)

  datatype Deployment = Deployment(name: string, endpointName: Value, schedule: Value, scheduleStartTime: Value)

  /** An entry of `human_eval`; absent evaluators and deployment_details are empty lists. */
  datatype HumanEvalEntry = HumanEvalEntry(name: string, evaluators: seq<HumanRef>, deployments: seq<Deployment>)

  datatype HumanEvalConfig = HumanEvalConfig(humanEval: seq<HumanEvalEntry>, evaluators: seq<Config.EvaluatorDef>)

  /** Which side of the evaluator a mapping list describes. */
  datatype Side = Input | Output

  const NestedType: string := "nested"

  /** One entry of a mapping list. A nested entry has sub-fields in order,
      sort_by None when absent, and no source name on the input side or no
      target name on the output side; any other entry is a MappingColumn. */
  function ColumnMappingOf(m: MappingEntry, side: Side): (r: Option<ColumnMapping>)
    ensures r.Some? && m.dataType == Some(NestedType) ==>
      r.value.Nested? && r.value.nested.dataType == NestedType && r.value.nested.sortBy == m.sortBy &&
      m.subFields.Some? &&
      |r.value.nested.subFields| == |m.subFields.value| &&
      (forall k :: 0 <= k < |m.subFields.value| ==>
         r.value.nested.subFields[k] == Config.BuildColumn(m.subFields.value[k])) &&
      (side == Input ==> r.value.nested.sourceName.None? && r.value.nested.targetName == m.target) &&
      (side == Output ==> r.value.nested.targetName.None? && r.value.nested.sourceName == m.source)
    ensures r.Some? && m.dataType != Some(NestedType) ==>
      r.value.Plain? && Some(r.value.column.sourceName) == m.source &&
      Some(r.value.column.targetName) == m.target && Some(r.value.column.dataType) == m.dataType
    ensures m.dataType != Some(NestedType) ==> (r.Some? <==> m.source.Some? && m.target.Some? && m.dataType.Some?)
  {
    if m.dataType == Some(NestedType) then
      if m.subFields.None? then None
      else
        var subs := seq(|m.subFields.value|, k requires 0 <= k < |m.subFields.value| =>
                      Config.BuildColumn(m.subFields.value[k]));
        if side == Input then
          if m.target.None? then None
          else Some(Nested(NestedColumn(None, m.target, NestedType, m.sortBy, subs)))
        else
          if m.source.None? then None
          else Some(Nested(NestedColumn(m.source, None, NestedType, m.sortBy, subs)))
    else if m.source.None? || m.target.None? || m.dataType.None? then None
    else Some(Plain(Entities.MappingColumn(m.source.value, m.target.value, m.dataType.value)))
  }

  /** The mapping loop of get_human_evaluator_info. */
  method ColumnMappings(ms: seq<MappingEntry>, side: Side) returns (r: Option<seq<ColumnMapping>>)
    ensures r == ColumnMappingsOf(ms, side)
  {
    var out := [];
    for i := 0 to |ms|
      invariant |out| == i
      invariant forall k :: 0 <= k < i ==> Some(out[k]) == ColumnMappingOf(ms[k], side)
    {
      var c := ColumnMappingOf(ms[i], side);
      if c.None? {
        return None;
      }
      out := out + [c.value];
    }
    r := Some(out);
    assert r.value == ColumnMappingsOf(ms, side).value;
  }

  /** The mapping list: one column mapping per entry, in order; an entry that
      cannot be read fails the whole list. */
  function ColumnMappingsOf(ms: seq<MappingEntry>, side: Side): (r: Option<seq<ColumnMapping>>)
    ensures r.Some? <==> forall k :: 0 <= k < |ms| ==> ColumnMappingOf(ms[k], side).Some?
    ensures r.Some? ==> |r.value| == |ms| && forall k :: 0 <= k < |ms| ==> Some(r.value[k]) == ColumnMappingOf(ms[k], side)
  {
    if forall k :: 0 <= k < |ms| ==> ColumnMappingOf(ms[k], side).Some? then
      Some(seq(|ms|, k requires 0 <= k < |ms| => ColumnMappingOf(ms[k], side).value))
    else None
  }

  /** The first deployment with the given name (`[...][0]`). */
  function FirstDeployment(ds: seq<Deployment>, name: string): (r: Option<Deployment>)
    ensures r.Some? ==> (r.value.name == name &&
                         exists k :: 0 <= k < |ds| && ds[k] == r.value && forall j :: 0 <= j < k ==> ds[j].name != name)
    ensures r.None? ==> forall k :: 0 <= k < |ds| ==> ds[k].name != name
  {
    if ds == [] then None
    else if ds[0].name == name then
      assert ds[0] == ds[0];
      Some(ds[0])
    else
      var r := FirstDeployment(ds[1..], name);
      if r.Some? then
        var k :| 0 <= k < |ds[1..]| && ds[1..][k] == r.value && forall j :: 0 <= j < k ==> ds[1..][j].name != name;
        assert ds[k + 1] == r.value;
        r
      else None
  }

  predicate IsActive(r: HumanRef)
  {
    r.active == Some("true")
  }

  /** Platform details only for taskmonk. */
  function Platform(p: PlatformEntry): (r: Option<TaskMonk>)
    ensures r.Some? <==> p.name == "taskmonk"
    ensures r.Some? ==> r.value == TaskMonk(p.projectId, p.batchNamePrefix)
  {
    if p.name == "taskmonk" then Some(TaskMonk(p.projectId, p.batchNamePrefix)) else None
  }

  /** The Evaluator and the HumanEvaluator of one active entry. The app's
      names and type are lowercased in the Evaluator, kept as given in the
      HumanEvaluator. */
  function HumanPair(r: HumanRef, defs: seq<Config.EvaluatorDef>): (p: Result<(Evaluator, HumanEvaluator)>)
    ensures p.Ok? <==> Config.FindDef(defs, r.name).Some? && ColumnMappingsOf(r.inputMappings, Input).Some? &&
                       ColumnMappingsOf(r.outputMappings, Output).Some?
    ensures p.Ok? ==>
      var (e, h) := p.value;
      var d := Config.FindDef(defs, r.name).value;
      e.evaluatorName == r.name && e.evaluatorType == d.evaluatorType &&
      e.evaluationMetrics == Config.BuildMetrics(d.metrics) && e.evaluationMetricsVersion == d.version &&
      e.evaluationFlowPath.None? && e.evaluationEndpoint.None? && e.evaluationSchedule.None? &&
      e.evaluationScheduleStartTime.None? &&
      e.app == App(ToLower(r.appName), Some(ToLower(r.parentAppName)), ToLower(r.appType), None, None, None) &&
      h.name == r.name && h.appName == r.appName && h.parentAppName == r.parentAppName &&
      h.platformDetails == Platform(r.platform) &&
      Some(h.inputColumnMappings) == ColumnMappingsOf(r.inputMappings, Input) &&
      Some(h.outputColumnMappings) == ColumnMappingsOf(r.outputMappings, Output)
  {
    var d := Config.FindDef(defs, r.name);
    if d.None? then Err("no definition for the evaluator")
    else
      var app := App(ToLower(r.appName), Some(ToLower(r.parentAppName)), ToLower(r.appType), None, None, None);
      var e := Evaluator(r.name, d.value.evaluatorType, None, None, None, None, Config.BuildMetrics(d.value.metrics),
                         d.value.version, app);
      var ins := ColumnMappingsOf(r.inputMappings, Input);
      var outs := ColumnMappingsOf(r.outputMappings, Output);
      if ins.None? || outs.None? then Err("a column mapping cannot be read")
      else Ok((e, HumanEvaluator(r.name, r.appName, r.parentAppName, Platform(r.platform), ins.value, outs.value)))
  }

  /** The pairs of a list of active entries, in order. */
  function HumanPairs(active: seq<HumanRef>, defs: seq<Config.EvaluatorDef>): (r: Result<seq<(Evaluator, HumanEvaluator)>>)
    ensures r.Ok? ==> (|r.value| == |active| &&
                       forall k :: 0 <= k < |active| ==> HumanPair(active[k], defs) == Ok(r.value[k]))
    ensures r.Err? ==> exists k :: 0 <= k < |active| && HumanPair(active[k], defs).Err?
    decreases |active|
  {
    if active == [] then Ok([])
    else
      var n := |active| - 1;
      var prev := HumanPairs(active[..n], defs);
      if prev.Err? then
        var k :| 0 <= k < |active[..n]| && HumanPair(active[..n][k], defs).Err?;
        assert active[k] == active[..n][k];
        prev
      else
        var p := HumanPair(active[n], defs);
        if p.Err? then Err(p.error)
        else
          assert forall k :: 0 <= k < n ==> active[..n][k] == active[k];
          Ok(prev.value + [p.value])
  }

  /** The details of one human-evaluation entry with active evaluators. */
  function DetailsOf(h: HumanEvalEntry, defs: seq<Config.EvaluatorDef>): (r: Result<HumanEvaluatorDetails>)
    requires exists k :: 0 <= k < |h.evaluators| && IsActive(h.evaluators[k])
    ensures r.Ok? <==> HumanPairs(Filter(h.evaluators, IsActive), defs).Ok? &&
                       FirstDeployment(h.deployments, "upload").Some? &&
                       FirstDeployment(h.deployments, "download").Some?
    ensures r.Ok? ==>
      var active := Filter(h.evaluators, IsActive);
      |r.value.evaluators| == |active| && |r.value.humanEvaluators| == |active| &&
      (forall k :: 0 <= k < |active| ==>
         HumanPair(active[k], defs) == Ok((r.value.evaluators[k], r.value.humanEvaluators[k]))) &&
      var up := FirstDeployment(h.deployments, "upload");
      var down := FirstDeployment(h.deployments, "download");
      up.Some? && down.Some? && r.value.name == h.name &&
      r.value.uploadEndpoint == up.value.endpointName && r.value.uploadSchedule == up.value.schedule &&
      r.value.uploadScheduleStartTime == up.value.scheduleStartTime &&
      r.value.downloadEndpoint == down.value.endpointName && r.value.downloadSchedule == down.value.schedule &&
      r.value.downloadScheduleStartTime == down.value.scheduleStartTime
  {
    var active := Filter(h.evaluators, IsActive);
    var pairs := HumanPairs(active, defs);
    if pairs.Err? then Err(pairs.error)
    else
      var up := FirstDeployment(h.deployments, "upload");
      var down := FirstDeployment(h.deployments, "download");
      if up.None? then Err("no upload deployment")
      else if down.None? then Err("no download deployment")
      else
        var ps := pairs.value;
        Ok(HumanEvaluatorDetails(h.name, seq(|ps|, k requires 0 <= k < |ps| => ps[k].0),
                                 seq(|ps|, k requires 0 <= k < |ps| => ps[k].1),
                                 up.value.endpointName, up.value.schedule, up.value.scheduleStartTime,
                                 down.value.endpointName, down.value.schedule, down.value.scheduleStartTime))
  }

  predicate HasActive(h: HumanEvalEntry)
  {
    exists k :: 0 <= k < |h.evaluators| && IsActive(h.evaluators[k])
  }

  /** The details of the entries `hs` after the details `acc` already
      collected, skipping entries without an active evaluator; the first
      failing entry ends with its error. */
  function DetailsFrom(acc: seq<HumanEvaluatorDetails>, hs: seq<HumanEvalEntry>, defs: seq<Config.EvaluatorDef>):
    (r: Result<seq<HumanEvaluatorDetails>>)
    decreases |hs|
  {
    if hs == [] then Ok(acc)
    else if !HasActive(hs[0]) then DetailsFrom(acc, hs[1..], defs)
    else
      var d := DetailsOf(hs[0], defs);
      if d.Err? then Err(d.error) else DetailsFrom(acc + [d.value], hs[1..], defs)
  }

  /** The details of all entries `hs`. */
  function AllDetails(hs: seq<HumanEvalEntry>, defs: seq<Config.EvaluatorDef>): Result<seq<HumanEvaluatorDetails>>
  {
    DetailsFrom([], hs, defs)
  }

  /** The number of entries with an active evaluator. */
  function ActiveEntries(hs: seq<HumanEvalEntry>): nat
    decreases |hs|
  {
    if hs == [] then 0 else (if HasActive(hs[0]) then 1 else 0) + ActiveEntries(hs[1..])
  }

  /** `d` is the details of some entry of `hs` with an active evaluator. */
  predicate FromActiveEntry(hs: seq<HumanEvalEntry>, defs: seq<Config.EvaluatorDef>, d: HumanEvaluatorDetails)
  {
    exists k :: 0 <= k < |hs| && HasActive(hs[k]) && DetailsOf(hs[k], defs) == Ok(d)
  }

  lemma FromActiveTail(hs: seq<HumanEvalEntry>, defs: seq<Config.EvaluatorDef>, d: HumanEvaluatorDetails)
    requires hs != [] && FromActiveEntry(hs[1..], defs, d)
    ensures FromActiveEntry(hs, defs, d)
  {
    var k :| 0 <= k < |hs[1..]| && HasActive(hs[1..][k]) && DetailsOf(hs[1..][k], defs) == Ok(d);
    assert hs[k + 1] == hs[1..][k];
  }

  /** Collecting keeps what was collected before and adds one record per
      entry with an active evaluator. */
  lemma {:induction false} DetailsFromLength(acc: seq<HumanEvaluatorDetails>, hs: seq<HumanEvalEntry>,
                                             defs: seq<Config.EvaluatorDef>)
    requires DetailsFrom(acc, hs, defs).Ok?
    ensures var r := DetailsFrom(acc, hs, defs).value;
      |r| == |acc| + ActiveEntries(hs) && r[..|acc|] == acc
    decreases |hs|
  {
    if hs != [] {
      var tail := hs[1..];
      var r := DetailsFrom(acc, hs, defs).value;
      var next := if HasActive(hs[0]) then acc + [DetailsOf(hs[0], defs).value] else acc;
      assert DetailsFrom(acc, hs, defs) == DetailsFrom(next, tail, defs);
      DetailsFromLength(next, tail, defs);
      assert r[..|acc|] == r[..|next|][..|acc|] == next[..|acc|];
    } else {
      assert acc[..|acc|] == acc;
    }
  }

  /** Every record added while collecting is the details of an entry with an
      active evaluator. */
  lemma {:induction false} DetailsFromOrigin(acc: seq<HumanEvaluatorDetails>, hs: seq<HumanEvalEntry>,
                                             defs: seq<Config.EvaluatorDef>, i: nat)
    requires DetailsFrom(acc, hs, defs).Ok?
    requires |acc| <= i < |DetailsFrom(acc, hs, defs).value|
    ensures FromActiveEntry(hs, defs, DetailsFrom(acc, hs, defs).value[i])
    decreases |hs|
  {
    if HasActive(hs[0]) && i == |acc| {
      var d := DetailsFromHead(acc, hs, defs, i);
      assert HasActive(hs[0]) && DetailsOf(hs[0], defs) == Ok(d);
    } else {
      var tail := hs[1..];
      var next := if HasActive(hs[0]) then acc + [DetailsOf(hs[0], defs).value] else acc;
      assert DetailsFrom(acc, hs, defs) == DetailsFrom(next, tail, defs);
      DetailsFromOrigin(next, tail, defs, i);
      FromActiveTail(hs, defs, DetailsFrom(acc, hs, defs).value[i]);
    }
  }

  /** The entries with an active evaluator, in order. */
  function ActiveOf(hs: seq<HumanEvalEntry>): (r: seq<HumanEvalEntry>)
    ensures |r| == ActiveEntries(hs)
    ensures forall k :: 0 <= k < |r| ==> HasActive(r[k])
    decreases |hs|
  {
    if hs == [] then [] else if HasActive(hs[0]) then [hs[0]] + ActiveOf(hs[1..]) else ActiveOf(hs[1..])
  }

  /** Past an active first entry, the k-th active entry is the (k-1)-th of the rest. */
  lemma ActiveOfShift(hs: seq<HumanEvalEntry>, k: nat)
    requires hs != [] && HasActive(hs[0]) && 0 < k < |ActiveOf(hs)|
    ensures ActiveOf(hs)[k] == ActiveOf(hs[1..])[k - 1]
  {
    assert ActiveOf(hs) == [hs[0]] + ActiveOf(hs[1..]);
  }

  /** An active first entry adds its details at the end of what was collected. */
  lemma DetailsFromHead(acc: seq<HumanEvaluatorDetails>, hs: seq<HumanEvalEntry>, defs: seq<Config.EvaluatorDef>,
                         j: nat) returns (d: HumanEvaluatorDetails)
    requires DetailsFrom(acc, hs, defs).Ok? && hs != [] && HasActive(hs[0]) && j == |acc|
    ensures j < |DetailsFrom(acc, hs, defs).value| && DetailsFrom(acc, hs, defs).value[j] == d
    ensures DetailsOf(hs[0], defs) == Ok(d)
  {
    var first := DetailsOf(hs[0], defs);
    var next := acc + [first.value];
    var r := DetailsFrom(acc, hs, defs).value;
    assert DetailsFrom(acc, hs, defs) == DetailsFrom(next, hs[1..], defs);
    DetailsFromLength(next, hs[1..], defs);
    assert r[j] == r[..|next|][j] == next[j] == first.value;
    d := first.value;
  }

  /** The k-th record added while collecting, `d`, at position `j` of the
      result, is the details of `e`, the k-th entry with an active evaluator. */
  lemma {:induction false} DetailsFromAt(acc: seq<HumanEvaluatorDetails>, hs: seq<HumanEvalEntry>,
                                         defs: seq<Config.EvaluatorDef>, k: nat, j: nat)
    returns (e: HumanEvalEntry, d: HumanEvaluatorDetails)
    requires DetailsFrom(acc, hs, defs).Ok?
    requires k < |ActiveOf(hs)| && j == |acc| + k
    ensures j < |DetailsFrom(acc, hs, defs).value| && DetailsFrom(acc, hs, defs).value[j] == d
    ensures e == ActiveOf(hs)[k] && HasActive(e) && DetailsOf(e, defs) == Ok(d)
    decreases |hs|
  {
    assert hs != [];
    var tail := hs[1..];
    var r := DetailsFrom(acc, hs, defs).value;
    if HasActive(hs[0]) {
      if k == 0 {
        d := DetailsFromHead(acc, hs, defs, j);
        assert ActiveOf(hs)[k] == hs[0];
        e := hs[0];
      } else {
        var next := acc + [DetailsOf(hs[0], defs).value];
        assert DetailsFrom(acc, hs, defs) == DetailsFrom(next, tail, defs);
        e, d := DetailsFromAt(next, tail, defs, k - 1, j);
        ActiveOfShift(hs, k);
      }
    } else {
      assert DetailsFrom(acc, hs, defs) == DetailsFrom(acc, tail, defs);
      assert ActiveOf(hs) == ActiveOf(tail);
      e, d := DetailsFromAt(acc, tail, defs, k, j);
    }
  }

  /** One details record per entry with an active evaluator, in order: the
      k-th record is the details of the k-th such entry. */
  lemma AllDetailsShape(hs: seq<HumanEvalEntry>, defs: seq<Config.EvaluatorDef>)
    requires AllDetails(hs, defs).Ok?
    ensures |AllDetails(hs, defs).value| == ActiveEntries(hs)
    ensures forall d :: d in AllDetails(hs, defs).value ==>
      exists k :: 0 <= k < |hs| && HasActive(hs[k]) && DetailsOf(hs[k], defs) == Ok(d)
    ensures forall k :: 0 <= k < |ActiveOf(hs)| ==>
      DetailsOf(ActiveOf(hs)[k], defs) == Ok(AllDetails(hs, defs).value[k])
  {
    DetailsFromLength([], hs, defs);
    forall k | 0 <= k < |ActiveOf(hs)|
      ensures DetailsOf(ActiveOf(hs)[k], defs) == Ok(AllDetails(hs, defs).value[k])
    {
      var e, d := DetailsFromAt([], hs, defs, k, k);
    }
    var r := AllDetails(hs, defs).value;
    forall d | d in r
      ensures exists k :: 0 <= k < |hs| && HasActive(hs[k]) && DetailsOf(hs[k], defs) == Ok(d)
    {
      var i :| 0 <= i < |r| && r[i] == d;
      DetailsFromOrigin([], hs, defs, i);
    }
  }

  /** get_human_evaluator_info: the loop over entries. */
  method GetHumanEvaluatorInfo(c: HumanEvalConfig) returns (r: Result<seq<HumanEvaluatorDetails>>)
    ensures r == AllDetails(c.humanEval, c.evaluators)
  {
    var details := [];
    for i := 0 to |c.humanEval|
      invariant DetailsFrom(details, c.humanEval[i..], c.evaluators) == AllDetails(c.humanEval, c.evaluators)
    {
      ghost var rest := c.humanEval[i..];
      assert rest[0] == c.humanEval[i] && rest[1..] == c.humanEval[i + 1..];
      if HasActive(c.humanEval[i]) {
        var d := DetailsOf(c.humanEval[i], c.evaluators);
        if d.Err? {
          return Err(d.error);
        }
        details := details + [d.value];
      }
    }
    assert c.humanEval[|c.humanEval|..] == [];
    r := Ok(details);
  }
}
