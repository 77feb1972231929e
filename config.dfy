// The configuration builders of the evaluation pipeline
// (src/common/config_handler.py and
// postprod-eval/src/llmevalgrader/common/config_handler.py): the loaded YAML
// configuration, given here as entries with the keys the builders read,
// becomes App, Evaluator and Transformer entities. A lookup the source lets
// fail (no parent bot, no evaluator definition) is an error result.
module Config {
  import opened Tables
  import opened EvalEntities
  import Entities

  /** One metric of an evaluator definition. */
  datatype MetricEntry = MetricEntry(name: string, valueType: string, allowedValues: seq<Value>)

  /** An entry of the `evaluators` list; absent optional keys are None, absent
      metrics an empty list. */
  datatype EvaluatorDef = EvaluatorDef(name: string, evaluatorType: Option<string>, flowPath: Option<string>,
                                       version: Value, metrics: seq<MetricEntry>)

  /** An evaluator attached to an app. */
  datatype EvaluatorRef = EvaluatorRef(name: string, active: Option<string>, endpointName: string,
                                       schedule: string, scheduleStartTime: string)

  /** An entry of the `apps` list; absent evaluators are an empty list. */
  datatype AppEntry = AppEntry(name: string, appType: string, parentName: string, evaluators: seq<EvaluatorRef>)

  datatype EvaluationConfig = EvaluationConfig(apps: seq<AppEntry>, evaluators: seq<EvaluatorDef>)

  /** Which copy of the builder: the one that resolves parent apps and their
      bot, or the one whose apps carry only a name and a type. */
  datatype Variant = WithParents | NameAndType

  // ---------------------------------------------------------------------
  // get_parent_app_bot_name

  /** The index of the first app whose lowercased name is `name`. */
  function FirstNamed(apps: seq<AppEntry>, name: string): (r: Option<nat>)
    ensures r.Some? ==> r.value < |apps| && ToLower(apps[r.value].name) == name &&
                        forall k :: 0 <= k < r.value ==> ToLower(apps[k].name) != name
    ensures r.None? ==> forall k :: 0 <= k < |apps| ==> ToLower(apps[k].name) != name
  {
    if apps == [] then None
    else if ToLower(apps[0].name) == name then Some(0)
    else
      var r := FirstNamed(apps[1..], name);
      if r.Some? then Some(r.value + 1) else None
  }

  /** The first app named `name` is a bot. */
  predicate IsBot(apps: seq<AppEntry>, name: string)
  {
    var i := FirstNamed(apps, name);
    i.Some? && ToLower(apps[i.value].appType) == "bot"
  }

  /** get_parent_app_bot_name: follow parent names from `name` until the first
      app of that name is a bot. A chain of parents can loop, so the search
      gives up after `fuel` steps. */
  function ParentBotName(apps: seq<AppEntry>, name: string, fuel: nat): (r: Option<string>)
    ensures r.Some? ==> IsBot(apps, r.value)
    ensures IsBot(apps, name) ==> r == Some(name)
    ensures FirstNamed(apps, name).None? ==> r.None?
    decreases fuel
  {
    var i := FirstNamed(apps, name);
    if i.None? then None
    else if ToLower(apps[i.value].appType) == "bot" then Some(name)
    else if fuel == 0 then None
    else ParentBotName(apps, ToLower(apps[i.value].parentName), fuel - 1)
  }

  /** More fuel never changes a name that was found. */
  lemma {:induction false} ParentBotNameMoreFuel(apps: seq<AppEntry>, name: string, f1: nat, f2: nat)
    requires f1 <= f2
    requires ParentBotName(apps, name, f1).Some?
    ensures ParentBotName(apps, name, f2) == ParentBotName(apps, name, f1)
    decreases f1
  {
    var i := FirstNamed(apps, name);
    if ToLower(apps[i.value].appType) != "bot" {
      ParentBotNameMoreFuel(apps, ToLower(apps[i.value].parentName), f1 - 1, f2 - 1);
    }
  }

  /** An app that is not a bot has the bot of its parent. */
  lemma ParentBotNameOfChild(apps: seq<AppEntry>, name: string, fuel: nat)
    requires FirstNamed(apps, name).Some? && !IsBot(apps, name)
    ensures fuel > 0 ==>
      ParentBotName(apps, name, fuel) == ParentBotName(apps, ToLower(apps[FirstNamed(apps, name).value].parentName), fuel - 1)
    ensures fuel == 0 ==> ParentBotName(apps, name, fuel).None?
  {
  }

  /** The number of parent steps a successful search takes. */
  function BotHops(apps: seq<AppEntry>, name: string, fuel: nat): (h: nat)
    requires ParentBotName(apps, name, fuel).Some?
    ensures h <= fuel
    decreases fuel
  {
    var i := FirstNamed(apps, name);
    if ToLower(apps[i.value].appType) == "bot" then 0
    else 1 + BotHops(apps, ToLower(apps[i.value].parentName), fuel - 1)
  }

  /** The number of steps depends on the name alone, not on the fuel. */
  lemma {:induction false} BotHopsOfName(apps: seq<AppEntry>, name: string, f1: nat, f2: nat)
    requires ParentBotName(apps, name, f1).Some? && ParentBotName(apps, name, f2).Some?
    ensures BotHops(apps, name, f1) == BotHops(apps, name, f2)
    decreases f1
  {
    var i := FirstNamed(apps, name);
    if ToLower(apps[i.value].appType) != "bot" {
      BotHopsOfName(apps, ToLower(apps[i.value].parentName), f1 - 1, f2 - 1);
    }
  }

  /** Fuel for exactly the steps taken finds the same bot. */
  lemma {:induction false} BotHopsEnough(apps: seq<AppEntry>, name: string, fuel: nat)
    requires ParentBotName(apps, name, fuel).Some?
    ensures ParentBotName(apps, name, BotHops(apps, name, fuel)) == ParentBotName(apps, name, fuel)
    decreases fuel
  {
    var i := FirstNamed(apps, name);
    if ToLower(apps[i.value].appType) != "bot" {
      BotHopsEnough(apps, ToLower(apps[i.value].parentName), fuel - 1);
    }
  }

  /** The names a successful search visits, from `name` to the bot's. */
  function BotPath(apps: seq<AppEntry>, name: string, fuel: nat): (p: seq<string>)
    requires ParentBotName(apps, name, fuel).Some?
    ensures |p| == BotHops(apps, name, fuel) + 1 && p[0] == name
    decreases fuel
  {
    var i := FirstNamed(apps, name);
    if ToLower(apps[i.value].appType) == "bot" then [name]
    else [name] + BotPath(apps, ToLower(apps[i.value].parentName), fuel - 1)
  }

  /** The k-th name on the path, `x`, is itself found with the fuel `f` left
      there, k steps from the end. */
  lemma {:induction false} BotPathStep(apps: seq<AppEntry>, name: string, fuel: nat, k: nat) returns (x: string, f: nat)
    requires ParentBotName(apps, name, fuel).Some? && k < |BotPath(apps, name, fuel)|
    ensures x == BotPath(apps, name, fuel)[k] && f + k == fuel
    ensures ParentBotName(apps, x, f).Some? && BotHops(apps, x, f) + k == BotHops(apps, name, fuel)
    decreases fuel
  {
    if k == 0 {
      x, f := name, fuel;
    } else {
      var i := FirstNamed(apps, name);
      var parent := ToLower(apps[i.value].parentName);
      assert BotPath(apps, name, fuel) == [name] + BotPath(apps, parent, fuel - 1);
      assert BotHops(apps, name, fuel) == 1 + BotHops(apps, parent, fuel - 1);
      x, f := BotPathStep(apps, parent, fuel - 1, k - 1);
    }
  }

  /** Two searches from one name that succeed take the same number of steps. */
  lemma HopsClash(apps: seq<AppEntry>, x: string, y: string, f1: nat, f2: nat, a: nat, b: nat, h: nat)
    requires ParentBotName(apps, x, f1).Some? && ParentBotName(apps, y, f2).Some?
    requires BotHops(apps, x, f1) + a == h && BotHops(apps, y, f2) + b == h
    requires x == y
    ensures a == b
  {
    BotHopsOfName(apps, x, f1, f2);
  }

  /** The path never visits a name twice: from a repeated name the search
      would need two different step counts. */
  lemma BotPathDistinct(apps: seq<AppEntry>, name: string, fuel: nat, a: nat, b: nat)
    requires ParentBotName(apps, name, fuel).Some?
    requires a < b < |BotPath(apps, name, fuel)|
    ensures BotPath(apps, name, fuel)[a] != BotPath(apps, name, fuel)[b]
  {
    var x, f1 := BotPathStep(apps, name, fuel, a);
    var y, f2 := BotPathStep(apps, name, fuel, b);
    if x == y {
      HopsClash(apps, x, y, f1, f2, a, b, BotHops(apps, name, fuel));
    }
  }

  /** The lowercased app names. */
  function NameSet(apps: seq<AppEntry>): set<string>
  {
    set k | 0 <= k < |apps| :: ToLower(apps[k].name)
  }

  lemma {:induction false} NameSetSize(apps: seq<AppEntry>)
    ensures |NameSet(apps)| <= |apps|
    decreases |apps|
  {
    if apps != [] {
      var n := |apps| - 1;
      NameSetSize(apps[..n]);
      assert NameSet(apps) == NameSet(apps[..n]) + {ToLower(apps[n].name)} by {
        forall x | x in NameSet(apps) ensures x in NameSet(apps[..n]) + {ToLower(apps[n].name)} {
          var k :| 0 <= k < |apps| && ToLower(apps[k].name) == x;
          if k < n { assert apps[..n][k] == apps[k]; }
        }
        forall x | x in NameSet(apps[..n]) ensures x in NameSet(apps) {
          var k :| 0 <= k < n && ToLower(apps[..n][k].name) == x;
          assert apps[k] == apps[..n][k];
        }
      }
    }
  }

  /** A sequence without repeats has as many distinct elements as entries. */
  lemma {:induction false} DistinctSize(p: seq<string>)
    requires forall a, b :: 0 <= a < b < |p| ==> p[a] != p[b]
    ensures |set x | x in p| == |p|
    decreases |p|
  {
    if p != [] {
      var n := |p| - 1;
      DistinctSize(p[..n]);
      assert (set x | x in p) == (set x | x in p[..n]) + {p[n]} by {
        forall x | x in p ensures x in p[..n] || x == p[n] {
          var k :| 0 <= k < |p| && p[k] == x;
          if k < n { assert p[..n][k] == x; }
        }
      }
      assert p[n] !in p[..n] by {
        forall k | 0 <= k < n ensures p[..n][k] != p[n] { assert p[..n][k] == p[k]; }
      }
    }
  }

  lemma SubsetSize(a: set<string>, b: set<string>)
    requires a <= b
    ensures |a| <= |b|
    decreases |a|
  {
    if a != {} {
      var x :| x in a;
      SubsetSize(a - {x}, b - {x});
    }
  }

  /** Fuel equal to the number of apps loses nothing: every bot some fuel
      finds is found with it (a path visits distinct app names, so it is
      shorter than the list), and more fuel finds nothing new. The bound
      cuts only parent chains that loop without reaching a bot, where the
      source recurses without end. */
  lemma ParentBotNameFuelSuffices(apps: seq<AppEntry>, name: string, fuel: nat)
    ensures ParentBotName(apps, name, fuel).Some? ==>
      ParentBotName(apps, name, |apps|) == ParentBotName(apps, name, fuel)
    ensures fuel >= |apps| ==> ParentBotName(apps, name, fuel) == ParentBotName(apps, name, |apps|)
  {
    if ParentBotName(apps, name, fuel).Some? {
      var p := BotPath(apps, name, fuel);
      forall a, b | 0 <= a < b < |p| ensures p[a] != p[b] {
        BotPathDistinct(apps, name, fuel, a, b);
      }
      forall x | x in p ensures x in NameSet(apps) {
        var k :| 0 <= k < |p| && p[k] == x;
        var y, f := BotPathStep(apps, name, fuel, k);
        var i := FirstNamed(apps, y).value;
        assert ToLower(apps[i].name) == y;
      }
      DistinctSize(p);
      SubsetSize((set x | x in p), NameSet(apps));
      NameSetSize(apps);
      var h := BotHops(apps, name, fuel);
      BotHopsEnough(apps, name, fuel);
      ParentBotNameMoreFuel(apps, name, h, |apps|);
    } else if fuel >= |apps| && ParentBotName(apps, name, |apps|).Some? {
      ParentBotNameMoreFuel(apps, name, |apps|, fuel);
    }
  }

  // ---------------------------------------------------------------------
  // get_evaluator_info

  /** The App of an app entry: name and parent lowercased, and the parent's bot
      lowercased; an error when the parent has no bot. */
  function AppFor(e: AppEntry, apps: seq<AppEntry>, fuel: nat, v: Variant): (r: Result<App>)
    ensures r.Ok? ==> r.value.appName == ToLower(e.name) && r.value.appType == e.appType
    ensures v == WithParents ==>
      (r.Ok? <==> ParentBotName(apps, ToLower(e.parentName), fuel).Some?) &&
      (r.Ok? ==> r.value.parentAppName == Some(ToLower(e.parentName)) &&
                 r.value.parentAppBotName == Some(ToLower(ParentBotName(apps, ToLower(e.parentName), fuel).value)))
    ensures v == NameAndType ==> r.Ok? && r.value.parentAppName.None?
  {
    if v == NameAndType then Ok(App(ToLower(e.name), None, e.appType, None, None, None))
    else
      var parent := ToLower(e.parentName);
      var bot := ParentBotName(apps, parent, fuel);
      if bot.None? then Err("the parent app has no bot")
      else Ok(App(ToLower(e.name), Some(parent), e.appType, Some(ToLower(bot.value)), None, None))
  }

  predicate IsActive(r: EvaluatorRef)
  {
    r.active == Some("true")
  }

  /** The evaluators of an app whose `active` is the string "true", in order. */
  function ActiveRefs(refs: seq<EvaluatorRef>): (a: seq<EvaluatorRef>)
    ensures forall r :: r in a <==> r in refs && IsActive(r)
  {
    Filter(refs, IsActive)
  }

  /** The first definition with the given name (`next(..., None)`). */
  function FindDef(defs: seq<EvaluatorDef>, name: string): (r: Option<EvaluatorDef>)
    ensures r.Some? ==> r.value in defs && r.value.name == name
    ensures r.None? ==> forall d :: d in defs ==> d.name != name
    ensures r.Some? ==> exists k :: 0 <= k < |defs| && defs[k] == r.value &&
                                    forall j :: 0 <= j < k ==> defs[j].name != name
  {
    if defs == [] then None
    else if defs[0].name == name then Some(defs[0])
    else
      var r := FindDef(defs[1..], name);
      if r.Some? then
        var k :| 0 <= k < |defs[1..]| && defs[1..][k] == r.value && forall j :: 0 <= j < k ==> defs[1..][j].name != name;
        assert defs[k + 1] == r.value;
        r
      else None
  }

  function BuildMetric(m: MetricEntry): (r: Metric)
    ensures r.metricName == m.name && r.metricType == m.valueType && r.metricAllowedValues == m.allowedValues
    ensures r.metricId.None?
  {
    Metric(m.name, m.valueType, m.allowedValues, None)
  }

  function BuildMetrics(ms: seq<MetricEntry>): (r: seq<Metric>)
    ensures |r| == |ms| && forall k :: 0 <= k < |ms| ==> r[k] == BuildMetric(ms[k])
  {
    seq(|ms|, k requires 0 <= k < |ms| => BuildMetric(ms[k]))
  }

  /** An Evaluator: its name, endpoint and schedule from the app's entry; its
      type, flow path, metrics and version from the definition. */
  function BuildEvaluator(r: EvaluatorRef, d: EvaluatorDef, app: App): (e: Evaluator)
    ensures e.evaluatorName == r.name && e.evaluationEndpoint == Some(r.endpointName)
    ensures e.evaluationSchedule == Some(r.schedule) && e.evaluationScheduleStartTime == Some(r.scheduleStartTime)
    ensures e.evaluatorType == d.evaluatorType && e.evaluationFlowPath == d.flowPath
    ensures e.evaluationMetrics == BuildMetrics(d.metrics) && e.evaluationMetricsVersion == d.version
    ensures e.app == app
  {
    Evaluator(r.name, d.evaluatorType, d.flowPath, Some(r.endpointName), Some(r.schedule), Some(r.scheduleStartTime),
              BuildMetrics(d.metrics), d.version, app)
  }

  /** The evaluators built for one app's active entries; an error when one has
      no definition. */
  function EvaluatorsFor(active: seq<EvaluatorRef>, defs: seq<EvaluatorDef>, app: App): (r: Result<seq<Evaluator>>)
    ensures r.Ok? ==> (|r.value| == |active| &&
                       forall k :: 0 <= k < |active| ==>
                         FindDef(defs, active[k].name).Some? &&
                         r.value[k] == BuildEvaluator(active[k], FindDef(defs, active[k].name).value, app))
    ensures r.Err? ==> exists k :: 0 <= k < |active| && FindDef(defs, active[k].name).None?
    decreases |active|
  {
    if active == [] then Ok([])
    else
      var n := |active| - 1;
      var prev := EvaluatorsFor(active[..n], defs, app);
      if prev.Err? then
        var k :| 0 <= k < |active[..n]| && FindDef(defs, active[..n][k].name).None?;
        assert active[k] == active[..n][k];
        prev
      else
        var d := FindDef(defs, active[n].name);
        if d.None? then Err("no definition for the evaluator")
        else
          assert forall k :: 0 <= k < n ==> active[..n][k] == active[k];
          Ok(prev.value + [BuildEvaluator(active[n], d.value, app)])
  }

  /** The number of active evaluators over a list of apps. */
  function ActiveCount(apps: seq<AppEntry>): nat
    decreases |apps|
  {
    if apps == [] then 0 else |ActiveRefs(apps[0].evaluators)| + ActiveCount(apps[1..])
  }

  /** Every evaluator's app name is lowercase. */
  predicate LowerAppNames(es: seq<Evaluator>)
  {
    forall k :: 0 <= k < |es| ==> ToLower(es[k].app.appName) == es[k].app.appName
  }

  /** The evaluators of the apps `apps` after the evaluators `acc` already
      built, app after app; the first failing app ends with its error. */
  function EvaluatorsFrom(acc: seq<Evaluator>, apps: seq<AppEntry>, c: EvaluationConfig, fuel: nat, v: Variant):
    (r: Result<seq<Evaluator>>)
    ensures r.Ok? ==> |r.value| == |acc| + ActiveCount(apps)
    ensures r.Ok? && LowerAppNames(acc) ==> LowerAppNames(r.value)
    decreases |apps|
  {
    if apps == [] then Ok(acc)
    else
      var app := AppFor(apps[0], c.apps, fuel, v);
      if app.Err? then Err(app.error)
      else
        var es := EvaluatorsFor(ActiveRefs(apps[0].evaluators), c.evaluators, app.value);
        if es.Err? then Err(es.error)
        else
          ToLowerIdempotent(apps[0].name);
          assert LowerAppNames(acc) ==> LowerAppNames(acc + es.value) by {
            if LowerAppNames(acc) {
              forall k | 0 <= k < |acc + es.value|
                ensures ToLower((acc + es.value)[k].app.appName) == (acc + es.value)[k].app.appName
              {
                if k >= |acc| { assert (acc + es.value)[k] == es.value[k - |acc|]; }
              }
            }
          }
          EvaluatorsFrom(acc + es.value, apps[1..], c, fuel, v)
  }

  /** The app's App record builds, and every one of its active entries has a
      definition. */
  predicate AppBuilds(e: AppEntry, c: EvaluationConfig, fuel: nat, v: Variant)
  {
    AppFor(e, c.apps, fuel, v).Ok? &&
    EvaluatorsFor(ActiveRefs(e.evaluators), c.evaluators, AppFor(e, c.apps, fuel, v).value).Ok?
  }

  /** The evaluators of one app that builds. */
  function AppEvaluatorList(e: AppEntry, c: EvaluationConfig, fuel: nat, v: Variant): seq<Evaluator>
    requires AppBuilds(e, c, fuel, v)
  {
    EvaluatorsFor(ActiveRefs(e.evaluators), c.evaluators, AppFor(e, c.apps, fuel, v).value).value
  }

  /** Every app of the list builds. */
  predicate AppsBuild(apps: seq<AppEntry>, c: EvaluationConfig, fuel: nat, v: Variant)
  {
    forall i :: 0 <= i < |apps| ==> AppBuilds(apps[i], c, fuel, v)
  }

  /** The evaluators of each app, app after app, without an accumulator. */
  function EvaluatorsOfApps(apps: seq<AppEntry>, c: EvaluationConfig, fuel: nat, v: Variant): seq<Evaluator>
    requires AppsBuild(apps, c, fuel, v)
    decreases |apps|
  {
    if apps == [] then []
    else
      AppsBuildTail(apps, c, fuel, v);
      AppEvaluatorList(apps[0], c, fuel, v) + EvaluatorsOfApps(apps[1..], c, fuel, v)
  }

  /** A list of apps builds when its first app and the rest build. */
  lemma AppsBuildTail(apps: seq<AppEntry>, c: EvaluationConfig, fuel: nat, v: Variant)
    requires apps != []
    ensures AppsBuild(apps, c, fuel, v) <==> AppBuilds(apps[0], c, fuel, v) && AppsBuild(apps[1..], c, fuel, v)
  {
    var rest := apps[1..];
    assert forall i :: 0 <= i < |rest| ==> rest[i] == apps[i + 1];
    if AppBuilds(apps[0], c, fuel, v) && AppsBuild(rest, c, fuel, v) {
      forall i | 0 <= i < |apps| ensures AppBuilds(apps[i], c, fuel, v) {
        if i > 0 { assert apps[i] == rest[i - 1]; }
      }
    }
  }

  /** One round of the accumulating loop: the first app's evaluators join
      those built, or the loop fails there. */
  lemma EvaluatorsFromStep(acc: seq<Evaluator>, apps: seq<AppEntry>, c: EvaluationConfig, fuel: nat, v: Variant)
    requires apps != []
    ensures AppBuilds(apps[0], c, fuel, v) ==>
      EvaluatorsFrom(acc, apps, c, fuel, v) == EvaluatorsFrom(acc + AppEvaluatorList(apps[0], c, fuel, v), apps[1..], c, fuel, v)
    ensures !AppBuilds(apps[0], c, fuel, v) ==> EvaluatorsFrom(acc, apps, c, fuel, v).Err?
  {
  }

  /** The evaluators of a non-empty list of apps: the first app's, then the rest's. */
  lemma EvaluatorsOfAppsHead(apps: seq<AppEntry>, c: EvaluationConfig, fuel: nat, v: Variant)
    requires apps != [] && AppsBuild(apps, c, fuel, v)
    ensures AppBuilds(apps[0], c, fuel, v) && AppsBuild(apps[1..], c, fuel, v)
    ensures EvaluatorsOfApps(apps, c, fuel, v) ==
            AppEvaluatorList(apps[0], c, fuel, v) + EvaluatorsOfApps(apps[1..], c, fuel, v)
  {
    AppsBuildTail(apps, c, fuel, v);
  }

  /** Concatenation regroups. */
  lemma AppendAssoc<T>(a: seq<T>, b: seq<T>, d: seq<T>)
    ensures a + b + d == a + (b + d)
  {
  }

  /** The accumulating loop succeeds exactly when every app builds. */
  lemma {:induction false} EvaluatorsFromOk(acc: seq<Evaluator>, apps: seq<AppEntry>, c: EvaluationConfig, fuel: nat,
                                            v: Variant)
    ensures EvaluatorsFrom(acc, apps, c, fuel, v).Ok? <==> AppsBuild(apps, c, fuel, v)
    decreases |apps|
  {
    if apps != [] {
      AppsBuildTail(apps, c, fuel, v);
      EvaluatorsFromStep(acc, apps, c, fuel, v);
      if AppBuilds(apps[0], c, fuel, v) {
        EvaluatorsFromOk(acc + AppEvaluatorList(apps[0], c, fuel, v), apps[1..], c, fuel, v);
      }
    }
  }

  /** When every app builds, the accumulating loop appends the evaluators of
      every app, in order, to those already built. */
  lemma {:induction false} EvaluatorsFromValue(acc: seq<Evaluator>, apps: seq<AppEntry>, c: EvaluationConfig, fuel: nat,
                                               v: Variant)
    requires AppsBuild(apps, c, fuel, v)
    ensures EvaluatorsFrom(acc, apps, c, fuel, v) == Ok(acc + EvaluatorsOfApps(apps, c, fuel, v))
    decreases |apps|
  {
    if apps != [] {
      AppsBuildTail(apps, c, fuel, v);
      EvaluatorsFromStep(acc, apps, c, fuel, v);
      var es := AppEvaluatorList(apps[0], c, fuel, v);
      var tail := EvaluatorsOfApps(apps[1..], c, fuel, v);
      EvaluatorsFromValue(acc + es, apps[1..], c, fuel, v);
      EvaluatorsOfAppsHead(apps, c, fuel, v);
      AppendAssoc(acc, es, tail);
    } else {
      assert acc + [] == acc;
    }
  }

  /** The evaluators of all apps `apps`: an error unless every app builds and
      every active entry has a definition, else the evaluators of each app in
      turn. */
  function ConfigEvaluators(apps: seq<AppEntry>, c: EvaluationConfig, fuel: nat, v: Variant): (r: Result<seq<Evaluator>>)
    ensures r.Ok? ==> |r.value| == ActiveCount(apps)
    ensures r.Ok? ==> forall k :: 0 <= k < |r.value| ==> ToLower(r.value[k].app.appName) == r.value[k].app.appName
  {
    EvaluatorsFrom([], apps, c, fuel, v)
  }

  /** get_evaluator_info fails exactly when some app's record cannot be built
      or one of its active entries has no definition; otherwise it gives the
      evaluators of each app in turn. */
  lemma ConfigEvaluatorsExact(apps: seq<AppEntry>, c: EvaluationConfig, fuel: nat, v: Variant)
    ensures ConfigEvaluators(apps, c, fuel, v).Ok? <==> AppsBuild(apps, c, fuel, v)
    ensures AppsBuild(apps, c, fuel, v) ==> ConfigEvaluators(apps, c, fuel, v) == Ok(EvaluatorsOfApps(apps, c, fuel, v))
  {
    EvaluatorsFromOk([], apps, c, fuel, v);
    if AppsBuild(apps, c, fuel, v) {
      EvaluatorsFromValue([], apps, c, fuel, v);
      assert [] + EvaluatorsOfApps(apps, c, fuel, v) == EvaluatorsOfApps(apps, c, fuel, v);
    }
  }

  /** The inner loop of get_evaluator_info over one app's active evaluators. */
  method AppEvaluators(active: seq<EvaluatorRef>, defs: seq<EvaluatorDef>, app: App) returns (r: Result<seq<Evaluator>>)
    ensures r == EvaluatorsFor(active, defs, app)
  {
    var evaluators := [];
    for i := 0 to |active|
      invariant EvaluatorsFor(active[..i], defs, app) == Ok(evaluators)
    {
      assert active[..i + 1][..i] == active[..i];
      var d := FindDef(defs, active[i].name);
      if d.None? {
        assert active[..i + 1][i] == active[i];
        PrefixErr(active, defs, app, i + 1);
        return Err("no definition for the evaluator");
      }
      evaluators := evaluators + [BuildEvaluator(active[i], d.value, app)];
    }
    assert active[..|active|] == active;
    r := Ok(evaluators);
  }

  /** Once a prefix of the active entries fails, every longer prefix fails
      with the same error. */
  lemma {:induction false} PrefixErr(active: seq<EvaluatorRef>, defs: seq<EvaluatorDef>, app: App, i: nat)
    requires i <= |active|
    requires EvaluatorsFor(active[..i], defs, app).Err?
    ensures EvaluatorsFor(active, defs, app).Err?
    ensures EvaluatorsFor(active, defs, app).error == EvaluatorsFor(active[..i], defs, app).error
    decreases |active| - i
  {
    if i < |active| {
      var j := i + 1;
      assert active[..j][..i] == active[..i];
      PrefixErr(active, defs, app, j);
    } else {
      assert active[..i] == active;
    }
  }

  /** An app entry that builds under some fuel builds the same App with the
      number of apps as fuel. */
  lemma AppForFuel(e: AppEntry, apps: seq<AppEntry>, fuel: nat, v: Variant)
    ensures AppFor(e, apps, fuel, v).Ok? ==> AppFor(e, apps, |apps|, v) == AppFor(e, apps, fuel, v)
  {
    ParentBotNameFuelSuffices(apps, ToLower(e.parentName), fuel);
  }

  /** The evaluators built under some fuel are those built with the number of
      apps as fuel. */
  lemma {:induction false} EvaluatorsFromFuel(acc: seq<Evaluator>, apps: seq<AppEntry>, c: EvaluationConfig,
                                                fuel: nat, v: Variant)
    ensures EvaluatorsFrom(acc, apps, c, fuel, v).Ok? ==>
      EvaluatorsFrom(acc, apps, c, |c.apps|, v) == EvaluatorsFrom(acc, apps, c, fuel, v)
    decreases |apps|
  {
    if apps != [] {
      AppForFuel(apps[0], c.apps, fuel, v);
      var app := AppFor(apps[0], c.apps, fuel, v);
      if app.Ok? {
        var es := EvaluatorsFor(ActiveRefs(apps[0].evaluators), c.evaluators, app.value);
        if es.Ok? {
          EvaluatorsFromFuel(acc + es.value, apps[1..], c, fuel, v);
        }
      }
    }
  }

  /** get_evaluator_info: for each app, its App and then one Evaluator per
      active evaluator, in configuration order. The parent search runs with
      the number of apps as fuel, which by EvaluatorsFromFuel yields whatever
      any fuel yields. */
  method GetEvaluatorInfo(c: EvaluationConfig, v: Variant) returns (r: Result<seq<Evaluator>>)
    ensures r == ConfigEvaluators(c.apps, c, |c.apps|, v)
  {
    var fuel := |c.apps|;
    var evaluators := [];
    for i := 0 to |c.apps|
      invariant EvaluatorsFrom(evaluators, c.apps[i..], c, fuel, v) == ConfigEvaluators(c.apps, c, fuel, v)
    {
      ghost var rest := c.apps[i..];
      assert rest[0] == c.apps[i] && rest[1..] == c.apps[i + 1..];
      var app := AppFor(c.apps[i], c.apps, fuel, v);
      if app.Err? {
        return Err(app.error);
      }
      var es := AppEvaluators(ActiveRefs(c.apps[i].evaluators), c.evaluators, app.value);
      if es.Err? {
        return Err(es.error);
      }
      evaluators := evaluators + es.value;
    }
    assert c.apps[|c.apps|..] == [];
    r := Ok(evaluators);
  }

  /** An app's evaluators are the evaluators of its active entries, in order; the
      inactive ones never yield an Evaluator. */
  lemma ActiveOnly(refs: seq<EvaluatorRef>, defs: seq<EvaluatorDef>, app: App, e: Evaluator)
    requires EvaluatorsFor(ActiveRefs(refs), defs, app).Ok?
    requires e in EvaluatorsFor(ActiveRefs(refs), defs, app).value
    ensures exists r :: r in refs && IsActive(r) && r.name == e.evaluatorName
    ensures FindDef(defs, e.evaluatorName).Some? && e.evaluatorType == FindDef(defs, e.evaluatorName).value.evaluatorType
    ensures e.evaluationMetrics == BuildMetrics(FindDef(defs, e.evaluatorName).value.metrics)
  {
    var active := ActiveRefs(refs);
    var es := EvaluatorsFor(active, defs, app).value;
    var k :| 0 <= k < |es| && es[k] == e;
    assert active[k] in active;
  }

  // ---------------------------------------------------------------------
  // get_transformer_info (src/common/config_handler.py)

  /** A `mappings` entry: source, target and data type. */
  datatype ColumnEntry = ColumnEntry(source: string, target: string, dataType: string)

  datatype EvaluationTypeEntry = EvaluationTypeEntry(evaluation: string, distribution: Value)

  datatype TransformationEntry = TransformationEntry(name: string, appTypes: seq<Value>, sourceSchema: string,
                                                     sourceTable: string, mappings: seq<ColumnEntry>,
                                                     evaluationTypes: seq<EvaluationTypeEntry>,
                                                     endpointName: string, schedule: string,
                                                     scheduleStartTime: string)

  /** An entry of `transformation_config`; absent transformations are an empty list. */
  datatype BotEntry = BotEntry(botName: string, transformations: seq<TransformationEntry>)

  function BuildColumn(m: ColumnEntry): Entities.MappingColumn
  {
    Entities.MappingColumn(m.source, m.target, m.dataType)
  }

  /** One Transformer: one MappingColumn per mapping and one EvaluationType per
      evaluation type, both in order, and the bot's name. */
  function BuildTransformer(bot: BotEntry, t: TransformationEntry): (r: Transformer)
    ensures r.name == t.name && r.botName == bot.botName && r.appTypes == t.appTypes
    ensures r.sourceFactTable == t.sourceTable && r.sourceFactSchema == t.sourceSchema
    ensures r.endpoint == t.endpointName && r.schedule == t.schedule && r.scheduleStartTime == t.scheduleStartTime
    ensures |r.columns| == |t.mappings| && forall k :: 0 <= k < |t.mappings| ==>
      r.columns[k].sourceName == t.mappings[k].source && r.columns[k].targetName == t.mappings[k].target &&
      r.columns[k].dataType == t.mappings[k].dataType
    ensures |r.evaluationTypes| == |t.evaluationTypes| && forall k :: 0 <= k < |t.evaluationTypes| ==>
      r.evaluationTypes[k] == EvaluationType(t.evaluationTypes[k].evaluation, t.evaluationTypes[k].distribution)
  {
    Transformer(t.name, bot.botName, t.appTypes, t.sourceTable, t.sourceSchema, t.endpointName, t.schedule,
                t.scheduleStartTime,
                seq(|t.mappings|, k requires 0 <= k < |t.mappings| => BuildColumn(t.mappings[k])),
                seq(|t.evaluationTypes|, k requires 0 <= k < |t.evaluationTypes| =>
                  EvaluationType(t.evaluationTypes[k].evaluation, t.evaluationTypes[k].distribution)))
  }

  /** The transformers of the bots `bots`, bot after bot. */
  function Transformers(bots: seq<BotEntry>): (r: seq<Transformer>)
    decreases |bots|
  {
    if bots == [] then []
    else
      var b := bots[|bots| - 1];
      Transformers(bots[..|bots| - 1]) +
        seq(|b.transformations|, k requires 0 <= k < |b.transformations| => BuildTransformer(b, b.transformations[k]))
  }

  function TransformationCount(bots: seq<BotEntry>): nat
    decreases |bots|
  {
    if bots == [] then 0 else TransformationCount(bots[..|bots| - 1]) + |bots[|bots| - 1].transformations|
  }

  /** One transformer per transformation entry, each carrying its own bot's name. */
  lemma {:induction false} TransformersShape(bots: seq<BotEntry>)
    ensures |Transformers(bots)| == TransformationCount(bots)
    ensures forall t :: t in Transformers(bots) ==> exists b :: b in bots && t.botName == b.botName
    decreases |bots|
  {
    if bots != [] {
      var n := |bots| - 1;
      TransformersShape(bots[..n]);
      forall t | t in Transformers(bots) ensures exists b :: b in bots && t.botName == b.botName {
        if t in Transformers(bots[..n]) {
          var b :| b in bots[..n] && t.botName == b.botName;
          assert b in bots;
        } else {
          assert bots[n] in bots;
        }
      }
    }
  }

  /** The transformers come bot after bot, each bot's in the order of its
      transformations: the t-th transformation of the j-th bot is built after
      the transformations of the bots before it. */
  lemma {:induction false} TransformerAt(bots: seq<BotEntry>, j: nat, t: nat)
    requires j < |bots| && t < |bots[j].transformations|
    ensures TransformationCount(bots[..j]) + t < |Transformers(bots)|
    ensures Transformers(bots)[TransformationCount(bots[..j]) + t] == BuildTransformer(bots[j], bots[j].transformations[t])
    decreases |bots|
  {
    var n := |bots| - 1;
    TransformersShape(bots[..n]);
    if j == n {
      assert bots[..j] == bots[..n];
    } else {
      assert bots[..n][..j] == bots[..j] && bots[..n][j] == bots[j];
      TransformerAt(bots[..n], j, t);
    }
  }

  /** get_transformer_info: a nested loop over bots and their transformations. */
  method GetTransformerInfo(bots: seq<BotEntry>) returns (r: seq<Transformer>)
    ensures r == Transformers(bots)
  {
    r := [];
    for i := 0 to |bots|
      invariant r == Transformers(bots[..i])
    {
      assert bots[..i + 1][..i] == bots[..i];
      var b := bots[i];
      var built := [];
      for j := 0 to |b.transformations|
        invariant built == seq(j, k requires 0 <= k < j => BuildTransformer(b, b.transformations[k]))
      {
        built := built + [BuildTransformer(b, b.transformations[j])];
      }
      r := r + built;
    }
    assert bots[..|bots|] == bots;
  }

  // ---------------------------------------------------------------------
  // get_transformer_info (postprod-eval/src/llmevalgrader/common/config_handler.py)

  /** One transformer from a `transformation_config` entry: its data source and
      its mapping list are read back with their from_dict; any missing key or a
      failing from_dict fails. */
  function DataTransformer(info: Value): (r: Option<Entities.Transformer>)
    ensures r.Some? <==> (info.Dict? && "source" in info.fields &&
                          Entities.StrField(info, "name").Some? && Entities.StrField(info, "chatbot_name").Some? &&
                          Entities.StrField(info, "endpoint_name").Some? && Entities.StrField(info, "schedule").Some? &&
                          Entities.StrField(info, "schedule_start_time").Some? &&
                          Entities.DataSourceFromDict(info.fields["source"]).Some? &&
                          Entities.MappingListFromDict(info).Some?)
    ensures r.Some? ==> (info.Dict? && "source" in info.fields &&
                         Entities.DataSourceFromDict(info.fields["source"]) == Some(r.value.dataSource) &&
                         Entities.MappingListFromDict(info) == Some(r.value.mappingList) &&
                         Entities.StrField(info, "name") == Some(r.value.name) &&
                         Entities.StrField(info, "chatbot_name") == Some(r.value.chatbotName) &&
                         Entities.StrField(info, "endpoint_name") == Some(r.value.endpoint) &&
                         Entities.StrField(info, "schedule") == Some(r.value.schedule) &&
                         Entities.StrField(info, "schedule_start_time") == Some(r.value.scheduleStartTime))
  {
    var name := Entities.StrField(info, "name");
    var bot := Entities.StrField(info, "chatbot_name");
    var endpoint := Entities.StrField(info, "endpoint_name");
    var schedule := Entities.StrField(info, "schedule");
    var start := Entities.StrField(info, "schedule_start_time");
    if name.None? || bot.None? || endpoint.None? || schedule.None? || start.None? || "source" !in info.fields then None
    else
      var source := Entities.DataSourceFromDict(info.fields["source"]);
      var mappings := Entities.MappingListFromDict(info);
      if source.None? || mappings.None? then None
      else Some(Entities.Transformer(name.value, bot.value, source.value, mappings.value, endpoint.value,
                                     schedule.value, start.value))
  }

  /** The entries of `transformation_config`, or none when the key is absent. */
  function TransformationEntries(config: Value): (r: Option<seq<Value>>)
    ensures config.Dict? && "transformation_config" !in config.fields ==> r == Some([])
  {
    if !config.Dict? then None
    else if "transformation_config" !in config.fields then Some([])
    else if config.fields["transformation_config"].List? then Some(config.fields["transformation_config"].items)
    else None
  }

  /** get_transformer_info of the postprod copy: one Transformer per entry, in
      order; an entry that cannot be read fails the whole call. */
  method GetDataTransformerInfo(config: Value) returns (r: Option<seq<Entities.Transformer>>)
    ensures TransformationEntries(config).None? ==> r.None?
    ensures TransformationEntries(config).Some? ==>
      var es := TransformationEntries(config).value;
      (r.Some? <==> forall k :: 0 <= k < |es| ==> DataTransformer(es[k]).Some?) &&
      (r.Some? ==> |r.value| == |es| && forall k :: 0 <= k < |es| ==> Some(r.value[k]) == DataTransformer(es[k]))
  {
    var entries := TransformationEntries(config);
    if entries.None? {
      return None;
    }
    var es := entries.value;
    var transformers := [];
    for i := 0 to |es|
      invariant |transformers| == i
      invariant forall k :: 0 <= k < i ==> Some(transformers[k]) == DataTransformer(es[k])
    {
      var t := DataTransformer(es[i]);
      if t.None? {
        return None;
      }
      transformers := transformers + [t.value];
    }
    r := Some(transformers);
  }
}
