// The gold-zone reconciler of the transformation pipeline
// (src/transformation/goldzone_prep.py): METADATA keyed by
// (business_unit, super_category, vertical, pid), ROUTER_FUNCTION keyed by
// router_function, SESSION keyed by (session_id, conversation_id) with its
// time span, and the fact rows, which resolve the three surrogates and the
// application id, get a fresh evaluation_dataset_id each and are
// de-duplicated against the stored facts. Fresh UUIDs come from the supply
// `ids`; instants are integers.
module Goldzone {
  import opened Tables
  import opened Dimensions

  const MetadataCols: seq<string> := ["business_unit", "super_category", "vertical", "pid"]
  const RouterCols: seq<string> := ["router_function"]
  const SessionCols: seq<string> := ["session_id", "conversation_id"]
  /** The batch columns naming the application, and the DIM_APPLICATION index they are looked up in. */
  const AppCols: seq<string> := ["app_name", "app_type"]
  const AppIndex: seq<string> := ["name", "type"]
  /** The composite key of a fact row. */
  const FactCols: seq<string> := ["app_id", "session_id", "metadata_id", "transcript_id"]
  /** The batch columns removed from the fact rows. */
  const DroppedCols: set<string> :=
    {"business_unit", "super_category", "vertical", "pid", "app_name", "app_type", "conversation_id", "router_function"}

  /** The columns selected for the session spans. */
  const SessionSelect: seq<string> := ["session_id", "conversation_id", "query_time", "response_time"]
  /** The batch columns the fact step reads or drops unconditionally. */
  const FactInputCols: seq<string> :=
    ["business_unit", "super_category", "vertical", "pid", "app_name", "app_type", "conversation_id", "response_time"]
  /** The further batch columns the anti-join against stored facts reads. */
  const FactKeyInputCols: seq<string> := ["session_id", "transcript_id"]

  /** The key columns are distinct and disjoint from the columns added beside them. */
  lemma SchemaFacts()
    ensures NoDup(MetadataCols) && "metadata_id" !in MetadataCols
    ensures NoDup(RouterCols) && "router_function_id" !in RouterCols
    ensures NoDup(SessionCols) && "start_time" !in SessionCols && "end_time" !in SessionCols
    ensures "start_time" != "end_time"
  {
  }

  const AppNotFound: string :=
    "App name and type combination not found in existing app data. Please onboard the app first and then rerun the transformation pipeline."

  // ---------------------------------------------------------------------
  // Dimensions

  /** get_metadata: the METADATA table after the batch. */
  function GetMetadata(batch: Table, existing: Table, ids: seq<string>): Table
    requires HasColumns(batch, MetadataCols)
    requires |ids| >= |DistinctKeys(batch, MetadataCols)|
  {
    SchemaFacts();
    BuildDimension(batch, existing, MetadataCols, "metadata_id", ids)
  }

  /** With no stored metadata: one row per distinct batch tuple, each with its fresh id. */
  lemma GetMetadataFresh(batch: Table, existing: Table, ids: seq<string>)
    requires HasColumns(batch, MetadataCols)
    requires |ids| >= |DistinctKeys(batch, MetadataCols)|
    requires |existing| == 0
    ensures var r := GetMetadata(batch, existing, ids);
      |r| == |DistinctKeys(batch, MetadataCols)| && NoDup(Keys(r, MetadataCols)) &&
      (forall key :: HasKey(r, MetadataCols, key) <==> HasKey(batch, MetadataCols, key)) &&
      (forall i :: 0 <= i < |r| ==> Cell(r[i], "metadata_id") == Str(ids[i]))
  {
    SchemaFacts();
    BuildDimensionFresh(batch, existing, MetadataCols, "metadata_id", ids);
  }

  /** With stored metadata: every stored row is kept unchanged, only tuples not
      stored are appended, and stored tuples keep their metadata_id. */
  lemma GetMetadataKeepsExisting(batch: Table, existing: Table, ids: seq<string>, key: seq<Value>)
    requires HasColumns(batch, MetadataCols)
    requires |ids| >= |DistinctKeys(batch, MetadataCols)|
    ensures var r := GetMetadata(batch, existing, ids);
      r[..|existing|] == existing &&
      (forall i :: |existing| <= i < |r| ==> !HasKey(existing, MetadataCols, Key(r[i], MetadataCols))) &&
      (HasKey(r, MetadataCols, key) <==> HasKey(existing, MetadataCols, key) || HasKey(batch, MetadataCols, key)) &&
      (NoDup(Keys(existing, MetadataCols)) ==> NoDup(Keys(r, MetadataCols)))
    ensures HasKey(existing, MetadataCols, key) ==>
      Lookup(GetMetadata(batch, existing, ids), MetadataCols, key, "metadata_id") ==
      Lookup(existing, MetadataCols, key, "metadata_id")
  {
    SchemaFacts();
    BuildDimensionKeeps(batch, existing, MetadataCols, "metadata_id", ids);
    if HasKey(existing, MetadataCols, key) {
      BuildDimensionStable(batch, existing, MetadataCols, "metadata_id", ids, key);
    }
  }

  /** get_router_function_data: the ROUTER_FUNCTION table after the batch. The
      batch must carry router_function: the column is read before the 'NA'
      default of the fact step is applied. */
  function GetRouterFunctionData(batch: Table, existing: Table, ids: seq<string>): Table
    requires HasColumns(batch, RouterCols)
    requires |ids| >= |DistinctKeys(batch, RouterCols)|
  {
    SchemaFacts();
    BuildDimension(batch, existing, RouterCols, "router_function_id", ids)
  }

  /** The router table follows the same keep-existing, append-new-only rule. */
  lemma GetRouterFunctionDataKeepsExisting(batch: Table, existing: Table, ids: seq<string>, key: seq<Value>)
    requires HasColumns(batch, RouterCols)
    requires |ids| >= |DistinctKeys(batch, RouterCols)|
    ensures var r := GetRouterFunctionData(batch, existing, ids);
      r[..|existing|] == existing &&
      (forall i :: |existing| <= i < |r| ==> !HasKey(existing, RouterCols, Key(r[i], RouterCols))) &&
      (HasKey(r, RouterCols, key) <==> HasKey(existing, RouterCols, key) || HasKey(batch, RouterCols, key)) &&
      (NoDup(Keys(existing, RouterCols)) ==> NoDup(Keys(r, RouterCols)))
    ensures |existing| == 0 ==>
      var r := GetRouterFunctionData(batch, existing, ids);
      |r| == |DistinctKeys(batch, RouterCols)| &&
      forall i :: 0 <= i < |r| ==> Cell(r[i], "router_function_id") == Str(ids[i])
    ensures HasKey(existing, RouterCols, key) ==>
      Lookup(GetRouterFunctionData(batch, existing, ids), RouterCols, key, "router_function_id") ==
      Lookup(existing, RouterCols, key, "router_function_id")
  {
    SchemaFacts();
    BuildDimensionKeeps(batch, existing, RouterCols, "router_function_id", ids);
    if |existing| == 0 {
      BuildDimensionFresh(batch, existing, RouterCols, "router_function_id", ids);
    }
    if HasKey(existing, RouterCols, key) {
      BuildDimensionStable(batch, existing, RouterCols, "router_function_id", ids, key);
    }
  }

  /** get_session: per (session_id, conversation_id) the earliest query_time as
      start_time and the latest response_time as end_time, merged keep-existing.
      The four columns are selected before query_time's absence is checked, so
      the batch must carry all of them (and the in-place default for a missing
      query_time never takes effect). */
  function GetSession(batch: Table, existing: Table): Table
    requires HasColumns(batch, SessionSelect)
  {
    Merge(existing, SessionSpans(batch), SessionCols)
  }

  /** The batch's session spans: start_time the minimum query_time, end_time
      the maximum response_time. */
  function SessionSpans(batch: Table): Table
  {
    SchemaFacts();
    Spans(batch, SessionCols, "query_time", "response_time", "start_time", "end_time")
  }

  /** Session spans: one per distinct non-null (session_id, conversation_id)
      of the batch; its start_time is the minimum query_time of that session's
      rows and its end_time the maximum response_time. */
  lemma SessionSpan(batch: Table, k: int, i: int)
    requires 0 <= k < |Groups(batch, SessionCols)| && 0 <= i < |batch|
    requires Key(batch[i], SessionCols) == Groups(batch, SessionCols)[k]
    ensures var s := SessionSpans(batch);
      Key(s[k], SessionCols) == Key(batch[i], SessionCols) &&
      (Cell(batch[i], "query_time").Int? ==> s[k]["start_time"].Int? && s[k]["start_time"].i <= Cell(batch[i], "query_time").i) &&
      (Cell(batch[i], "response_time").Int? ==> s[k]["end_time"].Int? && Cell(batch[i], "response_time").i <= s[k]["end_time"].i)
    ensures var s := SessionSpans(batch);
      var m := Members(batch, SessionCols, Groups(batch, SessionCols)[k]);
      s[k]["start_time"] == MinTime(Column(m, "query_time")) && s[k]["end_time"] == MaxTime(Column(m, "response_time"))
  {
    SchemaFacts();
    var s := SessionSpans(batch);
    assert Keys(s, SessionCols)[k] == Key(s[k], SessionCols);
    SpanCells(batch, SessionCols, "query_time", "response_time", "start_time", "end_time", k);
    SpanBounds(batch, SessionCols, "query_time", "response_time", "start_time", "end_time", k, i);
  }

  /** A stored session is never replaced: the stored rows come first and
      unchanged, and a batch span is appended only for a key not stored. */
  lemma GetSessionKeepsExisting(batch: Table, existing: Table)
    requires HasColumns(batch, SessionSelect)
    ensures var r := GetSession(batch, existing);
      var s := SessionSpans(batch);
      |r| >= |existing| && r[..|existing|] == existing &&
      (forall i :: |existing| <= i < |r| ==> r[i] in s && !HasKey(existing, SessionCols, Key(r[i], SessionCols))) &&
      (|existing| == 0 ==> r == s)
  {
    var s := SessionSpans(batch);
    MergeKeepsExisting(existing, s, SessionCols);
  }

  // ---------------------------------------------------------------------
  // Fact rows

  /** The batch row after the metadata and application lookups. */
  function WithLookups(r: Row, metadata: Table, apps: Table): Row
  {
    r["metadata_id" := Lookup(metadata, MetadataCols, Key(r, MetadataCols), "metadata_id")]
     ["app_id" := Lookup(apps, AppIndex, Key(r, AppCols), "app_id")]
  }

  /** The fact row built from batch row `r`: lookups, router_function ('NA'
      when the batch has no such column) resolved to its id, query_time
      defaulted to response_time when absent, the fresh id, and the
      descriptive columns dropped. */
  function FactRow(r: Row, metadata: Table, apps: Table, router: Table,
                   hasRouter: bool, hasQuery: bool, id: string): Row
  {
    var a := WithLookups(r, metadata, apps);
    var rf := if hasRouter then Cell(a, "router_function") else Str("NA");
    var b := a["router_function_id" := Lookup(router, RouterCols, [rf], "router_function_id")];
    var c := if hasQuery then b else b["query_time" := Cell(b, "response_time")];
    c["evaluation_dataset_id" := Str(id)] - DroppedCols
  }

  /** The columns a fact row adds to its batch row. */
  const AddedCols: set<string> := {"metadata_id", "app_id", "router_function_id", "evaluation_dataset_id", "query_time"}

  lemma ColumnNamesDistinct()
    ensures AddedCols !! DroppedCols
  {
    assert "metadata_id"[0] == 'm' && "app_id"[0] == 'a' && "router_function_id"[0] == 'r';
    assert "evaluation_dataset_id"[0] == 'e' && "query_time"[0] == 'q';
    forall c | c in DroppedCols ensures c !in AddedCols {
      assert |c| == 13 || |c| == 14 || |c| == 8 || |c| == 3 || |c| == 15 || |c| == 7;
    }
  }

  /** What a fact row holds: the fresh id, the three resolved surrogates, no
      descriptive column, query_time defaulted from response_time, and every
      other batch cell unchanged. */
  lemma FactRowContents(r: Row, metadata: Table, apps: Table, router: Table,
                        hasRouter: bool, hasQuery: bool, id: string)
    ensures var f := FactRow(r, metadata, apps, router, hasRouter, hasQuery, id);
      Cell(f, "evaluation_dataset_id") == Str(id) &&
      Cell(f, "metadata_id") == Lookup(metadata, MetadataCols, Key(r, MetadataCols), "metadata_id") &&
      Cell(f, "app_id") == Lookup(apps, AppIndex, Key(r, AppCols), "app_id") &&
      Cell(f, "router_function_id") ==
        Lookup(router, RouterCols, [if hasRouter then Cell(r, "router_function") else Str("NA")], "router_function_id") &&
      (forall c :: c in DroppedCols ==> c !in f) &&
      (!hasQuery ==> Cell(f, "query_time") == Cell(r, "response_time")) &&
      (forall c :: (c in r && c !in DroppedCols && c !in AddedCols) ==> f[c] == r[c])
  {
    FactRowIds(r, metadata, apps, router, hasRouter, hasQuery, id);
    FactRowLookups(r, metadata, apps, router, hasRouter, hasQuery, id);
    FactRowQueryTime(r, metadata, apps, router, hasRouter, hasQuery, id);
    FactRowDrops(r, metadata, apps, router, hasRouter, hasQuery, id);
    FactRowKeeps(r, metadata, apps, router, hasRouter, hasQuery, id);
  }

  /** The fresh id and the resolved router function. */
  lemma FactRowIds(r: Row, metadata: Table, apps: Table, router: Table,
                   hasRouter: bool, hasQuery: bool, id: string)
    ensures var f := FactRow(r, metadata, apps, router, hasRouter, hasQuery, id);
      Cell(f, "evaluation_dataset_id") == Str(id) &&
      Cell(f, "router_function_id") ==
        Lookup(router, RouterCols, [if hasRouter then Cell(r, "router_function") else Str("NA")], "router_function_id")
  {
    ColumnNamesDistinct();
    var a := WithLookups(r, metadata, apps);
    assert Cell(a, "router_function") == Cell(r, "router_function");
    assert "router_function_id" in AddedCols && "evaluation_dataset_id" in AddedCols;
  }

  /** The metadata and application surrogates. */
  lemma FactRowLookups(r: Row, metadata: Table, apps: Table, router: Table,
                       hasRouter: bool, hasQuery: bool, id: string)
    ensures var f := FactRow(r, metadata, apps, router, hasRouter, hasQuery, id);
      Cell(f, "metadata_id") == Lookup(metadata, MetadataCols, Key(r, MetadataCols), "metadata_id") &&
      Cell(f, "app_id") == Lookup(apps, AppIndex, Key(r, AppCols), "app_id")
  {
    ColumnNamesDistinct();
    assert "metadata_id" in AddedCols && "app_id" in AddedCols;
    var m := Lookup(metadata, MetadataCols, Key(r, MetadataCols), "metadata_id");
    var p := Lookup(apps, AppIndex, Key(r, AppCols), "app_id");
    var a := WithLookups(r, metadata, apps);
    assert a["metadata_id"] == m && a["app_id"] == p;
    var rf := if hasRouter then Cell(a, "router_function") else Str("NA");
    var b := a["router_function_id" := Lookup(router, RouterCols, [rf], "router_function_id")];
    assert b["metadata_id"] == m && b["app_id"] == p;
    var c := if hasQuery then b else b["query_time" := Cell(b, "response_time")];
    assert c["metadata_id"] == m && c["app_id"] == p;
    var d := c["evaluation_dataset_id" := Str(id)];
    assert d["metadata_id"] == m && d["app_id"] == p;
  }

  /** query_time defaults to response_time when the batch has none. */
  lemma FactRowQueryTime(r: Row, metadata: Table, apps: Table, router: Table,
                         hasRouter: bool, hasQuery: bool, id: string)
    ensures var f := FactRow(r, metadata, apps, router, hasRouter, hasQuery, id);
      !hasQuery ==> Cell(f, "query_time") == Cell(r, "response_time")
  {
    ColumnNamesDistinct();
    var a := WithLookups(r, metadata, apps);
    assert Cell(a, "response_time") == Cell(r, "response_time");
    assert "query_time" in AddedCols;
  }

  /** No descriptive column is left. */
  lemma FactRowDrops(r: Row, metadata: Table, apps: Table, router: Table,
                     hasRouter: bool, hasQuery: bool, id: string)
    ensures var f := FactRow(r, metadata, apps, router, hasRouter, hasQuery, id);
      forall c :: c in DroppedCols ==> c !in f
  {
  }

  /** Every other cell of the batch row is carried over unchanged. */
  lemma FactRowKeeps(r: Row, metadata: Table, apps: Table, router: Table,
                     hasRouter: bool, hasQuery: bool, id: string)
    ensures var f := FactRow(r, metadata, apps, router, hasRouter, hasQuery, id);
      forall c :: (c in r && c !in DroppedCols && c !in AddedCols) ==> f[c] == r[c]
  {
  }

  /** The fact rows of a batch, the i-th with the i-th fresh id. */
  function FactRows(t: Table, metadata: Table, apps: Table, router: Table, ids: seq<string>): (f: Table)
    requires |ids| >= |t|
    ensures |f| == |t|
    ensures forall i :: 0 <= i < |t| ==>
      f[i] == FactRow(t[i], metadata, apps, router, ColumnPresent(t, "router_function"), ColumnPresent(t, "query_time"), ids[i])
  {
    var hasRouter := ColumnPresent(t, "router_function");
    var hasQuery := ColumnPresent(t, "query_time");
    seq(|t|, i requires 0 <= i < |t| => FactRow(t[i], metadata, apps, router, hasRouter, hasQuery, ids[i]))
  }

  /** Whether some batch row does not resolve to an application id. */
  predicate MissingApp(t: Table, apps: Table)
  {
    exists i :: 0 <= i < |t| && Lookup(apps, AppIndex, Key(t[i], AppCols), "app_id") == Null
  }

  /** The final anti-join: everything when nothing is stored, else the rows
      whose (app_id, session_id, metadata_id, transcript_id) is not stored. */
  function NewFacts(facts: Table, existing: Table): Table
  {
    if |existing| == 0 then facts else Absent(facts, existing, FactCols)
  }

  /** The surviving fact rows are exactly those whose composite key is not
      stored, in batch order. */
  lemma NewFactsExact(facts: Table, existing: Table)
    ensures NewFacts(facts, existing) == Absent(facts, existing, FactCols)
    ensures IsSubsequence(NewFacts(facts, existing), facts)
    ensures forall x :: x in NewFacts(facts, existing) <==>
      x in facts && !HasKey(existing, FactCols, Key(x, FactCols))
  {
    if |existing| == 0 {
      FilterAll(facts, (x: Row) => !HasKey(existing, FactCols, Key(x, FactCols)));
    }
    FilterIsSubsequence(facts, (x: Row) => !HasKey(existing, FactCols, Key(x, FactCols)));
  }

  /** Distinct fresh ids give the fact rows distinct evaluation_dataset_ids. */
  lemma FactIdsDistinct(t: Table, metadata: Table, apps: Table, router: Table, ids: seq<string>)
    requires |ids| >= |t| && NoDup(ids)
    ensures var f := FactRows(t, metadata, apps, router, ids);
      forall i, j :: 0 <= i < j < |f| ==> Cell(f[i], "evaluation_dataset_id") != Cell(f[j], "evaluation_dataset_id")
  {
    var f := FactRows(t, metadata, apps, router, ids);
    var hasRouter, hasQuery := ColumnPresent(t, "router_function"), ColumnPresent(t, "query_time");
    forall i | 0 <= i < |f| ensures Cell(f[i], "evaluation_dataset_id") == Str(ids[i]) {
      FactRowContents(t[i], metadata, apps, router, hasRouter, hasQuery, ids[i]);
    }
  }

  /** get_fact_data. It rewrites the caller's batch: on a missing application
      the batch already carries metadata_id and app_id and the call fails;
      otherwise the batch becomes the fact rows and the new facts are returned. */
  method GetFactData(batch: Frame, existingFact: Table, metadata: Table, apps: Table, router: Table,
                     ids: seq<string>) returns (r: Result<Table>)
    requires HasColumns(batch.rows, FactInputCols)
    requires |existingFact| > 0 ==> HasColumns(batch.rows, FactKeyInputCols)
    requires NoDup(Keys(metadata, MetadataCols)) && NoDup(Keys(apps, AppIndex)) && NoDup(Keys(router, RouterCols))
    requires |ids| >= |batch.rows|
    modifies batch
    ensures r.Err? <==> MissingApp(old(batch.rows), apps)
    ensures r.Err? ==> (r.error == AppNotFound &&
      batch.rows == seq(|old(batch.rows)|, i requires 0 <= i < |old(batch.rows)| => WithLookups(old(batch.rows)[i], metadata, apps)))
    ensures r.Ok? ==> (batch.rows == FactRows(old(batch.rows), metadata, apps, router, ids) &&
      r.value == NewFacts(batch.rows, existingFact))
  {
    var t := batch.rows;
    batch.rows := seq(|t|, i requires 0 <= i < |t| => WithLookups(t[i], metadata, apps));
    if exists i :: 0 <= i < |t| && Lookup(apps, AppIndex, Key(t[i], AppCols), "app_id") == Null {
      return Err(AppNotFound);
    }
    batch.rows := FactRows(t, metadata, apps, router, ids);
    r := Ok(NewFacts(batch.rows, existingFact));
  }

  // ---------------------------------------------------------------------
  // The whole step

  /** How many fresh ids one run consumes: metadata, then router functions,
      then one per batch row. */
  function IdsNeeded(batch: Table): nat
  {
    |DistinctKeys(batch, MetadataCols)| + |DistinctKeys(batch, RouterCols)| + |batch|
  }

  /** create_goldzone_tables: metadata, session and router tables first, then
      the facts against the updated metadata and router tables. Returns (fact,
      metadata, session, router_function). */
  method CreateGoldzoneTables(batch: Frame, existingFact: Table, existingMetadata: Table,
                              existingSession: Table, apps: Table, existingRouter: Table,
                              ids: seq<string>) returns (r: Result<(Table, Table, Table, Table)>)
    requires HasColumns(batch.rows, MetadataCols) && HasColumns(batch.rows, RouterCols)
    requires HasColumns(batch.rows, SessionSelect) && HasColumns(batch.rows, FactInputCols)
    requires |existingFact| > 0 ==> HasColumns(batch.rows, FactKeyInputCols)
    requires NoDup(Keys(existingMetadata, MetadataCols)) && NoDup(Keys(existingRouter, RouterCols))
    requires NoDup(Keys(apps, AppIndex))
    requires |ids| >= IdsNeeded(batch.rows)
    modifies batch
    ensures var m := |DistinctKeys(old(batch.rows), MetadataCols)|;
      var k := |DistinctKeys(old(batch.rows), RouterCols)|;
      var metadata := GetMetadata(old(batch.rows), existingMetadata, ids);
      var router := GetRouterFunctionData(old(batch.rows), existingRouter, ids[m..]);
      (r.Err? <==> MissingApp(old(batch.rows), apps)) &&
      (r.Ok? ==>
        batch.rows == FactRows(old(batch.rows), metadata, apps, router, ids[m + k..]) &&
        r.value == (NewFacts(batch.rows, existingFact), metadata,
                    GetSession(old(batch.rows), existingSession), router))
  {
    var t := batch.rows;
    SchemaFacts();
    var m := |DistinctKeys(t, MetadataCols)|;
    var k := |DistinctKeys(t, RouterCols)|;
    var metadata := GetMetadata(t, existingMetadata, ids);
    var session := GetSession(t, existingSession);
    var router := GetRouterFunctionData(t, existingRouter, ids[m..]);
    BuildDimensionKeeps(t, existingMetadata, MetadataCols, "metadata_id", ids);
    BuildDimensionKeeps(t, existingRouter, RouterCols, "router_function_id", ids[m..]);
    var fact := GetFactData(batch, existingFact, metadata, apps, router, ids[m + k..]);
    if fact.Err? {
      return Err(fact.error);
    }
    r := Ok((fact.value, metadata, session, router));
  }

  /** The fact rows one run builds, against the metadata and router tables it
      has just updated. */
  function BatchFacts(t: Table, existingMetadata: Table, apps: Table, existingRouter: Table,
                      ids: seq<string>): (f: Table)
    requires HasColumns(t, MetadataCols) && HasColumns(t, RouterCols)
    requires |ids| >= IdsNeeded(t)
    ensures |f| == |t|
  {
    var m := |DistinctKeys(t, MetadataCols)|;
    var k := |DistinctKeys(t, RouterCols)|;
    FactRows(t, GetMetadata(t, existingMetadata, ids), apps,
             GetRouterFunctionData(t, existingRouter, ids[m..]), ids[m + k..])
  }

  lemma BatchFactsUnfold(t: Table, existingMetadata: Table, apps: Table, existingRouter: Table, ids: seq<string>)
    requires HasColumns(t, MetadataCols) && HasColumns(t, RouterCols)
    requires |ids| >= IdsNeeded(t)
    ensures BatchFacts(t, existingMetadata, apps, existingRouter, ids) ==
      FactRows(t, GetMetadata(t, existingMetadata, ids), apps,
               GetRouterFunctionData(t, existingRouter, ids[|DistinctKeys(t, MetadataCols)|..]),
               ids[|DistinctKeys(t, MetadataCols)| + |DistinctKeys(t, RouterCols)|..])
  {
  }

  /** A fact row carries the ids its batch row resolves to. */
  lemma FactRowsResolve(t: Table, metadata: Table, apps: Table, router: Table, ids: seq<string>, i: int)
    requires |ids| >= |t| && 0 <= i < |t|
    requires ColumnPresent(t, "router_function")
    ensures var f := FactRows(t, metadata, apps, router, ids);
      Cell(f[i], "metadata_id") == Lookup(metadata, MetadataCols, Key(t[i], MetadataCols), "metadata_id") &&
      Cell(f[i], "router_function_id") == Lookup(router, RouterCols, [Cell(t[i], "router_function")], "router_function_id")
  {
    var hasQuery := ColumnPresent(t, "query_time");
    FactRowContents(t[i], metadata, apps, router, true, hasQuery, ids[i]);
  }

  /** A batch row's metadata tuple resolves in the updated METADATA table. */
  lemma MetadataResolves(t: Table, existing: Table, ids: seq<string>, i: int)
    requires HasColumns(t, MetadataCols) && |ids| >= |DistinctKeys(t, MetadataCols)|
    requires forall j :: 0 <= j < |existing| ==> Cell(existing[j], "metadata_id") != Null
    requires 0 <= i < |t|
    ensures Lookup(GetMetadata(t, existing, ids), MetadataCols, Key(t[i], MetadataCols), "metadata_id") != Null
  {
    SchemaFacts();
    BuildDimensionResolves(t, existing, MetadataCols, "metadata_id", ids, i);
  }

  /** A batch row's router_function resolves in the updated ROUTER_FUNCTION table. */
  lemma RouterResolves(t: Table, existing: Table, ids: seq<string>, i: int)
    requires HasColumns(t, RouterCols) && |ids| >= |DistinctKeys(t, RouterCols)|
    requires forall j :: 0 <= j < |existing| ==> Cell(existing[j], "router_function_id") != Null
    requires 0 <= i < |t|
    ensures ColumnPresent(t, "router_function")
    ensures Lookup(GetRouterFunctionData(t, existing, ids), RouterCols, [Cell(t[i], "router_function")],
                   "router_function_id") != Null
  {
    SchemaFacts();
    BuildDimensionResolves(t, existing, RouterCols, "router_function_id", ids, i);
    forall j | 0 <= j < |t| ensures "router_function" in t[j] {
      assert "router_function" in RouterCols;
    }
    assert Key(t[i], RouterCols) == [Cell(t[i], "router_function")];
  }

  /** Computing the dimensions before the facts means every fact row resolves a
      metadata_id and a router_function_id, provided the stored dimension rows
      all carry their ids. */
  lemma FactsResolveDimensions(t: Table, existingMetadata: Table, existingRouter: Table, apps: Table,
                               ids: seq<string>, i: int)
    requires HasColumns(t, MetadataCols) && HasColumns(t, RouterCols)
    requires |ids| >= IdsNeeded(t)
    requires forall j :: 0 <= j < |existingMetadata| ==> Cell(existingMetadata[j], "metadata_id") != Null
    requires forall j :: 0 <= j < |existingRouter| ==> Cell(existingRouter[j], "router_function_id") != Null
    requires 0 <= i < |t|
    ensures var f := BatchFacts(t, existingMetadata, apps, existingRouter, ids);
      Cell(f[i], "metadata_id") != Null && Cell(f[i], "router_function_id") != Null
  {
    var m := |DistinctKeys(t, MetadataCols)|;
    var k := |DistinctKeys(t, RouterCols)|;
    var metadata := GetMetadata(t, existingMetadata, ids);
    var router := GetRouterFunctionData(t, existingRouter, ids[m..]);
    BatchFactsUnfold(t, existingMetadata, apps, existingRouter, ids);
    assert BatchFacts(t, existingMetadata, apps, existingRouter, ids) == FactRows(t, metadata, apps, router, ids[m + k..]);
    MetadataResolves(t, existingMetadata, ids, i);
    RouterResolves(t, existingRouter, ids[m..], i);
    FactRowsResolve(t, metadata, apps, router, ids[m + k..], i);
  }
}
