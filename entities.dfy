// The mapping entities of the transformation pipeline
// (src/llminspect/common/entities.py, and the MappingColumn of
// src/common/entities.py): a mapping column renames one payload field, a
// mapping is a named list of columns, a mapping list groups mappings, and an
// Azure Monitor data source names a table and the secret holding its
// workspace id. Each has a dictionary form (`to_dict`); `from_dict` reads it
// back and fails on a missing key (KeyError); the model's fields are strings,
// so it also fails on a non-string field, which Python would store. The copy in
// llminspect/common/entities.py has the same `to_dict`, but its `from_dict`
// lacks the decorator that binds `cls`, so calling it fails (UnboundFromDict).
module Entities {
  import opened Tables

  datatype MappingColumn = MappingColumn(sourceName: string, targetName: string, dataType: string)

  datatype Mapping = Mapping(name: string, columns: seq<MappingColumn>)

  datatype MappingList = MappingList(mappings: seq<Mapping>)

  /** The data source's type is fixed by its constructor. */
  datatype AzureMonitorDataSource = AzureMonitorDataSource(table: string, workspaceIdSecretKey: string)
  {
    const kind: string := "azure_monitor"
  }

  /** The transformer configuration of one chatbot. */
  datatype Transformer = Transformer(name: string, chatbotName: string, dataSource: AzureMonitorDataSource,
                                     mappingList: MappingList, endpoint: string, schedule: string,
                                     scheduleStartTime: string)

  /** The unit of work of the data transformer: a named mapping and the rows it
      applies to. The steps of the transformer overwrite `data` in place. */
  class TransformationDto {
    const name: string
    const mapping: Mapping
    var data: Table

    constructor (name: string, mapping: Mapping, data: Table)
      ensures this.name == name && this.mapping == mapping && this.data == data
    {
      this.name := name;
      this.mapping := mapping;
      this.data := data;
    }
  }

  // ---------------------------------------------------------------------
  // MappingColumn

  function MappingColumnToDict(c: MappingColumn): (d: Value)
    ensures d.Dict? && d.fields.Keys == {"source_name", "target_name", "data_type"}
    ensures d.fields["source_name"] == Str(c.sourceName) && d.fields["target_name"] == Str(c.targetName)
    ensures d.fields["data_type"] == Str(c.dataType)
  {
    Dict(map["source_name" := Str(c.sourceName), "target_name" := Str(c.targetName), "data_type" := Str(c.dataType)])
  }

  /** The string under `key` of a dictionary, if there is one. */
  function StrField(d: Value, key: string): (r: Option<string>)
    ensures r.Some? <==> d.Dict? && key in d.fields && d.fields[key].Str?
    ensures r.Some? ==> d.fields[key] == Str(r.value)
  {
    if d.Dict? && key in d.fields && d.fields[key].Str? then Some(d.fields[key].s) else None
  }

  function MappingColumnFromDict(d: Value): Option<MappingColumn>
  {
    var s := StrField(d, "source_name");
    var t := StrField(d, "target_name");
    var ty := StrField(d, "data_type");
    if s.Some? && t.Some? && ty.Some? then Some(MappingColumn(s.value, t.value, ty.value)) else None
  }

  lemma MappingColumnRoundTrip(c: MappingColumn)
    ensures MappingColumnFromDict(MappingColumnToDict(c)) == Some(c)
  {
  }

  /** `MappingColumn.from_dict(d)` in llminspect/common/entities.py, where
      from_dict is a plain function of (cls, data): the dictionary binds to
      `cls` and the call fails for the missing `data` argument. */
  function UnboundFromDict(d: Value): (r: Result<MappingColumn>)
    ensures r.Err?
  {
    Err("TypeError: from_dict() missing 1 required positional argument: 'data'")
  }

  /** In that copy not even a column's own dictionary reads back. */
  lemma UnboundFromDictRoundTripFails()
    ensures var c := MappingColumn("query", "user_query", "string");
      UnboundFromDict(MappingColumnToDict(c)) != Ok(c) && MappingColumnFromDict(MappingColumnToDict(c)) == Some(c)
  {
    MappingColumnRoundTrip(MappingColumn("query", "user_query", "string"));
  }

  /** Reading a column back succeeds exactly on a dictionary carrying the three
      string fields, and the column read writes back to those fields. */
  lemma MappingColumnFromDictExact(d: Value)
    ensures MappingColumnFromDict(d).Some? <==>
      d.Dict? && "source_name" in d.fields && d.fields["source_name"].Str? &&
      "target_name" in d.fields && d.fields["target_name"].Str? &&
      "data_type" in d.fields && d.fields["data_type"].Str?
    ensures MappingColumnFromDict(d).Some? ==>
      var e := MappingColumnToDict(MappingColumnFromDict(d).value);
      forall k :: k in e.fields ==> k in d.fields && d.fields[k] == e.fields[k]
  {
    if MappingColumnFromDict(d).Some? {
      var e := MappingColumnToDict(MappingColumnFromDict(d).value);
      assert forall k :: k in e.fields ==> k == "source_name" || k == "target_name" || k == "data_type";
    }
  }

  // ---------------------------------------------------------------------
  // Lists of columns

  function ColumnsToDicts(cs: seq<MappingColumn>): (ds: seq<Value>)
    ensures |ds| == |cs|
    ensures forall i :: 0 <= i < |cs| ==> ds[i] == MappingColumnToDict(cs[i])
  {
    seq(|cs|, i requires 0 <= i < |cs| => MappingColumnToDict(cs[i]))
  }

  /** Every element read back as a column, or nothing when one fails. */
  function ColumnsFromDicts(ds: seq<Value>): (r: Option<seq<MappingColumn>>)
    ensures r.Some? ==> |r.value| == |ds|
    ensures r.Some? ==> forall i :: 0 <= i < |ds| ==> MappingColumnFromDict(ds[i]) == Some(r.value[i])
    ensures r.None? ==> exists i :: 0 <= i < |ds| && MappingColumnFromDict(ds[i]).None?
  {
    if ds == [] then Some([])
    else
      var c := MappingColumnFromDict(ds[0]);
      var rest := ColumnsFromDicts(ds[1..]);
      if c.None? then None
      else if rest.None? then
        assert exists i :: 0 <= i < |ds[1..]| && MappingColumnFromDict(ds[1..][i]).None?;
        var i :| 0 <= i < |ds[1..]| && MappingColumnFromDict(ds[1..][i]).None?;
        assert MappingColumnFromDict(ds[i + 1]).None?;
        None
      else Some([c.value] + rest.value)
  }

  lemma ColumnsRoundTrip(cs: seq<MappingColumn>)
    ensures ColumnsFromDicts(ColumnsToDicts(cs)) == Some(cs)
  {
    var ds := ColumnsToDicts(cs);
    forall i | 0 <= i < |cs| ensures MappingColumnFromDict(ds[i]) == Some(cs[i]) {
      MappingColumnRoundTrip(cs[i]);
    }
    var r := ColumnsFromDicts(ds);
    assert r.Some?;
    assert r.value == cs;
  }

  // ---------------------------------------------------------------------
  // Mapping and MappingList

  function MappingToDict(m: Mapping): (d: Value)
    ensures d.Dict? && d.fields.Keys == {"name", "columns"}
    ensures d.fields["name"] == Str(m.name) && d.fields["columns"] == List(ColumnsToDicts(m.columns))
  {
    Dict(map["name" := Str(m.name), "columns" := List(ColumnsToDicts(m.columns))])
  }

  /** A mapping reads back from a dictionary with a string name and a list of
      columns that all read back, keeping the columns in order. */
  function MappingFromDict(d: Value): (r: Option<Mapping>)
    ensures r.Some? <==> StrField(d, "name").Some? && "columns" in d.fields && d.fields["columns"].List? &&
                         ColumnsFromDicts(d.fields["columns"].items).Some?
    ensures r.Some? ==> Str(r.value.name) == d.fields["name"] && |r.value.columns| == |d.fields["columns"].items|
    ensures r.Some? ==> forall i :: 0 <= i < |r.value.columns| ==> MappingColumnFromDict(d.fields["columns"].items[i]) == Some(r.value.columns[i])
  {
    var name := StrField(d, "name");
    if name.None? || "columns" !in d.fields || !d.fields["columns"].List? then None
    else
      var cs := ColumnsFromDicts(d.fields["columns"].items);
      if cs.None? then None else Some(Mapping(name.value, cs.value))
  }

  /** A mapping reads back with its name and its columns in order. */
  lemma MappingRoundTrip(m: Mapping)
    ensures MappingFromDict(MappingToDict(m)) == Some(m)
  {
    ColumnsRoundTrip(m.columns);
  }

  function MappingsToDicts(ms: seq<Mapping>): (ds: seq<Value>)
    ensures |ds| == |ms|
    ensures forall i :: 0 <= i < |ms| ==> ds[i] == MappingToDict(ms[i])
  {
    seq(|ms|, i requires 0 <= i < |ms| => MappingToDict(ms[i]))
  }

  function MappingsFromDicts(ds: seq<Value>): (r: Option<seq<Mapping>>)
    ensures r.Some? ==> |r.value| == |ds|
    ensures r.Some? ==> forall i :: 0 <= i < |ds| ==> MappingFromDict(ds[i]) == Some(r.value[i])
    ensures r.None? ==> exists i :: 0 <= i < |ds| && MappingFromDict(ds[i]).None?
  {
    if ds == [] then Some([])
    else
      var m := MappingFromDict(ds[0]);
      var rest := MappingsFromDicts(ds[1..]);
      if m.None? then None
      else if rest.None? then
        var i :| 0 <= i < |ds[1..]| && MappingFromDict(ds[1..][i]).None?;
        assert MappingFromDict(ds[i + 1]).None?;
        None
      else Some([m.value] + rest.value)
  }

  lemma {:induction false} MappingsRoundTrip(ms: seq<Mapping>)
    ensures MappingsFromDicts(MappingsToDicts(ms)) == Some(ms)
  {
    if ms != [] {
      var ds := MappingsToDicts(ms);
      MappingRoundTrip(ms[0]);
      assert ds[1..] == MappingsToDicts(ms[1..]);
      MappingsRoundTrip(ms[1..]);
      assert [ms[0]] + ms[1..] == ms;
    }
  }

  function MappingListToDict(l: MappingList): (d: Value)
    ensures d.Dict? && d.fields.Keys == {"mappings"}
    ensures d.fields["mappings"] == List(MappingsToDicts(l.mappings))
  {
    Dict(map["mappings" := List(MappingsToDicts(l.mappings))])
  }

  /** A mapping list reads back from a dictionary whose "mappings" list reads
      back element by element, in order. */
  function MappingListFromDict(d: Value): (r: Option<MappingList>)
    ensures r.Some? <==> d.Dict? && "mappings" in d.fields && d.fields["mappings"].List? &&
                         MappingsFromDicts(d.fields["mappings"].items).Some?
    ensures r.Some? ==> |r.value.mappings| == |d.fields["mappings"].items|
    ensures r.Some? ==> forall i :: 0 <= i < |r.value.mappings| ==> MappingFromDict(d.fields["mappings"].items[i]) == Some(r.value.mappings[i])
  {
    if !d.Dict? || "mappings" !in d.fields || !d.fields["mappings"].List? then None
    else
      var ms := MappingsFromDicts(d.fields["mappings"].items);
      if ms.None? then None else Some(MappingList(ms.value))
  }

  /** A mapping list reads back with its mappings in order. */
  lemma MappingListRoundTrip(l: MappingList)
    ensures MappingListFromDict(MappingListToDict(l)) == Some(l)
  {
    MappingsRoundTrip(l.mappings);
  }

  // ---------------------------------------------------------------------
  // AzureMonitorDataSource

  function DataSourceToDict(s: AzureMonitorDataSource): (d: Value)
    ensures d.Dict? && d.fields.Keys == {"type", "table", "workspace_id_secret_key"}
    ensures d.fields["type"] == Str("azure_monitor")
    ensures d.fields["table"] == Str(s.table) && d.fields["workspace_id_secret_key"] == Str(s.workspaceIdSecretKey)
  {
    Dict(map["type" := Str(s.kind), "table" := Str(s.table),
             "workspace_id_secret_key" := Str(s.workspaceIdSecretKey)])
  }

  /** from_dict reads table and workspace_id_secret_key; the type is the
      constructor's and whatever the dictionary says under "type" is ignored. */
  function DataSourceFromDict(d: Value): (r: Option<AzureMonitorDataSource>)
    ensures r.Some? <==> d.Dict? && "table" in d.fields && d.fields["table"].Str? &&
                         "workspace_id_secret_key" in d.fields && d.fields["workspace_id_secret_key"].Str?
    ensures r.Some? ==> Str(r.value.table) == d.fields["table"] &&
                        Str(r.value.workspaceIdSecretKey) == d.fields["workspace_id_secret_key"]
    ensures r.Some? ==> r.value.kind == "azure_monitor"
  {
    var t := StrField(d, "table");
    var k := StrField(d, "workspace_id_secret_key");
    if t.Some? && k.Some? then Some(AzureMonitorDataSource(t.value, k.value)) else None
  }

  lemma DataSourceRoundTrip(s: AzureMonitorDataSource)
    ensures DataSourceFromDict(DataSourceToDict(s)) == Some(s)
  {
  }
}
