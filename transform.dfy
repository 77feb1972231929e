// The data transformer (postprod-eval/src/llmevalgrader/transformation/transform.py
// and llminspect/transformation/transform.py): log rows carry a decoded
// payload under Properties and a millisecond instant under TimeGenerated;
// each mapping column becomes one target column (the payload field, or Null
// when absent; TimeGenerated from the row itself), llm rows also get the
// nested response content, and the cleaning steps drop rows with a Null,
// add a constant column, concatenate and fill Nulls with "NA". The first
// file tags rows with app_type, the second does not.
module Transform {
  import opened Tables
  import opened Entities

  const Properties: string := "Properties"
  const TimeGenerated: string := "TimeGenerated"
  const LlmResponse: string := "llm_response"
  const AppType: string := "app_type"
  const Response: string := "response"
  const ConversationData: string := "conversation_data"
  const LlmData: string := "llm_data"

  /** Which copy of the transformer: the one that tags rows with app_type or the one that does not. */
  datatype Variant = Tagging | Plain

  function ConversationTag(v: Variant): Option<string>
  {
    if v == Tagging then Some("conversation") else None
  }

  function LlmTag(v: Variant): Option<string>
  {
    if v == Tagging then Some("llm") else None
  }

  // ---------------------------------------------------------------------
  // One log row

  /** The payload of a log row decodes to a dictionary. */
  predicate PayloadDecodes(r: Row)
  {
    Cell(r, Properties).Dict?
  }

  /** The payload field `name`, or Null when absent. */
  function PayloadField(r: Row, name: string): (v: Value)
    requires PayloadDecodes(r)
    ensures name in Cell(r, Properties).fields ==> v == Cell(r, Properties).fields[name]
    ensures name !in Cell(r, Properties).fields ==> v == Null
  {
    var p := Cell(r, Properties).fields;
    if name in p then p[name] else Null
  }

  /** The value a mapping column takes from a log row: the row's own instant
      for TimeGenerated, else the payload field. */
  function ColumnValue(r: Row, c: MappingColumn): Value
    requires PayloadDecodes(r)
  {
    if c.sourceName == TimeGenerated then Cell(r, TimeGenerated) else PayloadField(r, c.sourceName)
  }

  /** The target row after assigning the mapping columns in order. */
  function MappedRow(r: Row, cols: seq<MappingColumn>): (m: Row)
    requires PayloadDecodes(r)
    ensures m.Keys == set c | c in cols :: c.targetName
    decreases |cols|
  {
    if cols == [] then map[]
    else
      var last := cols[|cols| - 1];
      var m0 := MappedRow(r, cols[..|cols| - 1]);
      assert (set c | c in cols :: c.targetName) == (set c | c in cols[..|cols| - 1] :: c.targetName) + {last.targetName} by {
        assert cols == cols[..|cols| - 1] + [last];
      }
      m0[last.targetName := ColumnValue(r, last)]
  }

  /** A target cell holds the value of the last mapping column that writes it. */
  lemma {:induction false} MappedRowCell(r: Row, cols: seq<MappingColumn>, j: int)
    requires PayloadDecodes(r)
    requires 0 <= j < |cols|
    requires forall k :: j < k < |cols| ==> cols[k].targetName != cols[j].targetName
    ensures MappedRow(r, cols)[cols[j].targetName] == ColumnValue(r, cols[j])
    decreases |cols|
  {
    if j < |cols| - 1 {
      var init := cols[..|cols| - 1];
      assert init[j] == cols[j];
      MappedRowCell(r, init, j);
    }
  }

  /** With distinct target names, each target takes its own column's value. */
  lemma MappedRowCells(r: Row, cols: seq<MappingColumn>)
    requires PayloadDecodes(r)
    requires forall j, k :: 0 <= j < k < |cols| ==> cols[j].targetName != cols[k].targetName
    ensures forall j :: 0 <= j < |cols| ==> MappedRow(r, cols)[cols[j].targetName] == ColumnValue(r, cols[j])
  {
    forall j | 0 <= j < |cols| ensures MappedRow(r, cols)[cols[j].targetName] == ColumnValue(r, cols[j]) {
      MappedRowCell(r, cols, j);
    }
  }

  function Tag(m: Row, tag: Option<string>): (t: Row)
    ensures tag.Some? ==> t == m[AppType := Str(tag.value)]
    ensures tag.None? ==> t == m
  {
    if tag.Some? then m[AppType := Str(tag.value)] else m
  }

  /** The nested response content: choices[0].message.content of the decoded
      llm_response. */
  function ResponseContent(v: Value): Option<Value>
  {
    if v.Dict? && "choices" in v.fields && v.fields["choices"].List? && |v.fields["choices"].items| > 0 then
      var choice := v.fields["choices"].items[0];
      if choice.Dict? && "message" in choice.fields && choice.fields["message"].Dict? &&
         "content" in choice.fields["message"].fields
      then Some(choice.fields["message"].fields["content"])
      else None
    else None
  }

  /** Every llm_response present has the nested content (the source fails otherwise). */
  predicate ResponseDecodes(r: Row)
    requires PayloadDecodes(r)
  {
    LlmResponse in Cell(r, Properties).fields ==> ResponseContent(Cell(r, Properties).fields[LlmResponse]).Some?
  }

  /** The response of an llm row: the nested content, or Null without llm_response. */
  function ResponseOf(r: Row): (v: Value)
    requires PayloadDecodes(r) && ResponseDecodes(r)
    ensures LlmResponse !in Cell(r, Properties).fields ==> v == Null
    ensures LlmResponse in Cell(r, Properties).fields ==>
      Some(v) == ResponseContent(Cell(r, Properties).fields[LlmResponse])
  {
    var p := Cell(r, Properties).fields;
    if LlmResponse in p then ResponseContent(p[LlmResponse]).value else Null
  }

  // ---------------------------------------------------------------------
  // Whole frames

  /** What the source needs of a log frame for a mapping: every payload decodes
      when there is a column to fill, and the frame has TimeGenerated when a
      column reads it. */
  predicate Transformable(data: Table, cols: seq<MappingColumn>)
  {
    (|cols| > 0 ==> forall i :: 0 <= i < |data| ==> PayloadDecodes(data[i])) &&
    ((exists c :: c in cols && c.sourceName == TimeGenerated) ==> ColumnPresent(data, TimeGenerated))
  }

  predicate LlmTransformable(data: Table, cols: seq<MappingColumn>)
  {
    Transformable(data, cols) &&
    forall i :: 0 <= i < |data| ==> PayloadDecodes(data[i]) && ResponseDecodes(data[i])
  }

  /** The mapped conversation frame. A mapping without columns leaves the new
      frame without rows. */
  function ConversationRows(data: Table, cols: seq<MappingColumn>, tag: Option<string>): (t: Table)
    requires Transformable(data, cols)
  {
    if |cols| == 0 then []
    else seq(|data|, i requires 0 <= i < |data| => Tag(MappedRow(data[i], cols), tag))
  }

  /** The mapped llm frame: as for conversations, plus the response column.
      Without mapping columns the rows come from the response column alone,
      and a tag set before it is Null in them. */
  function LlmRows(data: Table, cols: seq<MappingColumn>, tag: Option<string>): (t: Table)
    requires LlmTransformable(data, cols)
  {
    seq(|data|, i requires 0 <= i < |data| =>
      var base: Row := if |cols| == 0 then (if tag.Some? then map[AppType := Null] else map[])
                       else Tag(MappedRow(data[i], cols), tag);
      base[Response := ResponseOf(data[i])])
  }

  /** Target cells and the tag of a mapped conversation row. */
  lemma ConversationRowsContents(data: Table, cols: seq<MappingColumn>, tag: Option<string>, i: int, j: int)
    requires Transformable(data, cols)
    requires 0 <= i < |data| && 0 <= j < |cols|
    requires forall k :: j < k < |cols| ==> cols[k].targetName != cols[j].targetName
    requires tag.Some? ==> cols[j].targetName != AppType
    ensures |ConversationRows(data, cols, tag)| == |data|
    ensures var t := ConversationRows(data, cols, tag);
      t[i][cols[j].targetName] ==
        (if cols[j].sourceName == TimeGenerated then Cell(data[i], TimeGenerated)
         else PayloadField(data[i], cols[j].sourceName)) &&
      (tag.Some? ==> t[i][AppType] == Str(tag.value)) &&
      t[i].Keys == (set c | c in cols :: c.targetName) + (if tag.Some? then {AppType} else {})
  {
    MappedRowCell(data[i], cols, j);
  }

  /** A mapped llm row: every row of the log frame gives one row, holding the
      response, the tag, and each target column not overwritten later with
      its own column's value. */
  lemma LlmRowsResponse(data: Table, cols: seq<MappingColumn>, tag: Option<string>, i: int)
    requires LlmTransformable(data, cols)
    requires 0 <= i < |data|
    ensures |LlmRows(data, cols, tag)| == |data|
    ensures var t := LlmRows(data, cols, tag)[i];
      var p := Cell(data[i], Properties).fields;
      (LlmResponse in p ==> Some(t[Response]) == ResponseContent(p[LlmResponse])) &&
      (LlmResponse !in p ==> t[Response] == Null) &&
      (tag.Some? && |cols| > 0 && Response != AppType ==> t[AppType] == Str(tag.value))
    ensures LlmRows(data, cols, tag)[i].Keys ==
      (set c | c in cols :: c.targetName) + (if tag.Some? then {AppType} else {}) + {Response}
    ensures forall j :: (0 <= j < |cols| && cols[j].targetName != Response &&
                         (tag.Some? ==> cols[j].targetName != AppType) &&
                         (forall k :: j < k < |cols| ==> cols[k].targetName != cols[j].targetName)) ==>
      LlmRows(data, cols, tag)[i][cols[j].targetName] ==
        (if cols[j].sourceName == TimeGenerated then Cell(data[i], TimeGenerated)
         else PayloadField(data[i], cols[j].sourceName))
  {
    forall j | 0 <= j < |cols| && cols[j].targetName != Response &&
               (tag.Some? ==> cols[j].targetName != AppType) &&
               (forall k :: j < k < |cols| ==> cols[k].targetName != cols[j].targetName)
      ensures LlmRows(data, cols, tag)[i][cols[j].targetName] == ColumnValue(data[i], cols[j])
    {
      MappedRowCell(data[i], cols, j);
    }
  }

  /** _transform_conversation_data: the target frame is built one column at a
      time, tagged, and stored back into the same DTO. */
  method TransformConversationData(dto: TransformationDto, tag: Option<string>) returns (r: TransformationDto)
    requires Transformable(dto.data, dto.mapping.columns)
    modifies dto
    ensures r == dto
    ensures dto.data == ConversationRows(old(dto.data), dto.mapping.columns, tag)
  {
    var data := dto.data;
    var cols := dto.mapping.columns;
    var mapped := MapColumns(data, cols);
    if tag.Some? {
      mapped := seq(|mapped|, i requires 0 <= i < |mapped| => mapped[i][AppType := Str(tag.value)]);
    }
    dto.data := mapped;
    r := dto;
  }

  /** The column loop shared by both transformations: no rows until the first
      column is assigned, then one row per log row. */
  method MapColumns(data: Table, cols: seq<MappingColumn>) returns (mapped: Table)
    requires Transformable(data, cols)
    ensures |cols| == 0 ==> mapped == []
    ensures |cols| > 0 ==> mapped == seq(|data|, i requires 0 <= i < |data| => MappedRow(data[i], cols))
  {
    mapped := [];
    for j := 0 to |cols|
      invariant j == 0 ==> mapped == []
      invariant j > 0 ==> mapped == seq(|data|, i requires 0 <= i < |data| => MappedRow(data[i], cols[..j]))
    {
      var c := cols[j];
      assert cols[..j + 1][..j] == cols[..j];
      mapped := seq(|data|, i requires 0 <= i < |data| =>
        (if j == 0 then map[] else mapped[i])[c.targetName := ColumnValue(data[i], c)]);
    }
    assert cols[..|cols|] == cols;
  }

  /** _transform_llm_data. */
  method TransformLlmData(dto: TransformationDto, tag: Option<string>) returns (r: TransformationDto)
    requires LlmTransformable(dto.data, dto.mapping.columns)
    modifies dto
    ensures r == dto
    ensures dto.data == LlmRows(old(dto.data), dto.mapping.columns, tag)
  {
    var data := dto.data;
    var cols := dto.mapping.columns;
    var mapped := MapColumns(data, cols);
    if tag.Some? {
      mapped := seq(|mapped|, i requires 0 <= i < |mapped| => mapped[i][AppType := Str(tag.value)]);
    }
    // Assigning the response column gives an empty frame the log frame's rows.
    var base: Table :=
      if |cols| == 0 then seq(|data|, i => if tag.Some? then map[AppType := Null] else map[]) else mapped;
    dto.data := seq(|data|, i requires 0 <= i < |data| => base[i][Response := ResponseOf(data[i])]);
    r := dto;
  }

  // ---------------------------------------------------------------------
  // The list steps

  /** What transform_data makes of one frame: dispatch on the mapping's name,
      anything else passes through. */
  function Transformed(m: Mapping, data: Table, v: Variant): Table
    requires m.name == ConversationData ==> Transformable(data, m.columns)
    requires m.name == LlmData ==> LlmTransformable(data, m.columns)
  {
    if m.name == ConversationData then ConversationRows(data, m.columns, ConversationTag(v))
    else if m.name == LlmData then LlmRows(data, m.columns, LlmTag(v))
    else data
  }

  predicate Ready(d: TransformationDto)
    reads d
  {
    (d.mapping.name == ConversationData ==> Transformable(d.data, d.mapping.columns)) &&
    (d.mapping.name == LlmData ==> LlmTransformable(d.data, d.mapping.columns))
  }

  /** transform_data: the same DTOs in the same order, each frame transformed
      according to its mapping's name. */
  method TransformData(dtos: seq<TransformationDto>, v: Variant) returns (post: seq<TransformationDto>)
    requires forall i, j :: 0 <= i < j < |dtos| ==> dtos[i] != dtos[j]
    requires forall i :: 0 <= i < |dtos| ==> Ready(dtos[i])
    modifies set d | d in dtos
    ensures post == dtos
    ensures forall i :: 0 <= i < |dtos| ==>
      old(Ready(dtos[i])) && dtos[i].data == Transformed(dtos[i].mapping, old(dtos[i].data), v)
  {
    post := [];
    for k := 0 to |dtos|
      invariant post == dtos[..k]
      invariant forall i :: 0 <= i < k ==>
        old(Ready(dtos[i])) && dtos[i].data == Transformed(dtos[i].mapping, old(dtos[i].data), v)
      invariant forall i :: k <= i < |dtos| ==> dtos[i].data == old(dtos[i].data)
    {
      var d := dtos[k];
      if d.mapping.name == ConversationData {
        d := TransformConversationData(d, ConversationTag(v));
      } else if d.mapping.name == LlmData {
        d := TransformLlmData(d, LlmTag(v));
      }
      post := post + [d];
    }
  }

  /** `dropna()`: the rows without a Null, in order. */
  function DropNull(t: Table): Table
  {
    Filter(t, (r: Row) => !HasNull(r))
  }

  /** dropna removes exactly the rows with a Null and keeps the others in order. */
  lemma DropNullExact(t: Table)
    ensures forall r :: r in DropNull(t) <==> r in t && !HasNull(r)
    ensures IsSubsequence(DropNull(t), t)
    ensures DropNull(DropNull(t)) == DropNull(t)
  {
    FilterIsSubsequence(t, (r: Row) => !HasNull(r));
    var d := DropNull(t);
    FilterAll(d, (r: Row) => !HasNull(r));
  }

  /** clean_data: every DTO's frame loses its rows with a Null. */
  method CleanData(dtos: seq<TransformationDto>) returns (r: seq<TransformationDto>)
    requires forall i, j :: 0 <= i < j < |dtos| ==> dtos[i] != dtos[j]
    modifies set d | d in dtos
    ensures r == dtos
    ensures forall i :: 0 <= i < |dtos| ==> dtos[i].data == DropNull(old(dtos[i].data))
  {
    for k := 0 to |dtos|
      invariant forall i :: 0 <= i < k ==> dtos[i].data == DropNull(old(dtos[i].data))
      invariant forall i :: k <= i < |dtos| ==> dtos[i].data == old(dtos[i].data)
    {
      dtos[k].data := DropNull(dtos[k].data);
    }
    r := dtos;
  }

  /** Every row with column `col` set to `v`. */
  function WithColumn(t: Table, col: string, v: Value): (u: Table)
    ensures |u| == |t|
    ensures forall i :: 0 <= i < |t| ==> u[i].Keys == t[i].Keys + {col} && u[i][col] == v
    ensures forall i, c :: 0 <= i < |t| && c in t[i] && c != col ==> u[i][c] == t[i][c]
  {
    seq(|t|, i requires 0 <= i < |t| => t[i][col := v])
  }

  /** add_optional_extra_columns: every row of every DTO gets the constant. */
  method AddOptionalExtraColumns(dtos: seq<TransformationDto>, extraColumn: string, extraValue: string)
    returns (r: seq<TransformationDto>)
    requires forall i, j :: 0 <= i < j < |dtos| ==> dtos[i] != dtos[j]
    modifies set d | d in dtos
    ensures r == dtos
    ensures forall i :: 0 <= i < |dtos| ==> dtos[i].data == WithColumn(old(dtos[i].data), extraColumn, Str(extraValue))
  {
    for k := 0 to |dtos|
      invariant forall i :: 0 <= i < k ==> dtos[i].data == WithColumn(old(dtos[i].data), extraColumn, Str(extraValue))
      invariant forall i :: k <= i < |dtos| ==> dtos[i].data == old(dtos[i].data)
    {
      dtos[k].data := WithColumn(dtos[k].data, extraColumn, Str(extraValue));
    }
    r := dtos;
  }

  /** `pd.concat` of frames: their rows one after the other. */
  function Concat(ts: seq<Table>): (t: Table)
    ensures |ts| == 0 ==> t == []
    decreases |ts|
  {
    if ts == [] then [] else Concat(ts[..|ts| - 1]) + ts[|ts| - 1]
  }

  /** Concatenation loses no row and invents none: every row of every frame
      is in it, and every row in it comes from some frame. */
  lemma {:induction false} ConcatMembers(ts: seq<Table>)
    ensures forall k, i :: 0 <= k < |ts| && 0 <= i < |ts[k]| ==> ts[k][i] in Concat(ts)
    ensures forall r :: r in Concat(ts) ==> exists k :: 0 <= k < |ts| && r in ts[k]
    decreases |ts|
  {
    if ts != [] {
      var front, x := ts[..|ts| - 1], ts[|ts| - 1];
      ConcatMembers(front);
      assert Concat(ts) == Concat(front) + x;
      forall k, i | 0 <= k < |ts| && 0 <= i < |ts[k]|
        ensures ts[k][i] in Concat(ts)
      {
        if k < |front| {
          assert front[k] == ts[k];
        }
      }
      forall r | r in Concat(ts)
        ensures exists k :: 0 <= k < |ts| && r in ts[k]
      {
        if r in Concat(front) {
          var k :| 0 <= k < |front| && r in front[k];
          assert front[k] == ts[k];
        } else {
          assert r in ts[|ts| - 1];
        }
      }
    }
  }

  /** concat_data: the frames of the DTOs, in list order. */
  function ConcatData(dtos: seq<TransformationDto>): (r: Table)
    reads dtos
    ensures |dtos| == 0 ==> r == []
    ensures forall k, i :: 0 <= k < |dtos| && 0 <= i < |dtos[k].data| ==> dtos[k].data[i] in r
    ensures forall row :: row in r ==> exists k :: 0 <= k < |dtos| && row in dtos[k].data
  {
    var ts := seq(|dtos|, i reads dtos requires 0 <= i < |dtos| => dtos[i].data);
    assert forall k :: 0 <= k < |ts| ==> ts[k] == dtos[k].data;
    ConcatMembers(ts);
    Concat(ts)
  }

  lemma {:induction false} ConcatAppend(a: seq<Table>, b: seq<Table>)
    ensures Concat(a + b) == Concat(a) + Concat(b)
    decreases |b|
  {
    if b == [] {
      assert a + b == a;
    } else {
      assert (a + b)[..|a + b| - 1] == a + b[..|b| - 1];
      ConcatAppend(a, b[..|b| - 1]);
    }
  }

  /** Concatenation keeps every row of every frame and adds none: the row
      count is the sum and frame k's rows sit after those of frames before it. */
  lemma {:induction false} ConcatRows(ts: seq<Table>, k: int, i: int)
    requires 0 <= k < |ts| && 0 <= i < |ts[k]|
    ensures |Concat(ts[..k])| + i < |Concat(ts)|
    ensures Concat(ts)[|Concat(ts[..k])| + i] == ts[k][i]
  {
    assert ts == ts[..k] + [ts[k]] + ts[k + 1..];
    ConcatAppend(ts[..k] + [ts[k]], ts[k + 1..]);
    ConcatAppend(ts[..k], [ts[k]]);
    assert Concat([ts[k]]) == ts[k] by {
      assert [ts[k]][..0] == [];
    }
  }

  /** The columns of a frame: every name some row carries. Concatenated
      frames have the union of their columns, Null where a row lacks one. */
  function Columns(t: Table): set<string>
  {
    set i, c | 0 <= i < |t| && c in t[i] :: c
  }

  /** fillna("NA"): every row gets every column of the frame, and every Null
      or missing cell becomes the string NA. */
  function FillMissing(t: Table): (u: Table)
    ensures |u| == |t|
    ensures forall i :: 0 <= i < |t| ==> u[i].Keys == Columns(t)
    ensures forall i, c :: 0 <= i < |t| && c in Columns(t) ==>
      u[i][c] == if Cell(t[i], c) == Null then Str("NA") else t[i][c]
  {
    var cols := Columns(t);
    seq(|t|, i requires 0 <= i < |t| => map c | c in cols :: if Cell(t[i], c) == Null then Str("NA") else t[i][c])
  }

  /** After filling nothing is Null, so cleaning the filled frame removes
      nothing. */
  lemma FillMissingNoNull(t: Table)
    ensures forall i :: 0 <= i < |FillMissing(t)| ==> !HasNull(FillMissing(t)[i])
    ensures DropNull(FillMissing(t)) == FillMissing(t)
  {
    var u := FillMissing(t);
    forall i | 0 <= i < |u| ensures !HasNull(u[i]) {
      forall c | c in u[i] ensures u[i][c] != Null {
      }
    }
    FilterAll(u, (r: Row) => !HasNull(r));
  }

  /** A frame whose rows all carry the same columns has those columns. */
  lemma ColumnsUniform(u: Table, k: set<string>)
    requires |u| > 0
    requires forall i :: 0 <= i < |u| ==> u[i].Keys == k
    ensures Columns(u) == k
  {
    forall c | c in k ensures c in Columns(u) {
      assert c in u[0];
    }
  }

  /** Filling keeps the frame's columns, and filling again changes nothing. */
  lemma FillMissingIdempotent(t: Table)
    ensures Columns(FillMissing(t)) == Columns(t)
    ensures FillMissing(FillMissing(t)) == FillMissing(t)
  {
    var u := FillMissing(t);
    if |t| > 0 {
      ColumnsUniform(u, Columns(t));
    }
    var w := FillMissing(u);
    forall i | 0 <= i < |u| ensures w[i] == u[i] {
      forall c | c in u[i] ensures w[i][c] == u[i][c] {
        assert u[i][c] != Null;
      }
    }
  }
}
