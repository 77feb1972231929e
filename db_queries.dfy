// The database helpers' statement and parameter assembly
// (src/llminspect/common/db_handler.py, and the trimmed copy
// postprod-eval/src/llmevalgrader/common/db_handler.py whose
// select_row_by_columns and upsert_into_table are the same code).
// A statement is a sequence of SQL text pieces and `?` parameter markers, so
// that the markers pyodbc binds can be counted; the database behind the
// cursor is the parameter `db`, a function from a statement and its
// parameters to the answer the cursor reads.
module DbQueries {
  import opened Tables
  import opened Dates

  // ---------------------------------------------------------------------
  // Statements

  datatype Piece = Sql(text: string) | Mark

  type Query = seq<Piece>

  /** The statement text sent to the driver. */
  function Render(q: Query): string
    decreases |q|
  {
    if q == [] then "" else (if q[0].Mark? then "?" else q[0].text) + Render(q[1..])
  }

  /** The number of parameter markers. */
  function MarkCount(q: Query): nat
  {
    multiset(q)[Mark]
  }

  /** No text piece contains a question mark (table and column names are
      identifiers). */
  predicate PlainText(q: Query)
  {
    forall i :: 0 <= i < |q| && q[i].Sql? ==> '?' !in q[i].text
  }

  function Text(s: string): Query
  {
    [Sql(s)]
  }

  /** Consecutive text pieces, without markers. */
  function Texts(ss: seq<string>): (q: Query)
    ensures MarkCount(q) == 0
  {
    var q := seq(|ss|, i requires 0 <= i < |ss| => Sql(ss[i]));
    assert Mark !in q;
    q
  }

  /** `sep.join(parts)` over statement pieces. */
  function JoinQ(sep: string, parts: seq<Query>): Query
    decreases |parts|
  {
    if parts == [] then []
    else if |parts| == 1 then parts[0]
    else parts[0] + Text(sep) + JoinQ(sep, parts[1..])
  }

  /** `n` lone markers, the parts of `", ".join("?" * n)`. */
  function MarkParts(n: nat): (parts: seq<Query>)
    ensures |parts| == n && forall i :: 0 <= i < n ==> parts[i] == [Mark]
  {
    seq(n, _ => [Mark])
  }

  lemma {:induction false} CountAbsent(s: string, ch: char)
    requires ch !in s
    ensures Count(s, ch) == 0
    decreases |s|
  {
    if s != [] {
      assert forall x :: x in s[1..] ==> x in s;
      CountAbsent(s[1..], ch);
    }
  }

  /** For plain text pieces the rendered statement holds exactly one `?` per
      marker, so counting markers is counting what the driver binds. */
  lemma {:induction false} RenderMarks(q: Query)
    requires PlainText(q)
    ensures Count(Render(q), '?') == MarkCount(q)
    decreases |q|
  {
    if q != [] {
      assert q == [q[0]] + q[1..];
      assert multiset(q) == multiset([q[0]]) + multiset(q[1..]);
      var head := if q[0].Mark? then "?" else q[0].text;
      CountAppend(head, Render(q[1..]), '?');
      if q[0].Mark? {
        assert Count(head, '?') == 1 by { assert head[1..] == []; }
      } else {
        CountAbsent(head, '?');
      }
      RenderMarks(q[1..]);
    }
  }

  /** Joining parts of one marker each gives one marker per part. */
  lemma {:induction false} JoinMarks(sep: string, parts: seq<Query>)
    requires forall i :: 0 <= i < |parts| ==> MarkCount(parts[i]) == 1
    ensures MarkCount(JoinQ(sep, parts)) == |parts|
    decreases |parts|
  {
    if |parts| > 1 {
      var rest := JoinQ(sep, parts[1..]);
      JoinMarks(sep, parts[1..]);
      assert JoinQ(sep, parts) == parts[0] + Text(sep) + rest;
      assert MarkCount(parts[0] + Text(sep) + rest) == MarkCount(parts[0]) + MarkCount(Text(sep)) + MarkCount(rest);
    }
  }

  // ---------------------------------------------------------------------
  // Entities and answers

  /** An entity object's `__dict__`: its attributes in definition order. */
  type Entity = seq<(string, Value)>

  function Columns(e: Entity): (cs: seq<string>)
    ensures |cs| == |e| && forall i :: 0 <= i < |e| ==> cs[i] == e[i].0
  {
    seq(|e|, i requires 0 <= i < |e| => e[i].0)
  }

  function FieldValues(e: Entity): (vs: seq<Value>)
    ensures |vs| == |e| && forall i :: 0 <= i < |e| ==> vs[i] == e[i].1
  {
    seq(|e|, i requires 0 <= i < |e| => e[i].1)
  }

  /** The keys of a `__dict__` are distinct. */
  predicate WellFormed(e: Entity)
  {
    NoDup(Columns(e))
  }

  /** `entity.__dict__[col]`, a KeyError when the attribute is missing. */
  function Attr(e: Entity, col: string): (r: Result<Value>)
    ensures r.Ok? <==> col in Columns(e)
    ensures r.Ok? ==> exists i :: 0 <= i < |e| && e[i] == (col, r.value)
    decreases |e|
  {
    if e == [] then Err("KeyError: " + col)
    else if e[0].0 == col then Ok(e[0].1)
    else
      assert Columns(e) == [e[0].0] + Columns(e[1..]);
      var r := Attr(e[1..], col);
      if r.Ok? then assert e[1..][0] == e[1]; r else r
  }

  /** In a well-formed entity the attribute at position `i` is found by name. */
  lemma {:induction false} AttrAt(e: Entity, i: nat)
    requires WellFormed(e) && i < |e|
    ensures Attr(e, e[i].0) == Ok(e[i].1)
    decreases |e|
  {
    if i > 0 {
      WellFormedTail(e);
      assert e[1..][i - 1] == e[i];
      AttrAt(e[1..], i - 1);
    }
  }

  /** Dropping the first attribute keeps the names distinct, and the first
      name occurs nowhere else. */
  lemma WellFormedTail(e: Entity)
    requires WellFormed(e) && e != []
    ensures WellFormed(e[1..])
    ensures forall i :: 1 <= i < |e| ==> e[i].0 != e[0].0
  {
    var cs, ts := Columns(e), Columns(e[1..]);
    assert forall a :: 0 <= a < |ts| ==> ts[a] == cs[a + 1];
    assert forall i :: 1 <= i < |e| ==> cs[i] == e[i].0 && cs[0] == e[0].0;
  }

  /** What the cursor holds after `execute`: the column names of
      `cursor.description` and the fetched rows. */
  datatype Answer = Answer(columns: seq<string>, rows: seq<seq<Value>>)

  type Database = (Query, seq<Value>) -> Answer

  /** `zip(columns, row)`: pairs up to the shorter of the two. */
  function RowItems(columns: seq<string>, row: seq<Value>): (items: seq<(string, Value)>)
    ensures |items| == if |columns| <= |row| then |columns| else |row|
    ensures forall i :: 0 <= i < |items| ==> items[i] == (columns[i], row[i])
  {
    var n := if |columns| <= |row| then |columns| else |row|;
    seq(n, i requires 0 <= i < n => (columns[i], row[i]))
  }

  /** `dict(items)`: a later pair for the same key overwrites an earlier one. */
  function RowDict(items: seq<(string, Value)>): (d: Row)
    ensures d.Keys == set i | 0 <= i < |items| :: items[i].0
    decreases |items|
  {
    if items == [] then map[]
    else
      var n := |items| - 1;
      var d := RowDict(items[..n])[items[n].0 := items[n].1];
      assert forall i :: 0 <= i < n ==> items[..n][i] == items[i];
      d
  }

  /** With distinct column names and a full row, the dictionary maps every
      column to its own cell. */
  lemma {:induction false} RowDictLookup(columns: seq<string>, row: seq<Value>, j: nat)
    requires NoDup(columns) && |row| == |columns| && j < |columns|
    ensures RowDict(RowItems(columns, row))[columns[j]] == row[j]
    decreases |columns|
  {
    var n := |columns| - 1;
    if j < n {
      assert RowItems(columns, row)[..n] == RowItems(columns[..n], row[..n]);
      assert NoDup(columns[..n]) by {
        forall a, b | 0 <= a < b < n
          ensures columns[..n][a] != columns[..n][b]
        {
          assert columns[a] != columns[b];
        }
      }
      RowDictLookup(columns[..n], row[..n], j);
      assert columns[..n][j] == columns[j] && row[..n][j] == row[j];
    }
  }

  /** `execute`: the driver refuses a statement whose markers and parameters
      differ in number. */
  function Execute(db: Database, q: Query, params: seq<Value>): Result<Answer>
  {
    if MarkCount(q) != |params| then Err("The SQL contains " + IntToString(MarkCount(q)) +
                                         " parameter markers, but " + IntToString(|params|) + " parameters were supplied")
    else Ok(db(q, params))
  }

  /** The fetched rows as dictionaries. */
  function AnswerRows(a: Answer): (rows: seq<Row>)
    ensures |rows| == |a.rows|
    ensures forall i :: 0 <= i < |rows| ==> rows[i] == RowDict(RowItems(a.columns, a.rows[i]))
    ensures NoDup(a.columns) ==>
      forall i, j :: 0 <= i < |rows| && 0 <= j < |a.columns| && |a.rows[i]| == |a.columns| ==>
        a.columns[j] in rows[i] && rows[i][a.columns[j]] == a.rows[i][j]
  {
    var rows := seq(|a.rows|, i requires 0 <= i < |a.rows| => RowDict(RowItems(a.columns, a.rows[i])));
    forall i, j | 0 <= i < |rows| && 0 <= j < |a.columns| && |a.rows[i]| == |a.columns| && NoDup(a.columns)
      ensures a.columns[j] in rows[i] && rows[i][a.columns[j]] == a.rows[i][j]
    {
      assert RowItems(a.columns, a.rows[i])[j].0 == a.columns[j];
      RowDictLookup(a.columns, a.rows[i], j);
    }
    rows
  }

  /** execute_query: every fetched row as a dictionary, none when the
      cursor is empty. */
  function ExecuteQuery(db: Database, q: Query, params: seq<Value>): (r: Result<seq<Row>>)
    ensures r.Ok? <==> MarkCount(q) == |params|
    ensures r.Ok? ==> r.value == AnswerRows(db(q, params))
  {
    var a :- Execute(db, q, params);
    Ok(AnswerRows(a))
  }

  // ---------------------------------------------------------------------
  // insert_into_table

  /** A statement ready for `executemany`: the text and one parameter tuple
      per entity. */
  datatype Statement = Statement(query: Query, params: seq<seq<Value>>)

  /** "INSERT INTO t (c1, ..., cn) VALUES (?, ..., ?)" over the first
      entity's attributes. */
  function InsertQuery(table: string, first: Entity): (q: Query)
    ensures MarkCount(q) == |first|
  {
    JoinMarks(", ", MarkParts(|first|));
    Texts(["INSERT INTO ", table, " (", Join(", ", Columns(first)), ") VALUES ("]) +
    JoinQ(", ", MarkParts(|first|)) + Text(")")
  }

  /** insert_into_table: IndexError for no entities; otherwise the columns
      of the first entity and every entity's own values, in order. A tuple
      binds exactly when its entity has as many attributes as the first. */
  function InsertIntoTable(table: string, entities: seq<Entity>): (r: Result<Statement>)
    ensures r.Ok? <==> |entities| > 0
    ensures r.Ok? ==> r.value.query == InsertQuery(table, entities[0]) && |r.value.params| == |entities|
    ensures r.Ok? ==> forall i :: 0 <= i < |entities| ==> r.value.params[i] == FieldValues(entities[i])
    ensures r.Ok? ==> forall i :: 0 <= i < |entities| ==>
      (|r.value.params[i]| == MarkCount(r.value.query) <==> |entities[i]| == |entities[0]|)
  {
    if entities == [] then Err("list index out of range")
    else
      Ok(Statement(InsertQuery(table, entities[0]),
                   seq(|entities|, i requires 0 <= i < |entities| => FieldValues(entities[i]))))
  }

  // ---------------------------------------------------------------------
  // upsert_into_table

  /** "target.c = source.c" for each unique column. */
  function OnPairs(unique: seq<string>): seq<string>
  {
    seq(|unique|, i requires 0 <= i < |unique| => "target." + unique[i] + " = source." + unique[i])
  }

  /** "c = ?" for each column, as in the MERGE's UPDATE SET list and the
      WHERE condition of select_row_by_columns. */
  function Equalities(columns: seq<string>): (parts: seq<Query>)
    ensures |parts| == |columns| && forall i :: 0 <= i < |parts| ==> MarkCount(parts[i]) == 1
  {
    seq(|columns|, i requires 0 <= i < |columns| => [Sql(columns[i] + " = "), Mark])
  }

  /** The MERGE statement: a source row of the unique columns matched
      against the target on all of them; when matched (unless insert-only)
      every attribute of the first entity is set, and when not matched one
      is inserted. */
  function MergeQuery(table: string, first: Entity, unique: seq<string>, insertOnly: bool): Query
  {
    var head := Texts(["MERGE ", table, " AS target USING (VALUES ( "]) + JoinQ(",", MarkParts(|unique|)) +
                Texts([")) AS source (", Join(",", unique), ") ON (", Join(" AND ", OnPairs(unique)), ")"]);
    var update := Text(" WHEN MATCHED THEN UPDATE SET ") + JoinQ(",", Equalities(Columns(first)));
    var insert := Texts([" WHEN NOT MATCHED THEN INSERT (", Join(", ", Columns(first)), ") VALUES ("]) +
                  JoinQ(", ", MarkParts(|first|)) + Text(");");
    head + (if insertOnly then [] else update) + insert
  }

  /** The column each marker of the MERGE stands for, in order: the unique
      columns of the source row, then (unless insert-only) the SET columns,
      then the inserted columns. */
  function MergeSlots(first: Entity, unique: seq<string>, insertOnly: bool): seq<string>
  {
    unique + (if insertOnly then [] else Columns(first)) + Columns(first)
  }

  /** The MERGE has one marker per slot: |unique| + |attributes| when
      insert-only, |unique| + 2·|attributes| otherwise. */
  lemma MergeArity(table: string, first: Entity, unique: seq<string>, insertOnly: bool)
    ensures MarkCount(MergeQuery(table, first, unique, insertOnly)) == |MergeSlots(first, unique, insertOnly)|
    ensures |MergeSlots(first, unique, insertOnly)| == |unique| + (if insertOnly then 1 else 2) * |first|
  {
    JoinMarks(",", MarkParts(|unique|));
    JoinMarks(",", Equalities(Columns(first)));
    JoinMarks(", ", MarkParts(|first|));
  }

  /** `tuple(entity.__dict__[col] for col in unique_columns)`. */
  function UniqueValues(e: Entity, unique: seq<string>): (r: Result<seq<Value>>)
    ensures r.Ok? <==> forall k :: 0 <= k < |unique| ==> unique[k] in Columns(e)
    ensures r.Ok? ==> |r.value| == |unique| && forall k :: 0 <= k < |unique| ==> Attr(e, unique[k]) == Ok(r.value[k])
    decreases |unique|
  {
    if unique == [] then Ok([])
    else
      var v :- Attr(e, unique[0]);
      var rest :- UniqueValues(e, unique[1..]);
      assert forall k :: 1 <= k < |unique| ==> unique[k] == unique[1..][k - 1];
      Ok([v] + rest)
  }

  /** One entity's parameter tuple: the unique values, then every attribute
      value, twice unless insert-only. */
  function MergeParams(e: Entity, unique: seq<string>, insertOnly: bool): Result<seq<Value>>
  {
    var uv :- UniqueValues(e, unique);
    Ok(uv + FieldValues(e) + (if insertOnly then [] else FieldValues(e)))
  }

  /** Each marker of the MERGE receives the value of the column it stands
      for, for every well-formed entity with the first entity's attributes. */
  lemma MergeBinding(first: Entity, e: Entity, unique: seq<string>, insertOnly: bool)
    requires WellFormed(e) && Columns(e) == Columns(first)
    requires MergeParams(e, unique, insertOnly).Ok?
    ensures var p, slots := MergeParams(e, unique, insertOnly).value, MergeSlots(first, unique, insertOnly);
      |p| == |slots| && forall k :: 0 <= k < |p| ==> Attr(e, slots[k]) == Ok(p[k])
  {
    var p, slots := MergeParams(e, unique, insertOnly).value, MergeSlots(first, unique, insertOnly);
    var u := |unique|;
    var extra := if insertOnly then 0 else |e|;
    forall k | 0 <= k < |p|
      ensures Attr(e, slots[k]) == Ok(p[k])
    {
      if k >= u {
        var j := if k < u + extra then k - u else k - u - extra;
        assert slots[k] == Columns(first)[j] == e[j].0;
        assert p[k] == FieldValues(e)[j];
        AttrAt(e, j);
      }
    }
  }

  /** upsert_into_table: nothing for None or no entities; otherwise the
      MERGE over the first entity's attributes and one parameter tuple per
      entity, in order, or the KeyError of the first entity lacking a unique
      column. */
  method UpsertIntoTable(table: string, entities: Option<seq<Entity>>, unique: seq<string>, insertOnly: bool)
    returns (r: Result<Option<Statement>>)
    ensures (entities.None? || entities.value == []) <==> r == Ok(None)
    ensures entities.Some? && entities.value != [] ==>
      (r.Err? <==> exists i :: 0 <= i < |entities.value| && MergeParams(entities.value[i], unique, insertOnly).Err?)
    ensures r.Ok? && r.value.Some? ==>
      entities.Some? && entities.value != [] &&
      r.value.value.query == MergeQuery(table, entities.value[0], unique, insertOnly) &&
      |r.value.value.params| == |entities.value| &&
      forall i :: 0 <= i < |entities.value| ==>
        MergeParams(entities.value[i], unique, insertOnly) == Ok(r.value.value.params[i])
  {
    if entities.None? || |entities.value| == 0 {
      return Ok(None);
    }
    var es := entities.value;
    var query := MergeQuery(table, es[0], unique, insertOnly);
    var paramsList :- MergeParamsList(es, unique, insertOnly);
    r := Ok(Some(Statement(query, paramsList)));
  }

  /** The loop of upsert_into_table: the parameter tuple of each entity, in
      order, or the KeyError of the first entity lacking a unique column. */
  method MergeParamsList(es: seq<Entity>, unique: seq<string>, insertOnly: bool)
    returns (r: Result<seq<seq<Value>>>)
    ensures r.Err? <==> exists i :: 0 <= i < |es| && MergeParams(es[i], unique, insertOnly).Err?
    ensures r.Ok? ==> |r.value| == |es|
    ensures r.Ok? ==> forall i :: 0 <= i < |es| ==> MergeParams(es[i], unique, insertOnly) == Ok(r.value[i])
  {
    var paramsList: seq<seq<Value>> := [];
    for i := 0 to |es|
      invariant |paramsList| == i
      invariant forall k :: 0 <= k < i ==> MergeParams(es[k], unique, insertOnly) == Ok(paramsList[k])
    {
      var uniqueValues :- UniqueValues(es[i], unique);
      var placeholderValues := FieldValues(es[i]);
      var mergeParams := if insertOnly then uniqueValues + placeholderValues
                         else uniqueValues + placeholderValues + placeholderValues;
      assert uniqueValues + placeholderValues + [] == uniqueValues + placeholderValues;
      paramsList := paramsList + [mergeParams];
    }
    r := Ok(paramsList);
  }

  /** Every tuple of an upsert binds — as many parameters as markers —
      exactly when its entity has as many attributes as the first. */
  lemma UpsertBinds(table: string, es: seq<Entity>, unique: seq<string>, insertOnly: bool, s: Statement, i: nat)
    requires i < |es| && |s.params| == |es| && s.query == MergeQuery(table, es[0], unique, insertOnly)
    requires MergeParams(es[i], unique, insertOnly) == Ok(s.params[i])
    ensures |s.params[i]| == MarkCount(s.query) <==> |es[i]| == |es[0]|
  {
    MergeArity(table, es[0], unique, insertOnly);
    ParamsArity(es[i], unique, insertOnly);
    if insertOnly {
      assert |s.params[i]| == |unique| + |es[i]| && MarkCount(s.query) == |unique| + |es[0]|;
    } else {
      assert |s.params[i]| == |unique| + 2 * |es[i]| && MarkCount(s.query) == |unique| + 2 * |es[0]|;
    }
  }

  /** A parameter tuple has one value per slot of the entity's MERGE. */
  lemma ParamsArity(e: Entity, unique: seq<string>, insertOnly: bool)
    requires MergeParams(e, unique, insertOnly).Ok?
    ensures |MergeParams(e, unique, insertOnly).value| == |unique| + (if insertOnly then 1 else 2) * |e|
  {
  }

  // ---------------------------------------------------------------------
  // select_row_by_columns

  /** The WHERE condition: the lone equality of a single column is the same
      as the " AND " join, and there is one marker per column. */
  function WhereCondition(names: seq<string>): (q: Query)
    ensures q == JoinQ(" AND ", Equalities(names))
    ensures MarkCount(q) == |names|
  {
    JoinMarks(" AND ", Equalities(names));
    if |names| == 1 then [Sql(names[0] + " = "), Mark] else JoinQ(" AND ", Equalities(names))
  }

  function SelectRowQuery(table: string, names: seq<string>, selectColumn: Option<string>): (q: Query)
    ensures MarkCount(q) == |names|
  {
    Texts(["SELECT ", if selectColumn.None? then "*" else selectColumn.value, " FROM ", table, " WHERE "]) +
    WhereCondition(names)
  }

  /** `needle in hay` on strings. */
  predicate Contains(hay: string, needle: string)
  {
    exists i :: 0 <= i <= |hay| && At(hay, needle, i)
  }

  /** A one-character string contains only the empty string and itself. */
  lemma ContainsOneChar(c: char, needle: string)
    ensures Contains([c], needle) <==> needle == [] || needle == [c]
  {
    if needle == [] {
      assert At([c], needle, 0);
    } else if needle == [c] {
      assert At([c], needle, 0);
    }
  }

  /** The pick loop as written: for each (key, value) the test is
      `select_column_name in key[0]`, against the key's first character; an
      empty key raises IndexError. */
  function PickAsWritten(items: seq<(string, Value)>, name: string): (r: Result<Row>)
    decreases |items|
  {
    if items == [] then Ok(map[])
    else if |items[0].0| == 0 then Err("string index out of range")
    else if Contains([items[0].0[0]], name) then Ok(map[name := items[0].1])
    else PickAsWritten(items[1..], name)
  }

  method PickColumnAsWritten(items: seq<(string, Value)>, name: string) returns (r: Result<Row>)
    ensures r == PickAsWritten(items, name)
  {
    var parsed: Row := map[];
    var i := 0;
    while i < |items|
      invariant 0 <= i <= |items|
      invariant PickAsWritten(items, name) == PickAsWritten(items[i..], name)
      invariant parsed == map[]
    {
      var (key, value) := items[i];
      assert items[i..][0] == items[i] && items[i..][1..] == items[i + 1..];
      if |key| == 0 {
        return Err("string index out of range");
      }
      if Contains([key[0]], name) {
        parsed := map[name := value];
        break;
      }
      i := i + 1;
    }
    return Ok(parsed);
  }

  /** As written, a column name of two or more characters is never found:
      the pick is always empty (or an IndexError). */
  lemma {:induction false} AsWrittenNeverFinds(items: seq<(string, Value)>, name: string)
    requires |name| >= 2
    ensures PickAsWritten(items, name).Ok? ==> PickAsWritten(items, name).value == map[]
    decreases |items|
  {
    if items != [] && |items[0].0| > 0 {
      ContainsOneChar(items[0].0[0], name);
      AsWrittenNeverFinds(items[1..], name);
    }
  }

  /** `SELECT metric_id ...` answers one column named metric_id; the loop as
      written returns an empty dictionary for it. */
  lemma AsWrittenDropsSelectedColumn()
    ensures PickAsWritten([("metric_id", Int(7))], "metric_id") == Ok(map[])
    ensures PickColumn([("metric_id", Int(7))], "metric_id") == map["metric_id" := Int(7)]
  {
    ContainsOneChar('m', "metric_id");
  }

  /** The pair `dict(items)` keeps for a key: the last pair with that key. */
  lemma {:induction false} RowDictLastAt(items: seq<(string, Value)>, name: string) returns (i: nat)
    requires name in RowDict(items)
    ensures i < |items| && items[i] == (name, RowDict(items)[name])
    ensures forall j :: i < j < |items| ==> items[j].0 != name
    decreases |items|
  {
    var n := |items| - 1;
    var front := items[..n];
    assert RowDict(items) == RowDict(front)[items[n].0 := items[n].1];
    if items[n].0 == name {
      i := n;
    } else {
      i := RowDictLastAt(front, name);
      assert items[i] == front[i];
      forall j | i < j < |items| ensures items[j].0 != name {
        if j < n { assert items[j] == front[j]; }
      }
    }
  }

  /** The same, as a statement about some pair. */
  lemma RowDictLast(items: seq<(string, Value)>, name: string)
    requires name in RowDict(items)
    ensures exists i :: 0 <= i < |items| && items[i] == (name, RowDict(items)[name]) &&
                        forall j :: i < j < |items| ==> items[j].0 != name
  {
    var i := RowDictLastAt(items, name);
  }

  /** The evidently intended pick: the selected name looked up in the row's
      dictionary, so a repeated column name gives its last cell; an empty
      dictionary when no column has the name. */
  function PickColumn(items: seq<(string, Value)>, name: string): (r: Row)
    ensures r.Keys <= {name}
    ensures name in r <==> exists i :: 0 <= i < |items| && items[i].0 == name
    ensures name in r ==> exists i :: 0 <= i < |items| && items[i] == (name, r[name]) &&
                                      forall j :: i < j < |items| ==> items[j].0 != name
  {
    var d := RowDict(items);
    if name in d then
      RowDictLast(items, name);
      map[name := d[name]]
    else map[]
  }

  /** select_row_by_columns: the statement "SELECT * | col FROM t WHERE
      c1 = ? AND ... AND cn = ?" with the given values as parameters; None
      when no row comes back, else the first row as a dictionary, or only the
      selected column. */
  function SelectRowByColumns(db: Database, table: string, names: seq<string>, values: seq<Value>,
                              selectColumn: Option<string>): (r: Result<Option<Row>>)
    ensures r.Err? <==> |names| != |values|
    ensures r == Ok(None) <==>
      |names| == |values| && db(SelectRowQuery(table, names, selectColumn), values).rows == []
    ensures r.Ok? && r.value.Some? && selectColumn.Some? ==> r.value.value.Keys <= {selectColumn.value}
    ensures r.Ok? && r.value.Some? ==>
      var a := db(SelectRowQuery(table, names, selectColumn), values);
      a.rows != [] &&
      (selectColumn.None? ==> r.value.value == RowDict(RowItems(a.columns, a.rows[0]))) &&
      (selectColumn.Some? ==> r.value.value == PickColumn(RowItems(a.columns, a.rows[0]), selectColumn.value))
  {
    var a :- Execute(db, SelectRowQuery(table, names, selectColumn), values);
    if a.rows == [] then Ok(None)
    else
      var items := RowItems(a.columns, a.rows[0]);
      if selectColumn.None? then Ok(Some(RowDict(items)))
      else Ok(Some(PickColumn(items, selectColumn.value)))
  }

  /** When the database answers the selected column, the value comes back
      under its name. */
  lemma SelectColumnFound(db: Database, table: string, names: seq<string>, values: seq<Value>, col: string, v: Value)
    requires |names| == |values|
    requires var a := db(SelectRowQuery(table, names, Some(col)), values);
      a.columns == [col] && |a.rows| > 0 && a.rows[0] == [v]
    ensures SelectRowByColumns(db, table, names, values, Some(col)) == Ok(Some(map[col := v]))
  {
    var a := db(SelectRowQuery(table, names, Some(col)), values);
    assert RowItems(a.columns, a.rows[0]) == [(col, v)];
  }

  // ---------------------------------------------------------------------
  // select_by_column_values and select_by_date_range_for_app_metric

  function ColumnValuesQuery(table: string, column: string, count: nat, selectColumn: Option<string>): (q: Query)
    ensures MarkCount(q) == count
  {
    JoinMarks(", ", MarkParts(count));
    Texts(["SELECT ", if selectColumn.None? then "*" else selectColumn.value, " FROM ", table, " WHERE ",
           column, " IN ("]) + JoinQ(", ", MarkParts(count)) + Text(")")
  }

  /** select_by_column_values: "... WHERE column IN (?, ..., ?)" with one
      marker per value, so the statement always binds. */
  function SelectByColumnValues(db: Database, table: string, column: string, values: seq<Value>,
                                selectColumn: Option<string>): (r: Result<seq<Row>>)
    ensures r.Ok?
    ensures |r.value| == |db(ColumnValuesQuery(table, column, |values|, selectColumn), values).rows|
    ensures r == Ok(AnswerRows(db(ColumnValuesQuery(table, column, |values|, selectColumn), values)))
  {
    ExecuteQuery(db, ColumnValuesQuery(table, column, |values|, selectColumn), values)
  }

  function AppMetricQuery(table: string, column: string, count: nat): (q: Query)
    ensures MarkCount(q) == 3 + count
  {
    var from := Texts(["SELECT * FROM ", table, " WHERE ", column, " >= "]) + [Mark];
    var to := Texts([" AND ", column, " <= "]) + [Mark];
    var app := Text(" AND app_id = ") + [Mark];
    var ids := JoinQ(",", MarkParts(count));
    JoinMarks(",", MarkParts(count));
    assert MarkCount(from) == 1 && MarkCount(to) == 1 && MarkCount(app) == 1;
    var list := Text(" AND metric_id IN (") + ids + Text(")");
    assert MarkCount(list) == count;
    assert MarkCount(from + to + app + list) == MarkCount(from) + MarkCount(to) + MarkCount(app) + MarkCount(list);
    from + to + app + list
  }

  /** select_by_date_range_for_app_metric: the start, end and application,
      then the metric ids, one marker each, so the statement always binds. */
  function SelectByDateRangeForAppMetric(db: Database, table: string, column: string, start: Value, end: Value,
                                         appId: Value, metricIds: seq<Value>): (r: Result<seq<Row>>)
    ensures r.Ok?
    ensures |r.value| == |db(AppMetricQuery(table, column, |metricIds|), [start, end, appId] + metricIds).rows|
    ensures r == Ok(AnswerRows(db(AppMetricQuery(table, column, |metricIds|), [start, end, appId] + metricIds)))
  {
    ExecuteQuery(db, AppMetricQuery(table, column, |metricIds|), [start, end, appId] + metricIds)
  }

  // ---------------------------------------------------------------------
  // select_by_date_range

  /** `strftime("%Y-%m-%d %H:%M:%S")`. */
  function SqlTimestamp(t: DateTime): (s: string)
    requires Valid(t) && CivilOf(t.ordinal).year <= 9999
  {
    var c := CivilOf(t.ordinal);
    var sec := t.micros / 1_000_000;
    Pad4(c.year) + "-" + Pad2(c.month) + "-" + Pad2(c.day) + " " +
    Pad2(sec / 3600) + ":" + Pad2(sec / 60 % 60) + ":" + Pad2(sec % 60)
  }

  /** The row numbers a page covers: start_page through
      start_page + page_size - 1; no pagination unless both are given. */
  function PageBounds(startPage: Option<int>, pageSize: Option<int>): Option<(int, int)>
  {
    if startPage.Some? && pageSize.Some? then Some((startPage.value, startPage.value + pageSize.value - 1))
    else None
  }

  /** `WHERE rownumber BETWEEN lo AND hi` over rows numbered from 1. */
  function RowNumberWindow<T>(ordered: seq<T>, lo: int, hi: int): (w: seq<T>)
    ensures |w| <= |ordered|
  {
    var from := if lo < 1 then 0 else if lo - 1 > |ordered| then |ordered| else lo - 1;
    var to := if hi < from then from else if hi > |ordered| then |ordered| else hi;
    ordered[from..to]
  }

  /** A page starting at row 1 or later holds page_size rows while the
      ordered rows last, and consecutive pages tile the ordered rows. */
  lemma PagesTile<T>(ordered: seq<T>, startPage: int, size1: nat, size2: nat)
    requires startPage >= 1
    ensures var b := PageBounds(Some(startPage), Some(size1)).value;
      startPage - 1 + size1 <= |ordered| ==> |RowNumberWindow(ordered, b.0, b.1)| == size1
    ensures var b1, b2 := PageBounds(Some(startPage), Some(size1)).value,
                          PageBounds(Some(startPage + size1), Some(size2)).value;
      var b := PageBounds(Some(startPage), Some(size1 + size2)).value;
      RowNumberWindow(ordered, b1.0, b1.1) + RowNumberWindow(ordered, b2.0, b2.1) == RowNumberWindow(ordered, b.0, b.1)
  {
    var n := |ordered|;
    var lo := if startPage - 1 > n then n else startPage - 1;
    var mid := if startPage - 1 + size1 > n then n else startPage - 1 + size1;
    var hi := if startPage - 1 + size1 + size2 > n then n else startPage - 1 + size1 + size2;
    assert ordered[lo..mid] + ordered[mid..hi] == ordered[lo..hi];
  }

  function DateRangeQuery(schema: string, table: string, column: string, start: string, end: string,
                          bounds: Option<(int, int)>): (q: Query)
    ensures MarkCount(q) == 0
  {
    if bounds.Some? then
      Texts(["SELECT * FROM ( SELECT *, Row_number() over (order by ", column, " desc) as rownumber FROM [",
             schema, "].[", table, "] WHERE ", column, " BETWEEN '", start, "' AND '", end,
             "' )tbl where rownumber between ", IntToString(bounds.value.0), " and ", IntToString(bounds.value.1)])
    else
      Texts(["SELECT * FROM ", table, " WHERE ", column, " BETWEEN '", start, "' AND '", end, "' ORDER BY ", column])
  }

  /** select_by_date_range: the dates are written into the statement, which
      takes no parameters; every fetched row is collected as a dictionary. */
  method SelectByDateRange(db: Database, schema: string, table: string, column: string,
                           start: DateTime, end: DateTime, startPage: Option<int>, pageSize: Option<int>)
    returns (results: seq<Row>)
    requires Valid(start) && CivilOf(start.ordinal).year <= 9999
    requires Valid(end) && CivilOf(end.ordinal).year <= 9999
    ensures var q := DateRangeQuery(schema, table, column, SqlTimestamp(start), SqlTimestamp(end),
                                    PageBounds(startPage, pageSize));
      results == AnswerRows(db(q, []))
  {
    var query := DateRangeQuery(schema, table, column, SqlTimestamp(start), SqlTimestamp(end),
                                PageBounds(startPage, pageSize));
    results := CollectRows(db(query, []));
  }

  /** The loop over the cursor's rows: each row, zipped with the column
      names, is appended as a dictionary. */
  method CollectRows(answer: Answer) returns (results: seq<Row>)
    ensures results == AnswerRows(answer)
  {
    ghost var all := AnswerRows(answer);
    results := [];
    for i := 0 to |answer.rows|
      invariant results == all[..i]
    {
      var rowDict := RowDict(RowItems(answer.columns, answer.rows[i]));
      assert all[..i + 1] == all[..i] + [rowDict];
      results := results + [rowDict];
    }
    assert all[..|answer.rows|] == all;
  }
}
