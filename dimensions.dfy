// The table algebra shared by the three gold-zone reconcilers: dimension rows
// built from the distinct natural-key tuples of a batch, each with a fresh
// surrogate id; the keep-existing/append-new merge against a stored
// dimension; keyed lookups (Series.map over a keyed index); per-key time
// spans (groupby + min/max); and the anti-join that drops batch rows whose
// composite key is already stored.
module Dimensions {
  import opened Tables

  // ---------------------------------------------------------------------
  // Dimension rows from distinct tuples

  /** The row whose cells under `cols` are `key`. */
  function KeyRow(cols: seq<string>, key: seq<Value>): (r: Row)
    requires NoDup(cols) && |key| == |cols|
    ensures r.Keys == set c | c in cols
    ensures Key(r, cols) == key
  {
    map j | 0 <= j < |cols| :: cols[j] := key[j]
  }

  /** The distinct key tuples of `t` under `cols`, in first-seen order
      (`t[cols].drop_duplicates()`). */
  function DistinctKeys(t: Table, cols: seq<string>): (ks: seq<seq<Value>>)
    ensures NoDup(ks)
    ensures forall k :: k in ks <==> k in Keys(t, cols)
    ensures forall k :: k in ks ==> |k| == |cols|
  {
    Distinct(Keys(t, cols))
  }

  /** One dimension row per tuple of `keys`, the i-th carrying `ids[i]` as
      its surrogate in column `idCol`. */
  function WithIds(cols: seq<string>, keys: seq<seq<Value>>, idCol: string, ids: seq<string>): (rows: Table)
    requires NoDup(cols) && idCol !in cols && |ids| >= |keys|
    requires forall k :: k in keys ==> |k| == |cols|
    ensures |rows| == |keys|
    ensures Keys(rows, cols) == keys
    ensures forall i :: 0 <= i < |rows| ==> Cell(rows[i], idCol) == Str(ids[i])
    ensures forall i :: 0 <= i < |rows| ==> rows[i].Keys == (set c | c in cols) + {idCol}
  {
    var rows := seq(|keys|, i requires 0 <= i < |keys| => KeyRow(cols, keys[i])[idCol := Str(ids[i])]);
    assert forall i :: 0 <= i < |rows| ==> Key(rows[i], cols) == Key(KeyRow(cols, keys[i]), cols);
    rows
  }

  // ---------------------------------------------------------------------
  // Keep-existing merge

  /** Whether some row of `t` has key `key` under `cols`. */
  predicate HasKey(t: Table, cols: seq<string>, key: seq<Value>)
  {
    key in Keys(t, cols)
  }

  /** The rows of `rows` whose key is not stored in `existing`
      (`rows[~rows[cols].apply(tuple, 1).isin(existing[cols].apply(tuple, 1))]`). */
  function Absent(rows: Table, existing: Table, cols: seq<string>): (r: Table)
    ensures forall x :: x in r <==> x in rows && !HasKey(existing, cols, Key(x, cols))
  {
    Filter(rows, (x: Row) => !HasKey(existing, cols, Key(x, cols)))
  }

  /** What every reconciler returns for a dimension: the batch rows alone when
      nothing is stored, else the stored rows followed by the batch rows whose
      key is new. */
  function Merge(existing: Table, rows: Table, cols: seq<string>): Table
  {
    if |existing| == 0 then rows else existing + Absent(rows, existing, cols)
  }

  lemma KeysAppend(a: Table, b: Table, cols: seq<string>)
    ensures Keys(a + b, cols) == Keys(a, cols) + Keys(b, cols)
  {
  }

  /** The empty-store shortcut changes nothing: the merge is always the stored
      rows followed by the new-key rows. */
  lemma MergeIsAppendAbsent(existing: Table, rows: Table, cols: seq<string>)
    ensures Merge(existing, rows, cols) == existing + Absent(rows, existing, cols)
  {
    if |existing| == 0 {
      FilterAll(rows, (x: Row) => !HasKey(existing, cols, Key(x, cols)));
    }
  }

  /** The merge keeps every stored row, unchanged and in place, and adds only
      batch rows whose key is not stored. */
  lemma MergeKeepsExisting(existing: Table, rows: Table, cols: seq<string>)
    ensures |Merge(existing, rows, cols)| >= |existing|
    ensures Merge(existing, rows, cols)[..|existing|] == existing
    ensures forall i :: |existing| <= i < |Merge(existing, rows, cols)| ==>
      Merge(existing, rows, cols)[i] in rows &&
      !HasKey(existing, cols, Key(Merge(existing, rows, cols)[i], cols))
  {
    MergeIsAppendAbsent(existing, rows, cols);
    var m := Merge(existing, rows, cols);
    var a := Absent(rows, existing, cols);
    forall i | |existing| <= i < |m|
      ensures m[i] in rows && !HasKey(existing, cols, Key(m[i], cols))
    {
      assert m[i] == a[i - |existing|];
      assert m[i] in a;
    }
  }

  /** Every key of the batch rows is present in the merge. */
  lemma {:induction false} MergeCovers(existing: Table, rows: Table, cols: seq<string>, key: seq<Value>)
    requires HasKey(existing, cols, key) || HasKey(rows, cols, key)
    ensures HasKey(Merge(existing, rows, cols), cols, key)
  {
    MergeIsAppendAbsent(existing, rows, cols);
    var a := Absent(rows, existing, cols);
    KeysAppend(existing, a, cols);
    if !HasKey(existing, cols, key) {
      var i :| 0 <= i < |rows| && Keys(rows, cols)[i] == key;
      assert rows[i] in a;
      var j :| 0 <= j < |a| && a[j] == rows[i];
      assert Keys(a, cols)[j] == key;
    }
  }

  /** The merged key set is exactly the stored keys plus the batch keys. */
  lemma MergeKeySet(existing: Table, rows: Table, cols: seq<string>, key: seq<Value>)
    ensures HasKey(Merge(existing, rows, cols), cols, key) <==>
      HasKey(existing, cols, key) || HasKey(rows, cols, key)
  {
    if HasKey(existing, cols, key) || HasKey(rows, cols, key) {
      MergeCovers(existing, rows, cols, key);
    } else {
      MergeIsAppendAbsent(existing, rows, cols);
      var a := Absent(rows, existing, cols);
      KeysAppend(existing, a, cols);
      forall j | 0 <= j < |a| ensures Keys(a, cols)[j] != key {
        RowKeyIn(a[j], rows, cols);
      }
    }
  }

  /** The key of a row of `t` is among `t`'s keys. */
  lemma RowKeyIn(x: Row, t: Table, cols: seq<string>)
    requires x in t
    ensures HasKey(t, cols, Key(x, cols))
  {
    var i :| 0 <= i < |t| && t[i] == x;
    assert Keys(t, cols)[i] == Key(x, cols);
  }

  /** Filtering keeps key uniqueness. */
  lemma {:induction false} FilterKeepsUniqueKeys(t: Table, cols: seq<string>, p: Row -> bool)
    requires NoDup(Keys(t, cols))
    ensures NoDup(Keys(Filter(t, p), cols))
    decreases |t|
  {
    if t != [] {
      var rest := t[1..];
      NoDupKeysTail(t, cols);
      FilterKeepsUniqueKeys(rest, cols, p);
      if p(t[0]) {
        var f := Filter(rest, p);
        assert Filter(t, p) == [t[0]] + f;
        FilterKeepsAbsentKey(rest, cols, p, Key(t[0], cols));
        ConsKeepsUniqueKeys(t[0], f, cols);
      }
    }
  }

  /** A key no row of a table has, no row of a filtered table has. */
  lemma FilterKeepsAbsentKey(t: Table, cols: seq<string>, p: Row -> bool, key: seq<Value>)
    requires !HasKey(t, cols, key)
    ensures !HasKey(Filter(t, p), cols, key)
  {
    var f := Filter(t, p);
    forall j | 0 <= j < |f|
      ensures Keys(f, cols)[j] != key
    {
      RowKeyIn(f[j], t, cols);
    }
  }

  /** A row whose key the table lacks keeps the keys unique when put first. */
  lemma ConsKeepsUniqueKeys(x: Row, t: Table, cols: seq<string>)
    requires NoDup(Keys(t, cols)) && !HasKey(t, cols, Key(x, cols))
    ensures NoDup(Keys([x] + t, cols))
  {
    NoDupCons(Key(x, cols), Keys(t, cols));
    assert Keys([x] + t, cols) == [Key(x, cols)] + Keys(t, cols);
  }

  lemma NoDupCons<T>(x: T, s: seq<T>)
    requires NoDup(s) && x !in s
    ensures NoDup([x] + s)
  {
    var u := [x] + s;
    forall a, b | 0 <= a < b < |u| ensures u[a] != u[b] {
      if a > 0 {
        assert u[a] == s[a - 1] && u[b] == s[b - 1];
      } else {
        assert u[b] == s[b - 1];
      }
    }
  }

  /** If the stored keys and the batch keys are each unique, so are the merged keys. */
  lemma MergeKeepsUniqueKeys(existing: Table, rows: Table, cols: seq<string>)
    requires NoDup(Keys(existing, cols)) && NoDup(Keys(rows, cols))
    ensures NoDup(Keys(Merge(existing, rows, cols), cols))
  {
    MergeIsAppendAbsent(existing, rows, cols);
    var a := Absent(rows, existing, cols);
    FilterKeepsUniqueKeys(rows, cols, (x: Row) => !HasKey(existing, cols, Key(x, cols)));
    KeysAppend(existing, a, cols);
    var ks := Keys(existing + a, cols);
    forall i, j | 0 <= i < j < |ks| ensures ks[i] != ks[j] {
      if i < |existing| && j >= |existing| {
        assert a[j - |existing|] in a;
        assert ks[j] == Key(a[j - |existing|], cols);
        assert ks[i] in Keys(existing, cols);
      } else if i >= |existing| {
        assert ks[i] == Keys(a, cols)[i - |existing|] && ks[j] == Keys(a, cols)[j - |existing|];
      }
    }
  }

  // ---------------------------------------------------------------------
  // Keyed lookup

  /** `Series.map` over `t.set_index(cols)[idCol]`: the `idCol` cell of the
      first row whose key is `key`, or null when no row has it. */
  function Lookup(t: Table, cols: seq<string>, key: seq<Value>, idCol: string): (v: Value)
    ensures !HasKey(t, cols, key) ==> v == Null
    ensures HasKey(t, cols, key) ==> exists i :: 0 <= i < |t| && Key(t[i], cols) == key && v == Cell(t[i], idCol)
    decreases |t|
  {
    if t == [] then Null
    else if Key(t[0], cols) == key then Cell(t[0], idCol)
    else
      assert Keys(t[1..], cols) == Keys(t, cols)[1..];
      Lookup(t[1..], cols, key, idCol)
  }

  /** With unique keys the lookup of a stored key gives that row's id. */
  lemma {:induction false} LookupUnique(t: Table, cols: seq<string>, i: int, idCol: string)
    requires NoDup(Keys(t, cols)) && 0 <= i < |t|
    ensures Lookup(t, cols, Key(t[i], cols), idCol) == Cell(t[i], idCol)
    decreases |t|
  {
    if i > 0 {
      var ks := Keys(t, cols);
      var rest := t[1..];
      assert ks[0] != ks[i];
      assert rest[i - 1] == t[i];
      NoDupKeysTail(t, cols);
      LookupUnique(rest, cols, i - 1, idCol);
    }
  }

  lemma NoDupKeysTail(t: Table, cols: seq<string>)
    requires t != [] && NoDup(Keys(t, cols))
    ensures NoDup(Keys(t[1..], cols))
    ensures !HasKey(t[1..], cols, Key(t[0], cols))
  {
    var ks, rest := Keys(t, cols), t[1..];
    forall a, b | 0 <= a < b < |rest|
      ensures Keys(rest, cols)[a] != Keys(rest, cols)[b]
    {
      assert rest[a] == t[a + 1] && rest[b] == t[b + 1];
      assert ks[a + 1] != ks[b + 1];
    }
    forall m | 0 <= m < |rest|
      ensures Keys(rest, cols)[m] != Key(t[0], cols)
    {
      assert rest[m] == t[m + 1];
      assert ks[m + 1] != ks[0];
    }
  }

  /** In a table whose id column never holds null, every stored key resolves. */
  lemma LookupResolves(t: Table, cols: seq<string>, key: seq<Value>, idCol: string)
    requires HasKey(t, cols, key)
    requires forall i :: 0 <= i < |t| ==> Cell(t[i], idCol) != Null
    ensures Lookup(t, cols, key, idCol) != Null
  {
  }

  /** Lookup in the stored rows followed by more rows: a stored key resolves
      in the stored part, any other key in the rest. */
  lemma {:induction false} LookupAppend(a: Table, b: Table, cols: seq<string>, key: seq<Value>, idCol: string)
    ensures Lookup(a + b, cols, key, idCol) ==
      if HasKey(a, cols, key) then Lookup(a, cols, key, idCol) else Lookup(b, cols, key, idCol)
    decreases |a|
  {
    if a == [] {
      assert a + b == b;
    } else {
      assert (a + b)[0] == a[0];
      assert (a + b)[1..] == a[1..] + b;
      assert Keys(a[1..], cols) == Keys(a, cols)[1..];
      LookupAppend(a[1..], b, cols, key, idCol);
    }
  }

  // ---------------------------------------------------------------------
  // Dimension tables with fresh surrogates

  /** The batch's distinct tuples, each with the next fresh id of `ids`. */
  function NewDimension(batch: Table, cols: seq<string>, idCol: string, ids: seq<string>): (d: Table)
    requires NoDup(cols) && idCol !in cols && |ids| >= |DistinctKeys(batch, cols)|
  {
    WithIds(cols, DistinctKeys(batch, cols), idCol, ids)
  }

  /** A dimension table after one batch: `drop_duplicates` over `cols`, a fresh
      id for every distinct tuple, then the keep-existing merge. */
  function BuildDimension(batch: Table, existing: Table, cols: seq<string>, idCol: string, ids: seq<string>): Table
    requires NoDup(cols) && idCol !in cols && |ids| >= |DistinctKeys(batch, cols)|
  {
    Merge(existing, NewDimension(batch, cols, idCol, ids), cols)
  }

  /** With nothing stored: exactly one row per distinct batch tuple, the i-th
      with the i-th fresh id. */
  lemma BuildDimensionFresh(batch: Table, existing: Table, cols: seq<string>, idCol: string, ids: seq<string>)
    requires NoDup(cols) && idCol !in cols && |ids| >= |DistinctKeys(batch, cols)|
    requires |existing| == 0
    ensures var r := BuildDimension(batch, existing, cols, idCol, ids);
      |r| == |DistinctKeys(batch, cols)| && NoDup(Keys(r, cols)) &&
      (forall key :: HasKey(r, cols, key) <==> HasKey(batch, cols, key)) &&
      (forall i :: 0 <= i < |r| ==> Cell(r[i], idCol) == Str(ids[i]))
  {
  }

  /** With rows stored: they are kept unchanged in front, only new tuples are
      appended (each carrying a fresh id), the key set is the union, and keys
      that were unique stay unique. */
  lemma BuildDimensionKeeps(batch: Table, existing: Table, cols: seq<string>, idCol: string, ids: seq<string>)
    requires NoDup(cols) && idCol !in cols && |ids| >= |DistinctKeys(batch, cols)|
    ensures var r := BuildDimension(batch, existing, cols, idCol, ids);
      |r| >= |existing| && r[..|existing|] == existing &&
      (forall i :: |existing| <= i < |r| ==>
        !HasKey(existing, cols, Key(r[i], cols)) && HasKey(batch, cols, Key(r[i], cols)) &&
        exists j :: 0 <= j < |DistinctKeys(batch, cols)| && Cell(r[i], idCol) == Str(ids[j])) &&
      (forall key :: HasKey(r, cols, key) <==> HasKey(existing, cols, key) || HasKey(batch, cols, key)) &&
      (NoDup(Keys(existing, cols)) ==> NoDup(Keys(r, cols)))
  {
    var d := NewDimension(batch, cols, idCol, ids);
    var r := BuildDimension(batch, existing, cols, idCol, ids);
    MergeKeepsExisting(existing, d, cols);
    forall i | |existing| <= i < |r|
      ensures HasKey(batch, cols, Key(r[i], cols)) &&
        exists j :: 0 <= j < |DistinctKeys(batch, cols)| && Cell(r[i], idCol) == Str(ids[j])
    {
      var j :| 0 <= j < |d| && d[j] == r[i];
      assert Keys(d, cols)[j] == Key(r[i], cols);
    }
    forall key ensures HasKey(r, cols, key) <==> HasKey(existing, cols, key) || HasKey(batch, cols, key) {
      MergeKeySet(existing, d, cols, key);
    }
    if NoDup(Keys(existing, cols)) {
      MergeKeepsUniqueKeys(existing, d, cols);
    }
  }

  /** Surrogate stability: a tuple already stored (with unique keys) keeps the
      id it had; no fresh id is given to it. */
  lemma BuildDimensionStable(batch: Table, existing: Table, cols: seq<string>, idCol: string, ids: seq<string>,
                             key: seq<Value>)
    requires NoDup(cols) && idCol !in cols && |ids| >= |DistinctKeys(batch, cols)|
    requires HasKey(existing, cols, key)
    ensures Lookup(BuildDimension(batch, existing, cols, idCol, ids), cols, key, idCol) ==
      Lookup(existing, cols, key, idCol)
  {
    var d := NewDimension(batch, cols, idCol, ids);
    MergeIsAppendAbsent(existing, d, cols);
    LookupAppend(existing, Absent(d, existing, cols), cols, key, idCol);
  }

  /** Every batch tuple resolves to a non-null id in the new dimension, provided
      the stored rows all carry one. */
  lemma BuildDimensionResolves(batch: Table, existing: Table, cols: seq<string>, idCol: string, ids: seq<string>,
                               i: int)
    requires NoDup(cols) && idCol !in cols && |ids| >= |DistinctKeys(batch, cols)|
    requires forall j :: 0 <= j < |existing| ==> Cell(existing[j], idCol) != Null
    requires 0 <= i < |batch|
    ensures Lookup(BuildDimension(batch, existing, cols, idCol, ids), cols, Key(batch[i], cols), idCol) != Null
  {
    var r := BuildDimension(batch, existing, cols, idCol, ids);
    var key := Key(batch[i], cols);
    assert Keys(batch, cols)[i] == key;
    BuildDimensionKeeps(batch, existing, cols, idCol, ids);
    assert HasKey(r, cols, key);
    forall j | 0 <= j < |r| ensures Cell(r[j], idCol) != Null {
      if j < |existing| {
        assert r[j] == r[..|existing|][j];
      }
    }
    LookupResolves(r, cols, key, idCol);
  }

  // ---------------------------------------------------------------------
  // Time spans per key: groupby(keyCols).agg(min, max)

  predicate IsTime(v: Value)
  {
    v.Null? || v.Int?
  }

  /** `min` over a column with nulls skipped; null when there is no instant. */
  function MinTime(vs: seq<Value>): (m: Value)
    ensures m.Null? || m.Int?
    ensures m.Int? ==> exists k :: 0 <= k < |vs| && vs[k] == m
    ensures m.Int? ==> forall k :: 0 <= k < |vs| && vs[k].Int? ==> m.i <= vs[k].i
    ensures m.Null? ==> forall k :: 0 <= k < |vs| ==> !vs[k].Int?
    decreases |vs|
  {
    if vs == [] then Null
    else
      var rest := MinTime(vs[1..]);
      if !vs[0].Int? then rest
      else if rest.Int? && rest.i < vs[0].i then rest
      else vs[0]
  }

  /** `max` over a column with nulls skipped; null when there is no instant. */
  function MaxTime(vs: seq<Value>): (m: Value)
    ensures m.Null? || m.Int?
    ensures m.Int? ==> exists k :: 0 <= k < |vs| && vs[k] == m
    ensures m.Int? ==> forall k :: 0 <= k < |vs| && vs[k].Int? ==> vs[k].i <= m.i
    ensures m.Null? ==> forall k :: 0 <= k < |vs| ==> !vs[k].Int?
    decreases |vs|
  {
    if vs == [] then Null
    else
      var rest := MaxTime(vs[1..]);
      if !vs[0].Int? then rest
      else if rest.Int? && rest.i > vs[0].i then rest
      else vs[0]
  }

  /** The cells of column `col`, in row order. */
  function Column(t: Table, col: string): (vs: seq<Value>)
    ensures |vs| == |t|
    ensures forall i :: 0 <= i < |t| ==> vs[i] == Cell(t[i], col)
  {
    seq(|t|, i requires 0 <= i < |t| => Cell(t[i], col))
  }

  /** The rows of `t` whose key under `cols` is `g` (one group). */
  function Members(t: Table, cols: seq<string>, g: seq<Value>): (m: Table)
    ensures forall x :: x in m <==> x in t && Key(x, cols) == g
  {
    Filter(t, (x: Row) => Key(x, cols) == g)
  }

  /** The rows whose key has no null cell (`groupby` drops the others). */
  function NonNullRows(t: Table, cols: seq<string>): (v: Table)
    ensures forall x :: x in v <==> x in t && !KeyHasNull(x, cols)
  {
    Filter(t, (x: Row) => !KeyHasNull(x, cols))
  }

  /** The keys of the rows without a null key cell are the non-null keys. */
  lemma NonNullKeys(t: Table, cols: seq<string>, g: seq<Value>)
    ensures g in Keys(NonNullRows(t, cols), cols) <==>
      exists i :: 0 <= i < |t| && !KeyHasNull(t[i], cols) && Key(t[i], cols) == g
  {
    var valid := NonNullRows(t, cols);
    if g in Keys(valid, cols) {
      var j :| 0 <= j < |valid| && Keys(valid, cols)[j] == g;
      assert valid[j] in t;
    }
    if exists i :: 0 <= i < |t| && !KeyHasNull(t[i], cols) && Key(t[i], cols) == g {
      var i :| 0 <= i < |t| && !KeyHasNull(t[i], cols) && Key(t[i], cols) == g;
      assert t[i] in valid;
      var j :| 0 <= j < |valid| && valid[j] == t[i];
      assert Keys(valid, cols)[j] == g;
    }
  }

  /** The group keys: distinct non-null keys, in first-seen order. */
  function Groups(t: Table, cols: seq<string>): (gs: seq<seq<Value>>)
    ensures NoDup(gs)
    ensures forall g :: g in gs <==> exists i :: 0 <= i < |t| && !KeyHasNull(t[i], cols) && Key(t[i], cols) == g
    ensures forall g :: g in gs ==> |g| == |cols|
  {
    var gs := DistinctKeys(NonNullRows(t, cols), cols);
    forall g ensures g in gs <==> exists i :: 0 <= i < |t| && !KeyHasNull(t[i], cols) && Key(t[i], cols) == g {
      NonNullKeys(t, cols, g);
    }
    gs
  }

  /** The aggregated row of group `g`: its key cells, then the earliest
      `minCol` instant as `startCol` and the latest `maxCol` instant as `endCol`. */
  function SpanRow(t: Table, cols: seq<string>, g: seq<Value>, minCol: string, maxCol: string,
                   startCol: string, endCol: string): (r: Row)
    requires NoDup(cols) && |g| == |cols| && startCol !in cols && endCol !in cols && startCol != endCol
    ensures Key(r, cols) == g
    ensures r.Keys == (set c | c in cols) + {startCol, endCol}
  {
    var m := Members(t, cols, g);
    var r := KeyRow(cols, g)[startCol := MinTime(Column(m, minCol))][endCol := MaxTime(Column(m, maxCol))];
    assert forall j :: 0 <= j < |cols| ==> Cell(r, cols[j]) == Cell(KeyRow(cols, g), cols[j]);
    r
  }

  /** One aggregated row per group, in group order. */
  function Spans(t: Table, cols: seq<string>, minCol: string, maxCol: string,
                 startCol: string, endCol: string): (s: Table)
    requires NoDup(cols) && startCol !in cols && endCol !in cols && startCol != endCol
    ensures |s| == |Groups(t, cols)|
    ensures Keys(s, cols) == Groups(t, cols)
  {
    var gs := Groups(t, cols);
    seq(|gs|, k requires 0 <= k < |gs| => SpanRow(t, cols, gs[k], minCol, maxCol, startCol, endCol))
  }

  /** A span's start is the earliest `minCol` instant of its group and is
      attained by a member; its end is the latest `maxCol` instant. */
  lemma SpanBounds(t: Table, cols: seq<string>, minCol: string, maxCol: string,
                   startCol: string, endCol: string, k: int, i: int)
    requires NoDup(cols) && startCol !in cols && endCol !in cols && startCol != endCol
    requires 0 <= k < |Groups(t, cols)| && 0 <= i < |t|
    requires Key(t[i], cols) == Groups(t, cols)[k]
    ensures var s := Spans(t, cols, minCol, maxCol, startCol, endCol)[k];
      (Cell(t[i], minCol).Int? ==> s[startCol].Int? && s[startCol].i <= Cell(t[i], minCol).i) &&
      (Cell(t[i], maxCol).Int? ==> s[endCol].Int? && Cell(t[i], maxCol).i <= s[endCol].i)
  {
    SpanCells(t, cols, minCol, maxCol, startCol, endCol, k);
    var g := Groups(t, cols)[k];
    var m := Members(t, cols, g);
    assert t[i] in m;
    var j :| 0 <= j < |m| && m[j] == t[i];
    assert Column(m, minCol)[j] == Cell(t[i], minCol);
    assert Column(m, maxCol)[j] == Cell(t[i], maxCol);
  }

  /** A span's start, when an instant, is the `minCol` instant of some member. */
  lemma SpanStartAttained(t: Table, cols: seq<string>, minCol: string, maxCol: string,
                          startCol: string, endCol: string, k: int)
    requires NoDup(cols) && startCol !in cols && endCol !in cols && startCol != endCol
    requires 0 <= k < |Groups(t, cols)|
    requires Spans(t, cols, minCol, maxCol, startCol, endCol)[k][startCol].Int?
    ensures exists i :: (0 <= i < |t| && Key(t[i], cols) == Groups(t, cols)[k] &&
                         Cell(t[i], minCol) == Spans(t, cols, minCol, maxCol, startCol, endCol)[k][startCol])
  {
    var g := Groups(t, cols)[k];
    var m := Members(t, cols, g);
    var vs := Column(m, minCol);
    var j :| 0 <= j < |vs| && vs[j] == MinTime(vs);
    assert m[j] in m;
    var i :| 0 <= i < |t| && t[i] == m[j];
  }

  /** When every row's `minCol` instant is no later than its `maxCol` instant,
      every span starts no later than it ends. */
  lemma SpanOrdered(t: Table, cols: seq<string>, minCol: string, maxCol: string,
                    startCol: string, endCol: string, k: int)
    requires NoDup(cols) && startCol !in cols && endCol !in cols && startCol != endCol
    requires forall i :: 0 <= i < |t| ==>
      (Cell(t[i], minCol).Int? && Cell(t[i], maxCol).Int? && Cell(t[i], minCol).i <= Cell(t[i], maxCol).i)
    requires 0 <= k < |Groups(t, cols)|
    ensures var s := Spans(t, cols, minCol, maxCol, startCol, endCol)[k];
      s[startCol].Int? && s[endCol].Int? && s[startCol].i <= s[endCol].i
  {
    var g := Groups(t, cols)[k];
    var i :| 0 <= i < |t| && !KeyHasNull(t[i], cols) && Key(t[i], cols) == g;
    SpanBounds(t, cols, minCol, maxCol, startCol, endCol, k, i);
  }

  /** Aggregating the same column for both ends gives start <= end whenever
      the group has an instant at all. */
  lemma SpanOrderedSameColumn(t: Table, cols: seq<string>, col: string,
                              startCol: string, endCol: string, k: int)
    requires NoDup(cols) && startCol !in cols && endCol !in cols && startCol != endCol
    requires 0 <= k < |Groups(t, cols)|
    ensures var s := Spans(t, cols, col, col, startCol, endCol)[k];
      (s[startCol].Int? <==> s[endCol].Int?) &&
      (s[startCol].Int? ==> s[startCol].i <= s[endCol].i)
  {
    SpanCells(t, cols, col, col, startCol, endCol, k);
    MinNoLaterThanMax(Column(Members(t, cols, Groups(t, cols)[k]), col));
  }

  /** The two aggregated cells of a span. */
  lemma SpanCells(t: Table, cols: seq<string>, minCol: string, maxCol: string,
                  startCol: string, endCol: string, k: int)
    requires NoDup(cols) && startCol !in cols && endCol !in cols && startCol != endCol
    requires 0 <= k < |Groups(t, cols)|
    ensures var s := Spans(t, cols, minCol, maxCol, startCol, endCol)[k];
      var m := Members(t, cols, Groups(t, cols)[k]);
      startCol in s && endCol in s &&
      s[startCol] == MinTime(Column(m, minCol)) && s[endCol] == MaxTime(Column(m, maxCol))
  {
  }

  /** Over one column, the minimum and the maximum are both instants or both
      null, and the minimum is no later. */
  lemma MinNoLaterThanMax(vs: seq<Value>)
    ensures MinTime(vs).Int? <==> MaxTime(vs).Int?
    ensures MinTime(vs).Int? ==> MinTime(vs).i <= MaxTime(vs).i
  {
    var mn, mx := MinTime(vs), MaxTime(vs);
    if mn.Int? {
      var j :| 0 <= j < |vs| && vs[j] == mn;
      assert vs[j].Int?;
    }
    if mx.Int? {
      var j :| 0 <= j < |vs| && vs[j] == mx;
      assert vs[j].Int?;
    }
  }
}
