// Shared vocabulary of the pipeline: cell values, rows, tables; the Result and
// Option wrappers used for the source's exceptions; and the small sequence and
// string functions (first-seen deduplication, filtering, ASCII strip/lower,
// join/split, decimal rendering) that the data frames and Python built-ins
// provide to the original code.
module Tables {

  /** A cell of a data frame, or a decoded JSON/YAML value. `Null` stands for
      None, NaN and NaT alike. Floating point numbers are not modelled. */
  datatype Value =
    | Null
    | Bool(b: bool)
    | Int(i: int)
    | Str(s: string)
    | List(items: seq<Value>)
    | Dict(fields: map<string, Value>)

  /** One row of a data frame: column name to cell. */
  type Row = map<string, Value>

  /** A data frame: its rows, in index order. */
  type Table = seq<Row>

  datatype Option<T> = None | Some(value: T)

  /** The outcome of an operation that may raise; `Err` carries the message. */
  datatype Result<T> = Ok(value: T) | Err(error: string)
  {
    predicate IsFailure() { Err? }

    function PropagateFailure<U>(): Result<U>
      requires Err?
    {
      Err(error)
    }

    function Extract(): T
      requires Ok?
    {
      value
    }
  }

  // ---------------------------------------------------------------------
  // Rows and keys

  /** A data frame object that the code mutates in place (column assignment,
      `drop(..., inplace=True)`); callers holding it see the new rows. */
  class Frame {
    var rows: Table

    constructor (rows: Table)
      ensures this.rows == rows
    {
      this.rows := rows;
    }
  }

  /** `c in frame.columns` for a rectangular frame: every row carries `c`. */
  predicate ColumnPresent(t: Table, c: string)
  {
    forall i | 0 <= i < |t| :: c in t[i]
  }

  /** Cell lookup with pandas' reindexing behaviour: a missing column reads as null. */
  function Cell(r: Row, c: string): Value
  {
    if c in r then r[c] else Null
  }

  /** Every row of `t` has every column of `cols` (what a column selection needs). */
  ghost predicate HasColumns(t: Table, cols: seq<string>)
  {
    forall i, c :: 0 <= i < |t| && c in cols ==> c in t[i]
  }

  /** The tuple of `r`'s cells in `cols`, as `row[cols].apply(tuple, 1)` builds it. */
  function Key(r: Row, cols: seq<string>): (k: seq<Value>)
    ensures |k| == |cols|
    ensures forall j :: 0 <= j < |cols| ==> k[j] == Cell(r, cols[j])
  {
    seq(|cols|, j requires 0 <= j < |cols| => Cell(r, cols[j]))
  }

  /** The key tuples of all rows of `t`, in row order. */
  function Keys(t: Table, cols: seq<string>): (ks: seq<seq<Value>>)
    ensures |ks| == |t|
    ensures forall i :: 0 <= i < |t| ==> ks[i] == Key(t[i], cols)
  {
    seq(|t|, i requires 0 <= i < |t| => Key(t[i], cols))
  }

  /** `r` restricted to `cols`, as `frame[cols]` selects it. */
  function Project(r: Row, cols: seq<string>): (p: Row)
    ensures p.Keys == set c | c in cols
    ensures forall c :: c in cols ==> p[c] == Cell(r, c)
  {
    map c | c in cols :: Cell(r, c)
  }

  lemma KeyOfProject(r: Row, cols: seq<string>)
    ensures Key(Project(r, cols), cols) == Key(r, cols)
  {
  }

  /** Projected rows over the same columns are equal exactly when their keys are. */
  lemma {:induction false} ProjectInjective(r1: Row, r2: Row, cols: seq<string>)
    ensures Project(r1, cols) == Project(r2, cols) <==> Key(r1, cols) == Key(r2, cols)
  {
    var p1, p2 := Project(r1, cols), Project(r2, cols);
    if Key(r1, cols) == Key(r2, cols) {
      forall c | c in p1.Keys ensures p1[c] == p2[c] {
        var j :| 0 <= j < |cols| && cols[j] == c;
        assert Key(r1, cols)[j] == Key(r2, cols)[j];
      }
      assert p1 == p2;
    }
    if p1 == p2 {
      forall j | 0 <= j < |cols| ensures Key(r1, cols)[j] == Key(r2, cols)[j] {
        assert p1[cols[j]] == p2[cols[j]];
      }
    }
  }

  /** Whether `r` has a null anywhere in `cols` (groupby drops such keys). */
  predicate KeyHasNull(r: Row, cols: seq<string>)
  {
    exists j :: 0 <= j < |cols| && Cell(r, cols[j]) == Null
  }

  /** Whether `r` has a null cell in any column. */
  predicate HasNull(r: Row)
  {
    exists c :: c in r && r[c] == Null
  }

  // ---------------------------------------------------------------------
  // Sequences

  predicate NoDup<T(==)>(s: seq<T>)
  {
    forall i, j :: 0 <= i < j < |s| ==> s[i] != s[j]
  }

  /** `s` without repetitions, each element at its first occurrence
      (`drop_duplicates`, `unique`). */
  function Distinct<T(==,!new)>(s: seq<T>): (d: seq<T>)
    ensures forall x :: x in d <==> x in s
    ensures NoDup(d)
    ensures |d| <= |s|
    decreases |s|
  {
    if s == [] then []
    else
      var d0 := Distinct(s[..|s| - 1]);
      if s[|s| - 1] in d0 then d0 else d0 + [s[|s| - 1]]
  }

  /** Deduplication is first-seen: the distinct elements of a prefix are a
      prefix of the distinct elements of the whole. */
  lemma {:induction false} DistinctPrefix<T(!new)>(s: seq<T>, t: seq<T>)
    ensures Distinct(s) <= Distinct(s + t)
    decreases |t|
  {
    if t != [] {
      var u := s + t[..|t| - 1];
      DistinctPrefix(s, t[..|t| - 1]);
      assert (s + t)[..|s + t| - 1] == u;
      assert Distinct(u) <= Distinct(s + t);
    } else {
      assert s + t == s;
    }
  }

  /** A sequence without repetitions is its own deduplication. */
  lemma {:induction false} DistinctOfNoDup<T(!new)>(s: seq<T>)
    requires NoDup(s)
    ensures Distinct(s) == s
    decreases |s|
  {
    if s != [] {
      var s0 := s[..|s| - 1];
      assert NoDup(s0);
      DistinctOfNoDup(s0);
      assert s[|s| - 1] !in s0;
      assert s0 + [s[|s| - 1]] == s;
    }
  }

  /** The elements of `s` satisfying `p`, in order. */
  function Filter<T(!new)>(s: seq<T>, p: T -> bool): (r: seq<T>)
    ensures |r| <= |s|
    ensures forall x :: x in r <==> x in s && p(x)
    ensures forall k :: 0 <= k < |r| ==> p(r[k])
    decreases |s|
  {
    if s == [] then []
    else if p(s[0]) then [s[0]] + Filter(s[1..], p)
    else Filter(s[1..], p)
  }

  lemma {:induction false} FilterAppend<T(!new)>(s: seq<T>, t: seq<T>, p: T -> bool)
    ensures Filter(s + t, p) == Filter(s, p) + Filter(t, p)
    decreases |s|
  {
    if s != [] {
      assert (s + t)[0] == s[0];
      assert (s + t)[1..] == s[1..] + t;
      FilterAppend(s[1..], t, p);
    } else {
      assert s + t == t;
    }
  }

  lemma {:induction false} FilterAll<T(!new)>(s: seq<T>, p: T -> bool)
    requires forall k :: 0 <= k < |s| ==> p(s[k])
    ensures Filter(s, p) == s
    decreases |s|
  {
    if s != [] {
      FilterAll(s[1..], p);
    }
  }

  lemma {:induction false} FilterNone<T(!new)>(s: seq<T>, p: T -> bool)
    requires forall k :: 0 <= k < |s| ==> !p(s[k])
    ensures Filter(s, p) == []
    decreases |s|
  {
    if s != [] {
      FilterNone(s[1..], p);
    }
  }

  /** `sub` is obtained from `s` by deleting elements. */
  predicate IsSubsequence<T(==)>(sub: seq<T>, s: seq<T>)
    decreases |s|
  {
    if sub == [] then true
    else if s == [] then false
    else if sub[0] == s[0] then IsSubsequence(sub[1..], s[1..])
    else IsSubsequence(sub, s[1..])
  }

  lemma {:induction false} FilterIsSubsequence<T(!new)>(s: seq<T>, p: T -> bool)
    ensures IsSubsequence(Filter(s, p), s)
    decreases |s|
  {
    if s != [] {
      FilterIsSubsequence(s[1..], p);
      if p(s[0]) {
        assert ([s[0]] + Filter(s[1..], p))[1..] == Filter(s[1..], p);
      }
    }
  }

  /** An insert-only upsert: each entry, in order, is added unless its key is
      already present, so existing rows and the first entry of each new key win. */
  function InsertAbsent<K(!new), V(!new)>(m: map<K, V>, entries: seq<(K, V)>): (r: map<K, V>)
    ensures forall k :: k in m ==> k in r && r[k] == m[k]
    ensures forall i :: 0 <= i < |entries| ==> entries[i].0 in r
    ensures forall k :: k in r ==> k in m || exists i :: 0 <= i < |entries| && entries[i].0 == k
    decreases |entries|
  {
    if entries == [] then m
    else
      var n := |entries| - 1;
      var p := InsertAbsent(m, entries[..n]);
      assert forall i :: 0 <= i < n ==> entries[..n][i] == entries[i];
      if entries[n].0 in p then p else p[entries[n].0 := entries[n].1]
  }

  /** One more entry: added unless its key is already present. */
  lemma InsertAbsentSnoc<K(!new), V(!new)>(m: map<K, V>, entries: seq<(K, V)>, i: int)
    requires 0 <= i < |entries|
    ensures var p := InsertAbsent(m, entries[..i]);
      InsertAbsent(m, entries[..i + 1]) == if entries[i].0 in p then p else p[entries[i].0 := entries[i].1]
  {
    var e := entries[..i + 1];
    assert e[..i] == entries[..i] && e[i] == entries[i];
  }

  /** A new key takes the value of its first entry. */
  lemma {:induction false} InsertAbsentFirstWins<K(!new), V(!new)>(m: map<K, V>, entries: seq<(K, V)>, i: int)
    requires 0 <= i < |entries| && entries[i].0 !in m
    requires forall j :: 0 <= j < i ==> entries[j].0 != entries[i].0
    ensures InsertAbsent(m, entries)[entries[i].0] == entries[i].1
    decreases |entries|
  {
    var n := |entries| - 1;
    if i < n {
      var init := entries[..n];
      assert init[i] == entries[i];
      assert forall j :: 0 <= j < i ==> init[j] == entries[j];
      InsertAbsentFirstWins(m, init, i);
    } else {
      assert forall j :: 0 <= j < n ==> entries[..n][j] == entries[j];
    }
  }

  // ---------------------------------------------------------------------
  // Strings (ASCII only: no Unicode case mapping or whitespace classes)

  predicate IsSpace(ch: char)
  {
    ch == ' ' || ch == '\t' || ch == '\n' || ch == '\r' || ch == '\U{0B}' || ch == '\U{0C}'
  }

  function TrimLeft(s: string): (r: string)
    ensures r == [] || !IsSpace(r[0])
    ensures forall k :: 0 <= k < |s| - |r| ==> IsSpace(s[k])
    ensures |r| <= |s| && r == s[|s| - |r|..]
    decreases |s|
  {
    if s != [] && IsSpace(s[0]) then TrimLeft(s[1..]) else s
  }

  function TrimRight(s: string): (r: string)
    ensures r <= s
    ensures r == [] || !IsSpace(r[|r| - 1])
    ensures forall k :: |r| <= k < |s| ==> IsSpace(s[k])
    decreases |s|
  {
    if s != [] && IsSpace(s[|s| - 1]) then TrimRight(s[..|s| - 1]) else s
  }

  /** Python's `str.strip()` with no argument, on ASCII whitespace. */
  function Strip(s: string): string
  {
    TrimRight(TrimLeft(s))
  }

  function LowerChar(ch: char): char
  {
    if 'A' <= ch <= 'Z' then (ch as int + 32) as char else ch
  }

  /** Python's `str.lower()` on ASCII letters. */
  function ToLower(s: string): (r: string)
    ensures |r| == |s|
    ensures forall k :: 0 <= k < |s| ==> r[k] == LowerChar(s[k])
  {
    seq(|s|, k requires 0 <= k < |s| => LowerChar(s[k]))
  }

  lemma ToLowerIdempotent(s: string)
    ensures ToLower(ToLower(s)) == ToLower(s)
  {
  }

  /** `sep.join(parts)`. */
  function Join(sep: string, parts: seq<string>): string
    decreases |parts|
  {
    if parts == [] then ""
    else if |parts| == 1 then parts[0]
    else parts[0] + sep + Join(sep, parts[1..])
  }

  /** Number of occurrences of `ch` in `s`. */
  function Count(s: string, ch: char): nat
    decreases |s|
  {
    if s == [] then 0 else (if s[0] == ch then 1 else 0) + Count(s[1..], ch)
  }

  lemma {:induction false} CountAppend(s: string, t: string, ch: char)
    ensures Count(s + t, ch) == Count(s, ch) + Count(t, ch)
    decreases |s|
  {
    if s != [] {
      assert (s + t)[0] == s[0];
      assert (s + t)[1..] == s[1..] + t;
      CountAppend(s[1..], t, ch);
    } else {
      assert s + t == t;
    }
  }

  /** `sep` occurs in `s` at position `k`. */
  predicate At(s: string, sep: string, k: nat)
  {
    k + |sep| <= |s| && s[k..k + |sep|] == sep
  }

  /** Position of the first occurrence of `sep` in `s` at or after `from`. */
  function FindFrom(s: string, sep: string, from: nat): (r: Option<nat>)
    requires |sep| > 0
    ensures r.Some? ==> from <= r.value && At(s, sep, r.value)
    decreases |s| - from
  {
    if from + |sep| > |s| then None
    else if s[from..from + |sep|] == sep then Some(from)
    else FindFrom(s, sep, from + 1)
  }

  /** `FindFrom` finds the first occurrence: there is none before the one it reports. */
  lemma {:induction false} FindFromFirst(s: string, sep: string, from: nat, k: nat)
    requires |sep| > 0 && from <= k
    requires FindFrom(s, sep, from).None? || k < FindFrom(s, sep, from).value
    ensures !At(s, sep, k)
    decreases |s| - from
  {
    if from + |sep| <= |s| && s[from..from + |sep|] != sep && from < k {
      FindFromFirst(s, sep, from + 1, k);
    }
  }

  /** Python's `s.split(sep)` for a non-empty separator. */
  function Split(s: string, sep: string): (parts: seq<string>)
    requires |sep| > 0
    ensures |parts| >= 1
    decreases |s|
  {
    var r := FindFrom(s, sep, 0);
    if r.None? then [s]
    else [s[..r.value]] + Split(s[r.value + |sep|..], sep)
  }

  lemma JoinCons(sep: string, head: string, tail: seq<string>)
    requires |tail| >= 1
    ensures Join(sep, [head] + tail) == head + sep + Join(sep, tail)
  {
    assert ([head] + tail)[1..] == tail;
  }

  lemma SliceAround(s: string, k: nat, n: nat)
    requires k + n <= |s|
    ensures s == s[..k] + s[k..k + n] + s[k + n..]
  {
    assert s[..k] + s[k..] == s;
    assert s[k..] == s[k..k + n] + s[k + n..];
  }

  /** Splitting and re-joining with the same separator gives the input back. */
  lemma {:induction false} JoinSplit(s: string, sep: string)
    requires |sep| > 0
    ensures Join(sep, Split(s, sep)) == s
    decreases |s|
  {
    var r := FindFrom(s, sep, 0);
    if r.Some? {
      var k := r.value;
      var rest := s[k + |sep|..];
      var tail := Split(rest, sep);
      JoinSplit(rest, sep);
      JoinCons(sep, s[..k], tail);
      SliceAround(s, k, |sep|);
      assert Split(s, sep) == [s[..k]] + tail;
    } else {
      assert Split(s, sep) == [s];
    }
  }

  /** No piece produced by `Split` contains the separator. */
  lemma {:induction false} SplitPiecesFree(s: string, sep: string, i: nat)
    requires |sep| > 0
    requires i < |Split(s, sep)|
    ensures forall k :: !At(Split(s, sep)[i], sep, k)
    decreases |s|
  {
    var r := FindFrom(s, sep, 0);
    if r.None? {
      assert Split(s, sep) == [s];
      forall m: nat ensures !At(s, sep, m) {
        FindFromFirst(s, sep, 0, m);
      }
    } else {
      var k := r.value;
      assert Split(s, sep) == [s[..k]] + Split(s[k + |sep|..], sep);
      if i == 0 {
        forall m: nat ensures !At(s[..k], sep, m) {
          if At(s[..k], sep, m) {
            assert s[..k][m..m + |sep|] == s[m..m + |sep|];
            FindFromFirst(s, sep, 0, m);
          }
        }
      } else {
        SplitPiecesFree(s[k + |sep|..], sep, i - 1);
      }
    }
  }

  function DigitChar(d: nat): char
    requires d < 10
  {
    ['0', '1', '2', '3', '4', '5', '6', '7', '8', '9'][d]
  }

  predicate IsDigit(ch: char)
  {
    '0' <= ch <= '9'
  }

  function DigitValue(ch: char): (d: nat)
    requires IsDigit(ch)
    ensures d < 10
  {
    ch as int - '0' as int
  }

  /** Decimal rendering of a natural number, without leading zeros (`str(n)`). */
  function NatToString(n: nat): (s: string)
    ensures |s| >= 1
    ensures forall k :: 0 <= k < |s| ==> IsDigit(s[k])
    ensures n > 0 ==> s[0] != '0'
    decreases n
  {
    if n < 10 then [DigitChar(n)] else NatToString(n / 10) + [DigitChar(n % 10)]
  }

  /** Value of a string of decimal digits. */
  function DigitsValue(s: string): nat
    requires forall k :: 0 <= k < |s| ==> IsDigit(s[k])
    decreases |s|
  {
    if s == [] then 0 else DigitsValue(s[..|s| - 1]) * 10 + DigitValue(s[|s| - 1])
  }

  lemma {:induction false} NatToStringValue(n: nat)
    ensures DigitsValue(NatToString(n)) == n
    decreases n
  {
    if n >= 10 {
      NatToStringValue(n / 10);
      var s := NatToString(n / 10) + [DigitChar(n % 10)];
      assert s[..|s| - 1] == NatToString(n / 10);
    }
  }

  /** Rendering is injective, so distinct numbers give distinct strings. */
  lemma NatToStringInjective(m: nat, n: nat)
    requires NatToString(m) == NatToString(n)
    ensures m == n
  {
    NatToStringValue(m);
    NatToStringValue(n);
  }

  /** `str(i)` for an integer. */
  function IntToString(i: int): string
  {
    if i < 0 then "-" + NatToString(-i) else NatToString(i)
  }
}
