// The date-partitioned gold-zone fact table (src/llminspect/common/adls_handler.py):
// write_fact_table stores each row under year=Y/month=M/day=D of its
// timestamp, and read_fact_table reads the files of one partition pattern per
// day of the requested range, failing when none exists. The file system is a
// listing of the paths that exist, in the order the directory yields them.
module Partitions {
  import opened Tables
  import opened Dates

  const ParquetGlob: string := "/*.parquet"

  /** The directory of one day's partition: year, month and day unpadded. */
  function PartitionDir(root: string, ordinal: int): string
    requires ordinal >= 1
  {
    var c := CivilOf(ordinal);
    HiveDir(root, NatToString(c.year), NatToString(c.month), NatToString(c.day))
  }

  function HiveDir(root: string, y: string, m: string, d: string): string
  {
    root + "/year=" + y + "/month=" + m + "/day=" + d
  }

  /** The glob pattern of one day's partition files. */
  function PartitionPath(root: string, ordinal: int): string
    requires ordinal >= 1
  {
    PartitionDir(root, ordinal) + ParquetGlob
  }

  // ---------------------------------------------------------------------
  // Distinct days give distinct patterns

  predicate AllDigits(s: string)
  {
    forall k :: 0 <= k < |s| ==> IsDigit(s[k])
  }

  /** A run of digits is delimited by the non-digit after it. */
  lemma DigitsDelimited(a: string, x: string, b: string, y: string)
    requires AllDigits(a) && AllDigits(b) && |x| > 0 && |y| > 0 && !IsDigit(x[0]) && !IsDigit(y[0])
    requires a + x == b + y
    ensures a == b && x == y
  {
    DigitPrefixLength(a, x);
    DigitPrefixLength(b, y);
    assert a == (a + x)[..|a|] && b == (b + y)[..|b|];
    assert x == (a + x)[|a|..] && y == (b + y)[|b|..];
  }

  lemma DigitPrefixLength(a: string, x: string)
    requires AllDigits(a) && |x| > 0 && !IsDigit(x[0])
    ensures DigitRun(a + x, 0) == |a|
  {
    var s := a + x;
    assert forall k :: 0 <= k < |a| ==> s[k] == a[k];
    assert s[|a|] == x[0];
    DigitRunExact(s, 0, |a|);
  }

  lemma PrefixCancel(p: string, u: string, v: string)
    requires p + u == p + v
    ensures u == v
  {
    assert u == (p + u)[|p|..] && v == (p + v)[|p|..];
  }

  /** The text after the year digits of a partition pattern. */
  function AfterYear(m: string, d: string): string
  {
    "/month=" + (m + ("/day=" + (d + ParquetGlob)))
  }

  lemma HiveLayout(root: string, y: string, m: string, d: string)
    ensures HiveDir(root, y, m, d) + ParquetGlob == (root + "/year=") + (y + AfterYear(m, d))
  {
  }

  lemma HivePathInjective(root: string, y1: string, m1: string, d1: string, y2: string, m2: string, d2: string)
    requires AllDigits(y1) && AllDigits(m1) && AllDigits(d1) && AllDigits(y2) && AllDigits(m2) && AllDigits(d2)
    requires HiveDir(root, y1, m1, d1) + ParquetGlob == HiveDir(root, y2, m2, d2) + ParquetGlob
    ensures y1 == y2 && m1 == m2 && d1 == d2
  {
    HiveLayout(root, y1, m1, d1);
    HiveLayout(root, y2, m2, d2);
    PrefixCancel(root + "/year=", y1 + AfterYear(m1, d1), y2 + AfterYear(m2, d2));
    DigitsDelimited(y1, AfterYear(m1, d1), y2, AfterYear(m2, d2));
    PrefixCancel("/month=", m1 + ("/day=" + (d1 + ParquetGlob)), m2 + ("/day=" + (d2 + ParquetGlob)));
    DigitsDelimited(m1, "/day=" + (d1 + ParquetGlob), m2, "/day=" + (d2 + ParquetGlob));
    PrefixCancel("/day=", d1 + ParquetGlob, d2 + ParquetGlob);
    DigitsDelimited(d1, ParquetGlob, d2, ParquetGlob);
  }

  /** Different days have different partition patterns. */
  lemma PartitionPathInjective(root: string, o1: int, o2: int)
    requires o1 >= 1 && o2 >= 1 && PartitionPath(root, o1) == PartitionPath(root, o2)
    ensures o1 == o2
  {
    var c1, c2 := CivilOf(o1), CivilOf(o2);
    HivePathInjective(root, NatToString(c1.year), NatToString(c1.month), NatToString(c1.day),
                      NatToString(c2.year), NatToString(c2.month), NatToString(c2.day));
    NatToStringInjective(c1.year, c2.year);
    NatToStringInjective(c1.month, c2.month);
    NatToStringInjective(c1.day, c2.day);
  }

  // ---------------------------------------------------------------------
  // get_eval_fact_partition_paths

  /** How many patterns the loop as written emits: it advances the start
      instant a day at a time, time of day included, while it is not after
      the end. */
  function AsWrittenDayCount(start: DateTime, end: DateTime): (n: nat)
    ensures NotAfter(start, end) <==> n > 0
  {
    if !NotAfter(start, end) then 0
    else end.ordinal - start.ordinal + (if start.micros <= end.micros then 1 else 0)
  }

  /** The pattern loop as written. */
  method PartitionPathsAsWritten(root: string, start: DateTime, end: DateTime) returns (paths: seq<string>)
    requires start.ordinal >= 1
    ensures |paths| == AsWrittenDayCount(start, end)
    ensures forall i :: 0 <= i < |paths| ==> paths[i] == PartitionPath(root, start.ordinal + i)
  {
    paths := [];
    var current := start;
    while NotAfter(current, end)
      invariant current == AddDays(start, |paths|)
      invariant forall i :: 0 <= i < |paths| ==> paths[i] == PartitionPath(root, start.ordinal + i)
      invariant |paths| <= AsWrittenDayCount(start, end)
      invariant NotAfter(current, end) ==> |paths| < AsWrittenDayCount(start, end)
      invariant !NotAfter(current, end) ==> |paths| == AsWrittenDayCount(start, end)
      decreases end.ordinal - current.ordinal + 1
    {
      paths := paths + [PartitionPath(root, current.ordinal)];
      current := AddDays(current, 1);
    }
  }

  /** A range from 10:00 on one day to 09:00 two days later holds 08:00 on its
      last day, but the loop as written stops after two days, so the
      partition of that instant is never read. */
  lemma AsWrittenMissesLastDay(root: string, o: int)
    requires o >= 1
    ensures var start, end, x := DateTime(o, 36_000_000_000), DateTime(o + 2, 32_400_000_000),
                                  DateTime(o + 2, 28_800_000_000);
      NotAfter(start, x) && NotAfter(x, end) && AsWrittenDayCount(start, end) == 2 &&
      PartitionPath(root, o) != PartitionPath(root, x.ordinal) &&
      PartitionPath(root, o + 1) != PartitionPath(root, x.ordinal)
  {
    if PartitionPath(root, o) == PartitionPath(root, o + 2) {
      PartitionPathInjective(root, o, o + 2);
    }
    if PartitionPath(root, o + 1) == PartitionPath(root, o + 2) {
      PartitionPathInjective(root, o + 1, o + 2);
    }
  }

  /** The days of a range: every calendar day from the start's date to the
      end's date, whatever the times of day. */
  function RangeDayCount(start: DateTime, end: DateTime): (n: nat)
  {
    if start.ordinal <= end.ordinal then end.ordinal - start.ordinal + 1 else 0
  }

  /** get_eval_fact_partition_paths with the loop advancing by date: one
      pattern per day of the range, ascending. */
  method PartitionPaths(root: string, start: DateTime, end: DateTime) returns (paths: seq<string>)
    requires start.ordinal >= 1
    ensures |paths| == RangeDayCount(start, end)
    ensures forall i :: 0 <= i < |paths| ==> paths[i] == PartitionPath(root, start.ordinal + i)
  {
    paths := [];
    var day := start.ordinal;
    while day <= end.ordinal
      invariant day == start.ordinal + |paths|
      invariant forall i :: 0 <= i < |paths| ==> paths[i] == PartitionPath(root, start.ordinal + i)
      invariant |paths| <= RangeDayCount(start, end)
      invariant day > end.ordinal ==> |paths| == RangeDayCount(start, end)
      decreases end.ordinal - day + 1
    {
      paths := paths + [PartitionPath(root, day)];
      day := day + 1;
    }
  }

  /** The day patterns of a range. */
  function RangePaths(root: string, start: DateTime, end: DateTime): (paths: seq<string>)
    requires start.ordinal >= 1
    ensures |paths| == RangeDayCount(start, end)
    ensures forall i :: 0 <= i < |paths| ==> paths[i] == PartitionPath(root, start.ordinal + i)
  {
    DayPaths(root, start.ordinal, RangeDayCount(start, end))
  }

  /** The patterns of `n` consecutive days from `first`. */
  function DayPaths(root: string, first: int, n: nat): (paths: seq<string>)
    requires first >= 1
    ensures |paths| == n
    ensures forall i :: 0 <= i < n ==> paths[i] == PartitionPath(root, first + i)
    decreases n
  {
    if n == 0 then [] else DayPaths(root, first, n - 1) + [PartitionPath(root, first + n - 1)]
  }

  /** Every instant of the range has its day's pattern among the range's
      patterns. */
  lemma RangePathsCover(root: string, start: DateTime, end: DateTime, x: DateTime)
    requires start.ordinal >= 1 && NotAfter(start, x) && NotAfter(x, end)
    ensures PartitionPath(root, x.ordinal) in RangePaths(root, start, end)
  {
    assert RangePaths(root, start, end)[x.ordinal - start.ordinal] == PartitionPath(root, x.ordinal);
  }

  // ---------------------------------------------------------------------
  // glob and the empty-result checks

  /** `glob` of the parquet pattern under `dir`: a file directly in `dir` whose
      name ends in ".parquet" and does not start with a dot. */
  predicate MatchesParquetGlob(dir: string, f: string)
  {
    |f| > |dir| + 1 + 8 && f[..|dir| + 1] == dir + "/" && f[|f| - 8..] == ".parquet" &&
    f[|dir| + 1] != '.' && forall k :: |dir| + 1 <= k < |f| ==> f[k] != '/'
  }

  function Glob(dir: string, files: seq<string>): (r: seq<string>)
    ensures forall f :: f in r <==> f in files && MatchesParquetGlob(dir, f)
  {
    FilterMembers(files, f => MatchesParquetGlob(dir, f))
  }

  function FilterMembers(s: seq<string>, p: string -> bool): (r: seq<string>)
    ensures r == Filter(s, p)
    ensures forall f :: f in r <==> f in s && p(f)
  {
    FilterMembersLemma(s, p);
    Filter(s, p)
  }

  lemma {:induction false} FilterMembersLemma(s: seq<string>, p: string -> bool)
    ensures forall f :: f in Filter(s, p) <==> f in s && p(f)
    decreases |s|
  {
    if s != [] {
      var n := |s| - 1;
      FilterMembersLemma(s[..n], p);
      assert s == s[..n] + [s[n]];
      FilterAppend(s[..n], [s[n]], p);
      FilterSingle(s[n], p);
    }
  }

  lemma FilterSingle(x: string, p: string -> bool)
    ensures Filter([x], p) == if p(x) then [x] else []
  {
    assert [x][..0] == [];
  }

  /** The files of several day directories, day by day. */
  function GlobAll(dirs: seq<string>, files: seq<string>): (r: seq<string>)
    ensures forall f :: f in r <==> exists i :: 0 <= i < |dirs| && f in files && MatchesParquetGlob(dirs[i], f)
    decreases |dirs|
  {
    if dirs == [] then []
    else
      var n := |dirs| - 1;
      var prev := GlobAll(dirs[..n], files);
      GlobAllStep(dirs, files, prev);
      prev + Glob(dirs[n], files)
  }

  lemma GlobAllStep(dirs: seq<string>, files: seq<string>, prev: seq<string>)
    requires dirs != []
    requires forall f :: f in prev <==>
      exists i :: 0 <= i < |dirs| - 1 && f in files && MatchesParquetGlob(dirs[i], f)
    ensures forall f :: f in prev + Glob(dirs[|dirs| - 1], files) <==>
      exists i :: 0 <= i < |dirs| && f in files && MatchesParquetGlob(dirs[i], f)
  {
    var n := |dirs| - 1;
    forall f | exists i :: 0 <= i < |dirs| && f in files && MatchesParquetGlob(dirs[i], f)
      ensures f in prev + Glob(dirs[n], files)
    {
      var i :| 0 <= i < |dirs| && f in files && MatchesParquetGlob(dirs[i], f);
      if i < n {
        assert dirs[..n][i] == dirs[i];
      }
    }
    forall f | f in prev
      ensures exists i :: 0 <= i < |dirs| && f in files && MatchesParquetGlob(dirs[i], f)
    {
    }
  }

  /** The directories of a range's days. */
  function RangeDirs(root: string, start: DateTime, end: DateTime): (dirs: seq<string>)
    requires start.ordinal >= 1
    ensures |dirs| == RangeDayCount(start, end)
    ensures forall i :: 0 <= i < |dirs| ==> dirs[i] == PartitionDir(root, start.ordinal + i)
  {
    DayDirs(root, start.ordinal, RangeDayCount(start, end))
  }

  /** The directories of `n` consecutive days from `first`. */
  function DayDirs(root: string, first: int, n: nat): (dirs: seq<string>)
    requires first >= 1
    ensures |dirs| == n
    ensures forall i :: 0 <= i < n ==> dirs[i] == PartitionDir(root, first + i)
    decreases n
  {
    if n == 0 then [] else DayDirs(root, first, n - 1) + [PartitionDir(root, first + n - 1)]
  }

  /** read_fact_table: the parquet files of the range's day partitions, or
      FileNotFoundError when there are none; the frame read is the
      concatenation of the files' contents in that order. */
  function ReadFactTable(root: string, start: DateTime, end: DateTime, files: seq<string>,
                         contents: map<string, Table>): (r: Result<Table>)
    requires start.ordinal >= 1
    requires forall f :: f in files ==> f in contents
    ensures r.Err? <==> GlobAll(RangeDirs(root, start, end), files) == []
  {
    var valid := GlobAll(RangeDirs(root, start, end), files);
    if valid == [] then Err("No data files found for fact table for date range")
    else Ok(ConcatFiles(valid, contents))
  }

  function ConcatFiles(paths: seq<string>, contents: map<string, Table>): Table
    requires forall f :: f in paths ==> f in contents
    decreases |paths|
  {
    if paths == [] then [] else contents[paths[0]] + ConcatFiles(paths[1..], contents)
  }

  /** read_task_tracker_fact_table: the parquet files of directory
      `batch_id={id}`, or FileNotFoundError when there are none. */
  function ReadTaskTrackerFactTable(root: string, batchId: string, files: seq<string>,
                                    contents: map<string, Table>): (r: Result<Table>)
    requires forall f :: f in files ==> f in contents
    ensures r.Err? <==> forall f :: f in files ==> !MatchesParquetGlob(root + "/batch_id=" + batchId, f)
  {
    var valid := Glob(root + "/batch_id=" + batchId, files);
    if valid == [] then Err("No data files found for fact table for batch ID")
    else Ok(ConcatFiles(valid, contents))
  }

  // ---------------------------------------------------------------------
  // write_fact_table

  /** A row's instant, read from its millisecond timestamp. */
  predicate Writable(r: Row)
  {
    "timestamp" in r && r["timestamp"].Int? && FromMillis(r["timestamp"].i).ordinal >= 1
  }

  /** The row with the year, month and day of its timestamp added. */
  function WithPartitionColumns(r: Row): (w: Row)
    requires Writable(r)
    ensures var c := CivilOf(FromMillis(r["timestamp"].i).ordinal);
      w == r["year" := Int(c.year)]["month" := Int(c.month)]["day" := Int(c.day)]
  {
    var c := CivilOf(FromMillis(r["timestamp"].i).ordinal);
    r["year" := Int(c.year)]["month" := Int(c.month)]["day" := Int(c.day)]
  }

  /** write_fact_table's column assignments on the caller's frame. */
  method AddPartitionColumns(frame: Frame)
    requires forall i :: 0 <= i < |frame.rows| ==> Writable(frame.rows[i])
    modifies frame
    ensures |frame.rows| == |old(frame.rows)|
    ensures forall i :: 0 <= i < |frame.rows| ==> frame.rows[i] == WithPartitionColumns(old(frame.rows)[i])
  {
    var rows := frame.rows;
    var out := [];
    for i := 0 to |rows|
      invariant |out| == i
      invariant forall k :: 0 <= k < i ==> out[k] == WithPartitionColumns(rows[k])
    {
      out := out + [WithPartitionColumns(rows[i])];
    }
    frame.rows := out;
  }

  /** The directory a row is written under, from its partition columns. */
  function WrittenDir(root: string, w: Row): string
    requires "year" in w && "month" in w && "day" in w && w["year"].Int? && w["month"].Int? && w["day"].Int?
  {
    HiveDir(root, IntToString(w["year"].i), IntToString(w["month"].i), IntToString(w["day"].i))
  }

  /** A row written by write_fact_table lands in the partition of its
      timestamp's day, so a later read of any range containing that instant
      looks in its directory. */
  lemma WrittenRowIsRead(root: string, r: Row, start: DateTime, end: DateTime)
    requires Writable(r) && start.ordinal >= 1
    requires NotAfter(start, FromMillis(r["timestamp"].i)) && NotAfter(FromMillis(r["timestamp"].i), end)
    ensures var w := WithPartitionColumns(r);
      WrittenDir(root, w) == PartitionDir(root, FromMillis(r["timestamp"].i).ordinal) &&
      WrittenDir(root, w) in RangeDirs(root, start, end)
  {
    var o := FromMillis(r["timestamp"].i).ordinal;
    assert RangeDirs(root, start, end)[o - start.ordinal] == PartitionDir(root, o);
  }
}
