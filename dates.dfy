// Calendar arithmetic shared by the scheduling helpers and the fact-table
// partitions. A date is a proleptic Gregorian day ordinal (0001-01-01 is day
// 1, as Python's date.toordinal counts); an instant is an ordinal and a time
// of day in microseconds, as a naive datetime is. The civil (year, month,
// day) form of an ordinal and the "%Y/%m/%d %H:%M" text form of the pipeline
// parameters are defined on top.
module Dates {
  import opened Tables

  const DayMicros: int := 86_400_000_000
  const MinuteMicros: int := 60_000_000
  const DayMillis: int := 86_400_000
  /** The ordinal of 1970-01-01. */
  const EpochOrdinal: int := 719_163

  /** A naive datetime: a day ordinal and the microseconds since midnight. */
  datatype DateTime = DateTime(ordinal: int, micros: int)

  predicate Valid(t: DateTime)
  {
    1 <= t.ordinal && 0 <= t.micros < DayMicros
  }

  /** `a <= b` on datetimes. */
  predicate NotAfter(a: DateTime, b: DateTime)
  {
    a.ordinal < b.ordinal || (a.ordinal == b.ordinal && a.micros <= b.micros)
  }

  /** `t + timedelta(days=n)`: the time of day is kept. */
  function AddDays(t: DateTime, n: int): (r: DateTime)
    ensures r.ordinal == t.ordinal + n && r.micros == t.micros
  {
    DateTime(t.ordinal + n, t.micros)
  }

  /** `date.weekday()`: Monday is 0, Saturday 5 and Sunday 6. */
  function Weekday(ordinal: int): (w: int)
    ensures 0 <= w < 7
  {
    (ordinal + 6) % 7
  }

  const Saturday: int := 5
  const Sunday: int := 6

  /** The instant of a millisecond Unix timestamp, as pandas reads one: the
      whole days since 1970-01-01 and the milliseconds into that day. */
  function FromMillis(ms: int): (t: DateTime)
    ensures 0 <= t.micros < DayMicros && t.micros % 1000 == 0
    ensures (t.ordinal - EpochOrdinal) * DayMillis + t.micros / 1000 == ms
  {
    DateTime(EpochOrdinal + ms / DayMillis, (ms % DayMillis) * 1000)
  }

  // ---------------------------------------------------------------------
  // Civil dates

  datatype Civil = Civil(year: int, month: int, day: int)

  predicate IsLeap(y: int)
  {
    y % 4 == 0 && (y % 100 != 0 || y % 400 == 0)
  }

  function YearLength(y: int): int
  {
    if IsLeap(y) then 366 else 365
  }

  function DaysInMonth(y: int, m: int): int
    requires 1 <= m <= 12
  {
    if m == 2 then (if IsLeap(y) then 29 else 28)
    else if m == 4 || m == 6 || m == 9 || m == 11 then 30
    else 31
  }

  /** The days of year `y` before the first of month `m`. */
  function DaysBeforeMonth(y: int, m: int): int
    requires 1 <= m <= 12
  {
    var leap := if IsLeap(y) then 1 else 0;
    if m == 1 then 0 else if m == 2 then 31
    else [59, 90, 120, 151, 181, 212, 243, 273, 304, 334][m - 3] + leap
  }

  /** The days before the first of January of year `y`. */
  function DaysBeforeYear(y: int): nat
    requires y >= 1
    decreases y
  {
    if y == 1 then 0 else DaysBeforeYear(y - 1) + YearLength(y - 1)
  }

  predicate ValidCivil(c: Civil)
  {
    1 <= c.year && 1 <= c.month <= 12 && 1 <= c.day <= DaysInMonth(c.year, c.month)
  }

  /** `date(y, m, d).toordinal()`. */
  function ToOrdinal(c: Civil): (n: int)
    requires ValidCivil(c)
    ensures n >= 1
  {
    DaysBeforeYear(c.year) + DaysBeforeMonth(c.year, c.month) + c.day
  }

  /** A month's days follow the days before it, and the last month ends the year. */
  lemma MonthLayout(y: int, m: int)
    requires 1 <= m <= 12
    ensures m < 12 ==> DaysBeforeMonth(y, m + 1) == DaysBeforeMonth(y, m) + DaysInMonth(y, m)
    ensures m == 12 ==> DaysBeforeMonth(y, m) + DaysInMonth(y, m) == YearLength(y)
  {
  }

  function MonthWalk(y: int, m: int, r: int): (c: Civil)
    requires y >= 1 && 1 <= m <= 12 && 0 <= r < YearLength(y) - DaysBeforeMonth(y, m)
    ensures ValidCivil(c) && c.year == y
    ensures DaysBeforeMonth(y, c.month) + c.day == DaysBeforeMonth(y, m) + r + 1
    decreases 12 - m
  {
    MonthLayout(y, m);
    if r < DaysInMonth(y, m) then Civil(y, m, r + 1)
    else MonthWalk(y, m + 1, r - DaysInMonth(y, m))
  }

  function YearWalk(y: int, r: int): (c: Civil)
    requires y >= 1 && r >= 0
    ensures ValidCivil(c) && ToOrdinal(c) == DaysBeforeYear(y) + r + 1
    decreases r
  {
    if r < YearLength(y) then MonthWalk(y, 1, r)
    else YearWalk(y + 1, r - YearLength(y))
  }

  /** `date.fromordinal(n)`: the civil date whose ordinal is `n`. */
  function CivilOf(n: int): (c: Civil)
    requires n >= 1
    ensures ValidCivil(c) && ToOrdinal(c) == n
  {
    YearWalk(1, n - 1)
  }

  lemma {:induction false} YearsBefore(y1: int, y2: int)
    requires 1 <= y1 < y2
    ensures DaysBeforeYear(y1) + YearLength(y1) <= DaysBeforeYear(y2)
    decreases y2 - y1
  {
    if y1 + 1 < y2 {
      YearsBefore(y1 + 1, y2);
    }
  }

  lemma MonthsBefore(y: int, m1: int, m2: int)
    requires 1 <= m1 < m2 <= 12
    ensures DaysBeforeMonth(y, m1) + DaysInMonth(y, m1) <= DaysBeforeMonth(y, m2)
  {
  }

  /** Different civil dates have different ordinals. */
  lemma ToOrdinalInjective(c1: Civil, c2: Civil)
    requires ValidCivil(c1) && ValidCivil(c2) && ToOrdinal(c1) == ToOrdinal(c2)
    ensures c1 == c2
  {
    if c1.year != c2.year {
      var (a, b) := if c1.year < c2.year then (c1, c2) else (c2, c1);
      MonthLayout(a.year, 12);
      MonthsBeforeOrLast(a.year, a.month);
      YearsBefore(a.year, b.year);
      assert false;
    } else if c1.month != c2.month {
      var (a, b) := if c1.month < c2.month then (c1, c2) else (c2, c1);
      MonthsBefore(a.year, a.month, b.month);
      assert false;
    }
  }

  lemma MonthsBeforeOrLast(y: int, m: int)
    requires 1 <= m <= 12
    ensures DaysBeforeMonth(y, m) + DaysInMonth(y, m) <= YearLength(y)
  {
  }

  /** Ordinals and civil dates are in one-to-one correspondence. */
  lemma CivilRoundTrip(c: Civil)
    requires ValidCivil(c)
    ensures ToOrdinal(c) >= 1 && CivilOf(ToOrdinal(c)) == c
  {
    ToOrdinalInjective(CivilOf(ToOrdinal(c)), c);
  }

  /** One step of a year count: year `x` adds one to the multiples of `k`
      up to it exactly when `k` divides it. */
  lemma DivStep(x: int, k: int)
    requires x >= 1 && (k == 4 || k == 100 || k == 400)
    ensures x / k - (x - 1) / k == if x % k == 0 then 1 else 0
  {
    if k == 4 {
      assert x / 4 - (x - 1) / 4 == if x % 4 == 0 then 1 else 0;
    } else if k == 100 {
      assert x / 100 - (x - 1) / 100 == if x % 100 == 0 then 1 else 0;
    } else {
      assert x / 400 - (x - 1) / 400 == if x % 400 == 0 then 1 else 0;
    }
  }

  /** The Gregorian count of the days before year `y`: 365 a year plus the
      leap days of the years before it. */
  function GregorianDaysBefore(y: int): int
  {
    365 * (y - 1) + (y - 1) / 4 - (y - 1) / 100 + (y - 1) / 400
  }

  /** The count grows by the length of each year. */
  lemma GregorianStep(x: int)
    requires x >= 1
    ensures GregorianDaysBefore(x + 1) == GregorianDaysBefore(x) + YearLength(x)
  {
    DivStep(x, 4);
    DivStep(x, 100);
    DivStep(x, 400);
    if x % 400 == 0 {
      assert x == 100 * (4 * (x / 400)) && x == 4 * (100 * (x / 400));
    } else if x % 100 == 0 {
      assert x == 4 * (25 * (x / 100));
    }
  }

  lemma {:induction false} DaysBeforeYearClosed(y: int)
    requires y >= 1
    ensures DaysBeforeYear(y) == GregorianDaysBefore(y)
    decreases y
  {
    if y > 1 {
      DaysBeforeYearClosed(y - 1);
      GregorianStep(y - 1);
    }
  }

  /** 1970-01-01 is the epoch ordinal, so timestamp 0 is its midnight. */
  lemma EpochIsNewYear1970()
    ensures ValidCivil(Civil(1970, 1, 1)) && ToOrdinal(Civil(1970, 1, 1)) == EpochOrdinal
    ensures CivilOf(FromMillis(0).ordinal) == Civil(1970, 1, 1) && FromMillis(0).micros == 0
  {
    var c := Civil(1970, 1, 1);
    DaysBeforeYearClosed(1970);
    assert ToOrdinal(c) == EpochOrdinal;
    assert FromMillis(0).ordinal == EpochOrdinal;
    CivilRoundTrip(c);
  }

  /** The next day is the next weekday. */
  lemma WeekdayNext(n: int)
    ensures Weekday(n + 1) == (Weekday(n) + 1) % 7
  {
  }

  /** Calendar anchors: 0001-01-01 and 2024-01-01 are Mondays and 1970-01-01
      is a Thursday (weekday 3). */
  lemma WeekdayAnchors()
    ensures Weekday(ToOrdinal(Civil(1, 1, 1))) == 0
    ensures ToOrdinal(Civil(2024, 1, 1)) == 738_886 && Weekday(738_886) == 0
    ensures Weekday(EpochOrdinal) == 3
  {
    DaysBeforeYearClosed(2024);
    assert 2023 / 4 == 505 && 2023 / 100 == 20 && 2023 / 400 == 5;
    assert DaysBeforeYear(2024) == 738_885;
    assert DaysBeforeMonth(2024, 1) == 0;
  }

  // ---------------------------------------------------------------------
  // "%Y/%m/%d %H:%M"

  /** The length of the run of ASCII digits from `i`. */
  function DigitRun(s: string, i: nat): (n: nat)
    requires i <= |s|
    ensures i + n <= |s|
    ensures forall k :: i <= k < i + n ==> IsDigit(s[k])
    ensures i + n == |s| || !IsDigit(s[i + n])
    decreases |s| - i
  {
    if i < |s| && IsDigit(s[i]) then 1 + DigitRun(s, i + 1) else 0
  }

  /** The length of the run of whitespace from `i`. */
  function SpaceRun(s: string, i: nat): (n: nat)
    requires i <= |s|
    ensures i + n <= |s|
    ensures forall k :: i <= k < i + n ==> IsSpace(s[k])
    ensures i + n == |s| || !IsSpace(s[i + n])
    decreases |s| - i
  {
    if i < |s| && IsSpace(s[i]) then 1 + SpaceRun(s, i + 1) else 0
  }

  /** One numeric directive at `i`: all the digits there, between `minLen`
      and `maxLen` of them, with a value in [lo, hi]; the value and the
      position after it. A directive is always followed by a non-digit or the
      end of the text, so this is what the directive's pattern matches. */
  function Field(s: string, i: nat, minLen: nat, maxLen: nat, lo: int, hi: int): (r: Option<(int, nat)>)
    requires i <= |s|
    ensures r.Some? ==> i < r.value.1 <= |s| && lo <= r.value.0 <= hi
  {
    var n := DigitRun(s, i);
    if 1 <= minLen <= n <= maxLen && lo <= DigitsValue(s[i..i + n]) <= hi then Some((DigitsValue(s[i..i + n]), i + n))
    else None
  }

  /** `%d` also admits a space before a single digit. */
  function DayField(s: string, i: nat): (r: Option<(int, nat)>)
    requires i <= |s|
    ensures r.Some? ==> i < r.value.1 <= |s| && 1 <= r.value.0 <= 31
  {
    if i < |s| && s[i] == ' ' then Field(s, i + 1, 1, 1, 1, 9) else Field(s, i, 1, 2, 1, 31)
  }

  predicate CharAt(s: string, i: nat, ch: char)
  {
    i < |s| && s[i] == ch
  }

  /** `datetime.strptime(s, "%Y/%m/%d %H:%M")`: a four-digit year, then a
      month, a day, one or more whitespace characters, an hour and a minute,
      and nothing after; the date must exist. */
  function ParseDateTime(s: string): (r: Result<DateTime>)
    ensures r.Ok? ==> Valid(r.value) && r.value.micros % MinuteMicros == 0
  {
    var date := ParseDate(s);
    if date.None? then Err("time data does not match format") else
    var time := ParseTime(s, date.value.1);
    if time.None? then Err("time data does not match format")
    else if !ValidCivil(date.value.0) then Err("day is out of range for month")
    else Ok(DateTime(ToOrdinal(date.value.0), time.value))
  }

  /** "%Y/%m/%d": the three numbers, unchecked against the calendar, and the
      position after them. */
  function ParseDate(s: string): (r: Option<(Civil, nat)>)
    ensures r.Some? ==> r.value.1 <= |s| && 1 <= r.value.0.year && 1 <= r.value.0.month <= 12
  {
    var y := Field(s, 0, 4, 4, 1, 9999);
    if y.None? || !CharAt(s, y.value.1, '/') then None else
    var m := Field(s, y.value.1 + 1, 1, 2, 1, 12);
    if m.None? || !CharAt(s, m.value.1, '/') then None else
    var d := DayField(s, m.value.1 + 1);
    if d.None? then None else Some((Civil(y.value.0, m.value.0, d.value.0), d.value.1))
  }

  /** " %H:%M" from `i` to the end of the text: the time of day. */
  function ParseTime(s: string, i: nat): (r: Option<int>)
    requires i <= |s|
    ensures r.Some? ==> 0 <= r.value < DayMicros && r.value % MinuteMicros == 0
  {
    var sp := SpaceRun(s, i);
    if sp == 0 then None else
    var h := Field(s, i + sp, 1, 2, 0, 23);
    if h.None? || !CharAt(s, h.value.1, ':') then None else
    var mi := Field(s, h.value.1 + 1, 1, 2, 0, 59);
    if mi.None? || mi.value.1 != |s| then None else Some(TimeOfDay(h.value.0, mi.value.0))
  }

  /** The microseconds since midnight of `hh:mm`. */
  function TimeOfDay(h: int, mi: int): (u: int)
    requires 0 <= h <= 23 && 0 <= mi <= 59
    ensures 0 <= u < DayMicros && u % MinuteMicros == 0
  {
    var k := h * 60 + mi;
    assert k * MinuteMicros % MinuteMicros == 0;
    k * MinuteMicros
  }

  function Pad2(n: nat): (s: string)
    requires n < 100
    ensures |s| == 2
  {
    [DigitChar(n / 10), DigitChar(n % 10)]
  }

  function Pad4(n: nat): (s: string)
    requires n < 10000
    ensures |s| == 4
  {
    [DigitChar(n / 1000), DigitChar(n / 100 % 10), DigitChar(n / 10 % 10), DigitChar(n % 10)]
  }

  /** `t.strftime("%Y/%m/%d %H:%M")`, zero-padded. */
  function FormatDateTime(t: DateTime): (s: string)
    requires Valid(t) && CivilOf(t.ordinal).year <= 9999
    ensures |s| == 16
  {
    var c := CivilOf(t.ordinal);
    var q := t.micros / MinuteMicros;
    Pad4(c.year) + "/" + Pad2(c.month) + "/" + Pad2(c.day) + " " + Pad2(q / 60) + ":" + Pad2(q % 60)
  }

  lemma {:induction false} DigitRunExact(s: string, i: nat, n: nat)
    requires i + n <= |s|
    requires forall k :: i <= k < i + n ==> IsDigit(s[k])
    requires i + n == |s| || !IsDigit(s[i + n])
    ensures DigitRun(s, i) == n
    decreases n
  {
    if n > 0 {
      DigitRunExact(s, i + 1, n - 1);
    }
  }

  lemma DigitCharValue(d: nat)
    requires d < 10
    ensures IsDigit(DigitChar(d)) && DigitValue(DigitChar(d)) == d
  {
    assert DigitChar(d) == ['0', '1', '2', '3', '4', '5', '6', '7', '8', '9'][d];
  }

  lemma Pad2Value(n: nat)
    requires n < 100
    ensures forall k :: 0 <= k < 2 ==> IsDigit(Pad2(n)[k])
    ensures DigitsValue(Pad2(n)) == n
  {
    var s := Pad2(n);
    DigitCharValue(n / 10);
    DigitCharValue(n % 10);
    assert n == n / 10 * 10 + n % 10;
    var s1 := s[..1];
    assert s1[..0] == [] && s[..1] == s1;
    assert DigitsValue(s1) == n / 10;
  }

  /** The four decimal digits of a number below 10000, most significant first. */
  lemma Split4(n: nat)
    requires n < 10000
    ensures n == ((n / 1000 * 10 + n / 100 % 10) * 10 + n / 10 % 10) * 10 + n % 10
  {
    assert n / 10 == n / 100 * 10 + n / 10 % 10;
    assert n / 100 == n / 1000 * 10 + n / 100 % 10;
    assert n == n / 10 * 10 + n % 10;
  }

  lemma Pad4Value(n: nat)
    requires n < 10000
    ensures forall k :: 0 <= k < 4 ==> IsDigit(Pad4(n)[k])
    ensures DigitsValue(Pad4(n)) == n
  {
    var a, b, c, d := n / 1000, n / 100 % 10, n / 10 % 10, n % 10;
    Split4(n);
    DigitCharValue(a);
    DigitCharValue(b);
    DigitCharValue(c);
    DigitCharValue(d);
    var s := Pad4(n);
    assert s == [DigitChar(a), DigitChar(b), DigitChar(c), DigitChar(d)];
    var s1, s2, s3 := s[..1], s[..2], s[..3];
    assert s1[..0] == [] && s2[..1] == s1 && s3[..2] == s2 && s[..3] == s3;
    assert DigitsValue(s1) == a;
    assert DigitsValue(s2) == a * 10 + b;
    assert DigitsValue(s3) == (a * 10 + b) * 10 + c;
  }

  /** A field of the formatted text reads back as the number written there. */
  lemma FieldAt(s: string, i: nat, p: string, n: nat, len: nat, lo: int, hi: int)
    requires i + len <= |s| && s[i..i + len] == p && |p| == len && 1 <= len
    requires forall k :: 0 <= k < len ==> IsDigit(p[k])
    requires DigitsValue(p) == n && lo <= n <= hi
    requires i + len == |s| || !IsDigit(s[i + len])
    ensures Field(s, i, len, len, lo, hi) == Some((n, i + len))
  {
    forall k | i <= k < i + len
      ensures IsDigit(s[k])
    {
      assert s[k] == p[k - i];
    }
    DigitRunExact(s, i, len);
  }

  /** Formatting a whole-minute instant and parsing it back gives the instant. */
  lemma ParseFormat(t: DateTime)
    requires Valid(t) && CivilOf(t.ordinal).year <= 9999 && t.micros % MinuteMicros == 0
    ensures ParseDateTime(FormatDateTime(t)) == Ok(t)
  {
    var c := CivilOf(t.ordinal);
    var q := t.micros / MinuteMicros;
    var s := FormatDateTime(t);
    FormatLayout(t);
    ParseDateLaidOut(s, c);
    ParseTimeLaidOut(s, q);
    WholeMinutes(t.micros);
  }

  /** Where each field sits in the formatted text. */
  lemma FormatLayout(t: DateTime)
    requires Valid(t) && CivilOf(t.ordinal).year <= 9999
    ensures var c, q, s := CivilOf(t.ordinal), t.micros / MinuteMicros, FormatDateTime(t);
      s[0..4] == Pad4(c.year) && s[4] == '/' && s[5..7] == Pad2(c.month) && s[7] == '/' &&
      s[8..10] == Pad2(c.day) && s[10] == ' ' &&
      s[11..13] == Pad2(q / 60) && s[13] == ':' && s[14..16] == Pad2(q % 60)
  {
    var c := CivilOf(t.ordinal);
    var q := t.micros / MinuteMicros;
    var s := FormatDateTime(t);
    var date := Pad4(c.year) + "/" + Pad2(c.month) + "/" + Pad2(c.day);
    var time := Pad2(q / 60) + ":" + Pad2(q % 60);
    assert s == date + " " + time;
    assert s[0..4] == date[0..4] && s[5..7] == date[5..7] && s[8..10] == date[8..10];
    assert s[11..13] == time[0..2] && s[14..16] == time[3..5];
  }

  lemma WholeMinutes(u: int)
    requires 0 <= u < DayMicros && u % MinuteMicros == 0
    ensures 0 <= u / MinuteMicros < 24 * 60
    ensures TimeOfDay(u / MinuteMicros / 60, u / MinuteMicros % 60) == u
  {
    var q := u / MinuteMicros;
    assert q / 60 * 60 + q % 60 == q;
    assert q * MinuteMicros == u;
  }

  lemma ParseDateLaidOut(s: string, c: Civil)
    requires ValidCivil(c) && c.year <= 9999 && |s| == 16
    requires s[0..4] == Pad4(c.year) && s[4] == '/' && s[5..7] == Pad2(c.month) && s[7] == '/'
    requires s[8..10] == Pad2(c.day) && s[10] == ' '
    ensures ParseDate(s) == Some((c, 10))
  {
    Pad4Value(c.year);
    Pad2Value(c.month);
    Pad2Value(c.day);
    FieldAt(s, 0, Pad4(c.year), c.year, 4, 1, 9999);
    FieldAt(s, 5, Pad2(c.month), c.month, 2, 1, 12);
    assert s[8] == Pad2(c.day)[0];
    FieldAt(s, 8, Pad2(c.day), c.day, 2, 1, 31);
  }

  lemma ParseTimeLaidOut(s: string, q: int)
    requires 0 <= q < 24 * 60 && |s| == 16 && s[10] == ' '
    requires s[11..13] == Pad2(q / 60) && s[13] == ':' && s[14..16] == Pad2(q % 60)
    ensures ParseTime(s, 10) == Some(TimeOfDay(q / 60, q % 60))
  {
    Pad2Value(q / 60);
    Pad2Value(q % 60);
    assert s[11] == Pad2(q / 60)[0];
    assert SpaceRun(s, 10) == 1;
    FieldAt(s, 11, Pad2(q / 60), q / 60, 2, 0, 23);
    FieldAt(s, 14, Pad2(q % 60), q % 60, 2, 0, 59);
  }
}
