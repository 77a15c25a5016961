/**
 `normalize_date`: read a feed timestamp in one of four formats, take the
 wall-clock time it names as UTC and move it to the local zone, given here
 as a fixed offset in minutes (Africa/Kampala is UTC+03:00, offset 180).
 Dates follow Python's `datetime`: the proleptic Gregorian calendar, years
 1 to 9999, day ordinals counted from 0001-01-01 as day 1.
 */
module Dates {
  import opened Wrappers
  import opened Text

  /** A time-zone-naive `datetime`. */
  datatype DateTime = DateTime(year: int, month: int, day: int, hour: int, minute: int, second: int)

  const MinutesPerDay: int := 1440
  const SecondsPerDay: int := 86400

  predicate IsLeap(y: int) {
    y % 4 == 0 && (y % 100 != 0 || y % 400 == 0)
  }

  function DaysInMonth(y: int, m: int): int
    requires 1 <= m <= 12
  {
    if m == 2 then (if IsLeap(y) then 29 else 28)
    else if m == 4 || m == 6 || m == 9 || m == 11 then 30
    else 31
  }

  function YearDays(y: int): int {
    if IsLeap(y) then 366 else 365
  }

  /** What `datetime` accepts: years 1 to 9999, a real day of the month, a time of day. */
  predicate Valid(dt: DateTime) {
    && 1 <= dt.year <= 9999
    && 1 <= dt.month <= 12
    && 1 <= dt.day <= DaysInMonth(dt.year, dt.month)
    && 0 <= dt.hour < 24
    && 0 <= dt.minute < 60
    && 0 <= dt.second < 60
  }

  type ValidDateTime = dt: DateTime | Valid(dt) witness DateTime(1, 1, 1, 0, 0, 0)

  /** Days before 1 January of year `y`, counted from 0001-01-01. */
  function DaysBeforeYear(y: int): int
    requires y >= 1
  {
    var p := y - 1;
    p * 365 + p / 4 - p / 100 + p / 400
  }

  /** Days of year `y` before the first of month `m`. */
  function DaysBeforeMonth(y: int, m: int): int
    requires 1 <= m <= 12
  {
    [0, 31, 59, 90, 120, 151, 181, 212, 243, 273, 304, 334][m - 1]
      + (if m > 2 && IsLeap(y) then 1 else 0)
  }

  /** `date.toordinal()`: 0001-01-01 is day 1. */
  function Ordinal(dt: DateTime): int
    requires Valid(dt)
  {
    DaysBeforeYear(dt.year) + DaysBeforeMonth(dt.year, dt.month) + dt.day
  }

  function MinuteOfDay(dt: DateTime): int {
    dt.hour * 60 + dt.minute
  }

  /** Seconds since 0001-01-01 00:00:00: a time line on which a time-zone shift is an addition. */
  function Seconds(dt: DateTime): int
    requires Valid(dt)
  {
    (Ordinal(dt) - 1) * SecondsPerDay + MinuteOfDay(dt) * 60 + dt.second
  }

  lemma YearStep(y: int)
    requires y >= 1
    ensures DaysBeforeYear(y + 1) == DaysBeforeYear(y) + YearDays(y)
  {
    var p := y - 1;
    DivStep(y);
    Multiple400(y);
    Multiple100(y);
    var step4, step100, step400 := y / 4 - p / 4, y / 100 - p / 100, y / 400 - p / 400;
    assert DaysBeforeYear(y + 1) - DaysBeforeYear(y) == 365 + step4 - step100 + step400;
  }

  /** Counting up to `y`, `y / 4`, `y / 100` and `y / 400` grow by one exactly at a multiple. */
  lemma DivStep(y: int)
    requires y >= 1
    ensures y / 4 == (y - 1) / 4 + (if y % 4 == 0 then 1 else 0)
    ensures y / 100 == (y - 1) / 100 + (if y % 100 == 0 then 1 else 0)
    ensures y / 400 == (y - 1) / 400 + (if y % 400 == 0 then 1 else 0)
  {
  }

  /** A multiple of 400 is a multiple of 100. */
  lemma Multiple400(y: int)
    ensures y % 400 == 0 ==> y % 100 == 0
  {
    var q := y / 400;
    assert y == 400 * q + y % 400;
    assert 400 * q == 100 * (4 * q);
  }

  /** A multiple of 100 is a multiple of 4. */
  lemma Multiple100(y: int)
    ensures y % 100 == 0 ==> y % 4 == 0
  {
    var q := y / 100;
    assert y == 100 * q + y % 100;
    assert 100 * q == 4 * (25 * q);
  }

  lemma MonthStep(y: int, m: int)
    requires 1 <= m < 12
    ensures DaysBeforeMonth(y, m + 1) == DaysBeforeMonth(y, m) + DaysInMonth(y, m)
  {
  }

  lemma YearEnd(y: int)
    ensures DaysBeforeMonth(y, 12) + 31 == YearDays(y)
  {
  }

  // ---------------------------------------------------------------------
  // Moving by whole days

  predicate IsFirstDay(dt: DateTime) {
    dt.year == 1 && dt.month == 1 && dt.day == 1
  }

  predicate IsLastDay(dt: DateTime) {
    dt.year == 9999 && dt.month == 12 && dt.day == 31
  }

  /** The same time on the following day. */
  function NextDay(dt: DateTime): (r: DateTime)
    requires Valid(dt) && !IsLastDay(dt)
    ensures Valid(r) && Ordinal(r) == Ordinal(dt) + 1
    ensures r.hour == dt.hour && r.minute == dt.minute && r.second == dt.second
  {
    if dt.day < DaysInMonth(dt.year, dt.month) then dt.(day := dt.day + 1)
    else if dt.month < 12 then
      MonthStep(dt.year, dt.month);
      dt.(month := dt.month + 1, day := 1)
    else
      YearStep(dt.year);
      YearEnd(dt.year);
      dt.(year := dt.year + 1, month := 1, day := 1)
  }

  /** The same time on the day before. */
  function PrevDay(dt: DateTime): (r: DateTime)
    requires Valid(dt) && !IsFirstDay(dt)
    ensures Valid(r) && !IsLastDay(r) && NextDay(r) == dt
    ensures Ordinal(r) == Ordinal(dt) - 1
  {
    if dt.day > 1 then dt.(day := dt.day - 1)
    else if dt.month > 1 then dt.(month := dt.month - 1, day := DaysInMonth(dt.year, dt.month - 1))
    else dt.(year := dt.year - 1, month := 12, day := 31)
  }

  lemma PrevOfNext(dt: DateTime)
    requires Valid(dt) && !IsLastDay(dt)
    ensures !IsFirstDay(NextDay(dt)) && PrevDay(NextDay(dt)) == dt
  {
  }

  /** `dt` with its hour and minute set to minute `m` of the day. */
  function AtMinute(dt: DateTime, m: int): (r: DateTime)
    requires Valid(dt) && 0 <= m < MinutesPerDay
    ensures Valid(r) && MinuteOfDay(r) == m
    ensures r.year == dt.year && r.month == dt.month && r.day == dt.day && r.second == dt.second
  {
    dt.(hour := m / 60, minute := m % 60)
  }

  // ---------------------------------------------------------------------
  // Time-zone shift

  /**
   `dt.replace(tzinfo=utc).astimezone(zone).replace(tzinfo=None)` for a zone
   `offset` minutes ahead of UTC. Python refuses offsets of a day or more and
   raises when the result leaves years 1 to 9999; that is `None` here.
   */
  function Shift(dt: DateTime, offset: int): (r: Option<DateTime>)
    requires Valid(dt) && -MinutesPerDay < offset < MinutesPerDay
    ensures r.Some? ==> Valid(r.value) && r.value.second == dt.second
    ensures r.None? ==> (IsFirstDay(dt) && offset < 0) || (IsLastDay(dt) && offset > 0)
  {
    var m := MinuteOfDay(dt) + offset;
    if m < 0 then
      if IsFirstDay(dt) then None else Some(AtMinute(PrevDay(dt), m + MinutesPerDay))
    else if m >= MinutesPerDay then
      if IsLastDay(dt) then None else Some(AtMinute(NextDay(dt), m - MinutesPerDay))
    else Some(AtMinute(dt, m))
  }

  /**
   The shift adds the offset to the time line, and fails exactly when the
   result would fall before 0001-01-01 00:00:00 or after 9999-12-31 23:59:59.
   */
  lemma ShiftSeconds(dt: DateTime, offset: int)
    requires Valid(dt) && -MinutesPerDay < offset < MinutesPerDay
    ensures var r := Shift(dt, offset);
      && (r.Some? ==> Seconds(r.value) == Seconds(dt) + 60 * offset)
      && (r.None? <==>
          || (IsFirstDay(dt) && Seconds(dt) + 60 * offset < 0)
          || (IsLastDay(dt) && Seconds(dt) + 60 * offset >= Ordinal(dt) * SecondsPerDay))
  {
  }

  /** Setting the minute of the day back to the original one restores the original time. */
  lemma AtMinuteRestores(dt: DateTime, m: int)
    requires Valid(dt) && 0 <= m < MinutesPerDay
    ensures AtMinute(AtMinute(dt, m), MinuteOfDay(dt)) == dt
  {
    assert MinuteOfDay(dt) / 60 == dt.hour && MinuteOfDay(dt) % 60 == dt.minute;
  }

  lemma NextDayAtMinute(d: DateTime, m: int)
    requires Valid(d) && !IsLastDay(d) && 0 <= m < MinutesPerDay
    ensures !IsLastDay(AtMinute(d, m)) && NextDay(AtMinute(d, m)) == AtMinute(NextDay(d), m)
  {
  }

  lemma PrevDayAtMinute(d: DateTime, m: int)
    requires Valid(d) && !IsFirstDay(d) && 0 <= m < MinutesPerDay
    ensures !IsFirstDay(AtMinute(d, m)) && PrevDay(AtMinute(d, m)) == AtMinute(PrevDay(d), m)
  {
  }

  /** A shift that crossed back into the previous day is undone by the opposite shift. */
  lemma ShiftBackFromPrevDay(dt: DateTime, offset: int)
    requires Valid(dt) && -MinutesPerDay < offset < MinutesPerDay
    requires MinuteOfDay(dt) + offset < 0 && !IsFirstDay(dt)
    ensures Shift(AtMinute(PrevDay(dt), MinuteOfDay(dt) + offset + MinutesPerDay), -offset) == Some(dt)
  {
    var m := MinuteOfDay(dt) + offset + MinutesPerDay;
    NextDayAtMinute(PrevDay(dt), m);
    AtMinuteRestores(dt, m);
  }

  /** A shift that crossed into the next day is undone by the opposite shift. */
  lemma ShiftBackFromNextDay(dt: DateTime, offset: int)
    requires Valid(dt) && -MinutesPerDay < offset < MinutesPerDay
    requires MinuteOfDay(dt) + offset >= MinutesPerDay && !IsLastDay(dt)
    ensures Shift(AtMinute(NextDay(dt), MinuteOfDay(dt) + offset - MinutesPerDay), -offset) == Some(dt)
  {
    var m := MinuteOfDay(dt) + offset - MinutesPerDay;
    PrevOfNext(dt);
    PrevDayAtMinute(NextDay(dt), m);
    AtMinuteRestores(dt, m);
  }

  /** Shifting back by the same offset restores the original time. */
  lemma ShiftRoundTrip(dt: DateTime, offset: int)
    requires Valid(dt) && -MinutesPerDay < offset < MinutesPerDay
    requires Shift(dt, offset).Some?
    ensures Shift(Shift(dt, offset).value, -offset) == Some(dt)
  {
    var m := MinuteOfDay(dt) + offset;
    if m < 0 {
      ShiftBackFromPrevDay(dt, offset);
    } else if m >= MinutesPerDay {
      ShiftBackFromNextDay(dt, offset);
    } else {
      AtMinuteRestores(dt, m);
    }
  }

  /** A shift fails only within a day of the ends of the calendar. */
  lemma ShiftDefinedInside(dt: DateTime, offset: int)
    requires Valid(dt) && -MinutesPerDay < offset < MinutesPerDay
    requires !IsFirstDay(dt) && !IsLastDay(dt)
    ensures Shift(dt, offset).Some?
  {
  }

  /** At UTC+03:00, 22:30 on 31 December is 01:30 on 1 January of the next year. */
  lemma ShiftAcrossYear()
    ensures Shift(DateTime(2023, 12, 31, 22, 30, 0), 180) == Some(DateTime(2024, 1, 1, 1, 30, 0))
  {
  }

  /** At UTC+03:00, 23:15 on 28 February 2024 is 02:15 on the leap day. */
  lemma ShiftIntoLeapDay()
    ensures Shift(DateTime(2024, 2, 28, 23, 15, 0), 180) == Some(DateTime(2024, 2, 29, 2, 15, 0))
  {
  }

  /** The last hours of 9999 cannot be moved ahead. */
  lemma ShiftPastLastYear()
    ensures Shift(DateTime(9999, 12, 31, 22, 0, 0), 180) == None
  {
  }

  // ---------------------------------------------------------------------
  // Digits

  predicate IsDigit(c: char) {
    '0' <= c <= '9'
  }

  predicate AllDigits(s: string) {
    forall i :: 0 <= i < |s| ==> IsDigit(s[i])
  }

  function DigitValue(c: char): int
    requires IsDigit(c)
  {
    c as int - '0' as int
  }

  function Digit(n: int): (c: char)
    requires 0 <= n < 10
    ensures IsDigit(c) && DigitValue(c) == n
  {
    ('0' as int + n) as char
  }

  /** The value of a string of decimal digits. */
  function Number(s: string): (n: nat)
    requires AllDigits(s)
    decreases |s|
  {
    if |s| == 0 then 0
    else Number(s[..|s| - 1]) * 10 + DigitValue(s[|s| - 1])
  }

  /** `n` in two digits, with a leading zero. */
  function Pad2(n: int): (s: string)
    requires 0 <= n < 100
    ensures |s| == 2 && AllDigits(s)
  {
    [Digit(n / 10), Digit(n % 10)]
  }

  /** `n` in four digits, with leading zeros (`%Y`). */
  function Pad4(n: int): (s: string)
    requires 0 <= n < 10000
    ensures |s| == 4 && AllDigits(s)
  {
    Pad2(n / 100) + Pad2(n % 100)
  }

  lemma NumberOf2(s: string)
    requires |s| == 2 && AllDigits(s)
    ensures Number(s) == DigitValue(s[0]) * 10 + DigitValue(s[1])
  {
    assert s[..1][0] == s[0] && s[..1][..0] == [];
    assert Number(s[..1]) == DigitValue(s[0]);
  }

  lemma NumberOf4(s: string)
    requires |s| == 4 && AllDigits(s)
    ensures Number(s) == Number(s[..2]) * 100 + Number(s[2..])
  {
    assert s[..3][..2] == s[..2];
    assert s[2..][0] == s[2] && s[2..][1] == s[3];
    NumberOf2(s[2..]);
  }

  lemma DivMod100(q: int, r: int)
    requires 0 <= r < 100
    ensures (q * 100 + r) / 100 == q && (q * 100 + r) % 100 == r
  {
  }

  lemma DivMod10(q: int, r: int)
    requires 0 <= r < 10
    ensures (q * 10 + r) / 10 == q && (q * 10 + r) % 10 == r
  {
  }

  /** Reading back a padded number gives the number. */
  lemma NumberPad2(n: int)
    requires 0 <= n < 100
    ensures Number(Pad2(n)) == n
  {
    NumberOf2(Pad2(n));
  }

  lemma NumberPad4(n: int)
    requires 0 <= n < 10000
    ensures Number(Pad4(n)) == n
  {
    var s := Pad4(n);
    assert s[..2] == Pad2(n / 100) && s[2..] == Pad2(n % 100);
    NumberOf4(s);
    NumberPad2(n / 100);
    NumberPad2(n % 100);
  }

  /** Writing a two-digit string back with padding gives the string. */
  lemma Pad2Number(s: string)
    requires |s| == 2 && AllDigits(s)
    ensures Number(s) < 100 && Pad2(Number(s)) == s
  {
    NumberOf2(s);
    DivMod10(DigitValue(s[0]), DigitValue(s[1]));
  }

  lemma Pad4Number(s: string)
    requires |s| == 4 && AllDigits(s)
    ensures Number(s) < 10000 && Pad4(Number(s)) == s
  {
    NumberOf4(s);
    DigitsSlices(s);
    Pad2Number(s[..2]);
    Pad2Number(s[2..]);
    DivMod100(Number(s[..2]), Number(s[2..]));
    assert s == s[..2] + s[2..];
  }

  // ---------------------------------------------------------------------
  // The four formats

  /** The date-time named by six fields, if `datetime` accepts them. */
  function Build(y: int, mo: int, d: int, h: int, mi: int, s: int): (r: Option<ValidDateTime>)
    ensures r.Some? <==> Valid(DateTime(y, mo, d, h, mi, s))
    ensures r.Some? ==> r.value == DateTime(y, mo, d, h, mi, s)
  {
    var dt := DateTime(y, mo, d, h, mi, s);
    if Valid(dt) then Some(dt) else None
  }

  lemma DigitsSlices(s: string)
    requires AllDigits(s)
    ensures forall i, j :: 0 <= i <= j <= |s| ==> AllDigits(s[i..j])
  {
  }

  function Field(s: string, i: nat, n: nat): nat
    requires i + n <= |s| && AllDigits(s[i..i + n])
  {
    Number(s[i..i + n])
  }

  /** `%Y%m%d%H%M%S`, as GDELT writes it: fourteen digits. */
  function ParseCompact(s: string): Option<ValidDateTime> {
    if |s| == 14 && AllDigits(s) then
      DigitsSlices(s);
      Build(Field(s, 0, 4), Field(s, 4, 2), Field(s, 6, 2), Field(s, 8, 2), Field(s, 10, 2), Field(s, 12, 2))
    else None
  }

  function FormatCompact(dt: DateTime): (s: string)
    requires Valid(dt)
    ensures |s| == 14 && AllDigits(s)
    ensures s[0..4] == Pad4(dt.year) && s[4..6] == Pad2(dt.month) && s[6..8] == Pad2(dt.day)
    ensures s[8..10] == Pad2(dt.hour) && s[10..12] == Pad2(dt.minute) && s[12..14] == Pad2(dt.second)
  {
    var date := Pad4(dt.year) + Pad2(dt.month) + Pad2(dt.day);
    var time := Pad2(dt.hour) + Pad2(dt.minute) + Pad2(dt.second);
    assert date[0..4] == Pad4(dt.year) && date[4..6] == Pad2(dt.month) && date[6..8] == Pad2(dt.day);
    assert time[0..2] == Pad2(dt.hour) && time[2..4] == Pad2(dt.minute) && time[4..6] == Pad2(dt.second);
    var s := date + time;
    assert s[0..8] == date && s[8..14] == time;
    assert s == Pad4(dt.year) + Pad2(dt.month) + Pad2(dt.day) + Pad2(dt.hour) + Pad2(dt.minute) + Pad2(dt.second);
    s
  }

  /** The layout of `%Y-%m-%d %H:%M:%S` written with leading zeros; the gap is one whitespace character. */
  predicate SqlShape(s: string) {
    && |s| == 19
    && AllDigits(s[0..4]) && s[4] == '-' && AllDigits(s[5..7]) && s[7] == '-' && AllDigits(s[8..10])
    && IsSpace(s[10])
    && AllDigits(s[11..13]) && s[13] == ':' && AllDigits(s[14..16]) && s[16] == ':' && AllDigits(s[17..19])
  }

  /** `%Y-%m-%d %H:%M:%S`. */
  function ParseSql(s: string): Option<ValidDateTime> {
    if SqlShape(s) then
      Build(Field(s, 0, 4), Field(s, 5, 2), Field(s, 8, 2), Field(s, 11, 2), Field(s, 14, 2), Field(s, 17, 2))
    else None
  }

  /** `dt.strftime("%Y-%m-%d %H:%M:%S")`. */
  function FormatSql(dt: DateTime): (s: string)
    requires Valid(dt)
    ensures SqlShape(s) && s[10] == ' '
  {
    var s := Pad4(dt.year) + "-" + Pad2(dt.month) + "-" + Pad2(dt.day) + " "
      + Pad2(dt.hour) + ":" + Pad2(dt.minute) + ":" + Pad2(dt.second);
    assert s[0..4] == Pad4(dt.year) && s[5..7] == Pad2(dt.month) && s[8..10] == Pad2(dt.day);
    assert s[11..13] == Pad2(dt.hour) && s[14..16] == Pad2(dt.minute) && s[17..19] == Pad2(dt.second);
    s
  }

  /** Reading a written timestamp gives back the date-time. */
  lemma ParseFormatSql(dt: DateTime)
    requires Valid(dt)
    ensures ParseSql(FormatSql(dt)) == Some(dt)
  {
    var s := FormatSql(dt);
    assert s[0..4] == Pad4(dt.year) && s[5..7] == Pad2(dt.month) && s[8..10] == Pad2(dt.day);
    assert s[11..13] == Pad2(dt.hour) && s[14..16] == Pad2(dt.minute) && s[17..19] == Pad2(dt.second);
    NumberPad4(dt.year);
    NumberPad2(dt.month);
    NumberPad2(dt.day);
    NumberPad2(dt.hour);
    NumberPad2(dt.minute);
    NumberPad2(dt.second);
  }

  /** A timestamp that reads is the written form of what it reads as, up to the kind of gap. */
  lemma FormatParseSql(s: string)
    requires ParseSql(s).Some?
    ensures FormatSql(ParseSql(s).value) == s[..10] + " " + s[11..]
  {
    var dt := ParseSql(s).value;
    Pad4Number(s[0..4]);
    Pad2Number(s[5..7]);
    Pad2Number(s[8..10]);
    Pad2Number(s[11..13]);
    Pad2Number(s[14..16]);
    Pad2Number(s[17..19]);
    var f := FormatSql(dt);
    assert f[0..4] == Pad4(dt.year) && f[5..7] == Pad2(dt.month) && f[8..10] == Pad2(dt.day);
    assert f[11..13] == Pad2(dt.hour) && f[14..16] == Pad2(dt.minute) && f[17..19] == Pad2(dt.second);
    var t := s[..10] + " " + s[11..];
    forall i | 0 <= i < 19
      ensures f[i] == t[i]
    {
      if i < 4 { assert f[i] == f[0..4][i] && s[i] == s[0..4][i]; }
      else if 5 <= i < 7 { assert f[i] == f[5..7][i - 5] && s[i] == s[5..7][i - 5]; }
      else if 8 <= i < 10 { assert f[i] == f[8..10][i - 8] && s[i] == s[8..10][i - 8]; }
      else if 11 <= i < 13 { assert f[i] == f[11..13][i - 11] && s[i] == s[11..13][i - 11]; }
      else if 14 <= i < 16 { assert f[i] == f[14..16][i - 14] && s[i] == s[14..16][i - 14]; }
      else if 17 <= i < 19 { assert f[i] == f[17..19][i - 17] && s[i] == s[17..19][i - 17]; }
    }
  }

  /** A compact timestamp that reads is exactly the written form of what it reads as. */
  lemma FormatParseCompact(s: string)
    requires ParseCompact(s).Some?
    ensures FormatCompact(ParseCompact(s).value) == s
  {
    var dt := ParseCompact(s).value;
    Pad4Number(s[0..4]);
    Pad2Number(s[4..6]);
    Pad2Number(s[6..8]);
    Pad2Number(s[8..10]);
    Pad2Number(s[10..12]);
    Pad2Number(s[12..14]);
    assert s == s[0..4] + s[4..6] + s[6..8] + s[8..10] + s[10..12] + s[12..14];
  }

  lemma ParseFormatCompact(dt: DateTime)
    requires Valid(dt)
    ensures ParseCompact(FormatCompact(dt)) == Some(dt)
  {
    NumberPad4(dt.year);
    NumberPad2(dt.month);
    NumberPad2(dt.day);
    NumberPad2(dt.hour);
    NumberPad2(dt.minute);
    NumberPad2(dt.second);
  }

  // ---------------------------------------------------------------------
  // normalize_date

  type Parser = string -> Option<ValidDateTime>

  /** The two formats read by `strptime`'s name tables: RSS dates and ISO 8601 with a `Z`. */
  datatype Parsers = Parsers(rss: Parser, isoZ: Parser)

  /** The formats in the order they are tried. */
  function Formats(p: Parsers): seq<Parser> {
    [p.rss, ParseCompact, p.isoZ, ParseSql]
  }

  /** Format `f` reads `s` and the result can be moved to the zone. */
  predicate Accepts(f: Parser, s: string, offset: int)
    requires -MinutesPerDay < offset < MinutesPerDay
  {
    f(s).Some? && Shift(f(s).value, offset).Some?
  }

  /** The loop over the formats: the first one that reads `s` and shifts without error wins. */
  function TryFormats(fmts: seq<Parser>, s: string, offset: int): (r: Option<DateTime>)
    requires -MinutesPerDay < offset < MinutesPerDay
    ensures r.Some? <==> exists k :: 0 <= k < |fmts| && Accepts(fmts[k], s, offset)
    ensures r.Some? ==> exists k :: (&& 0 <= k < |fmts| && Accepts(fmts[k], s, offset)
                                     && Shift(fmts[k](s).value, offset) == r
                                     && forall j :: 0 <= j < k ==> !Accepts(fmts[j], s, offset))
    decreases |fmts|
  {
    if |fmts| == 0 then None
    else
      var rest := TryFormats(fmts[1..], s, offset);
      assert forall k :: 1 <= k < |fmts| ==> fmts[k] == fmts[1..][k - 1];
      if Accepts(fmts[0], s, offset) then Shift(fmts[0](s).value, offset)
      else rest
  }

  /**
   `normalize_date`: nothing for an empty string, otherwise the first format
   that reads it, moved from UTC to the zone.
   */
  function NormalizeDate(p: Parsers, offset: int, s: string): (r: Option<DateTime>)
    requires -MinutesPerDay < offset < MinutesPerDay
    ensures |s| == 0 ==> r.None?
    ensures r.Some? ==> Valid(r.value)
    ensures |s| > 0 ==> r == TryFormats(Formats(p), s, offset)
  {
    if |s| == 0 then None else TryFormats(Formats(p), s, offset)
  }

  /** A GDELT timestamp at UTC+03:00. */
  lemma CompactExample(p: Parsers)
    requires p.rss("20230102100000").None?
    ensures NormalizeDate(p, 180, "20230102100000") == Some(DateTime(2023, 1, 2, 13, 0, 0))
  {
    var dt := DateTime(2023, 1, 2, 10, 0, 0);
    assert FormatCompact(dt) == "20230102100000";
    ParseFormatCompact(dt);
    assert Accepts(Formats(p)[1], "20230102100000", 180);
  }

  /** "Mon, 02 Jan 2023 10:00:00 GMT" at UTC+03:00 is 13:00 the same day. */
  lemma RssExample(p: Parsers)
    requires p.rss("Mon, 02 Jan 2023 10:00:00 GMT") == Some(DateTime(2023, 1, 2, 10, 0, 0))
    ensures NormalizeDate(p, 180, "Mon, 02 Jan 2023 10:00:00 GMT") == Some(DateTime(2023, 1, 2, 13, 0, 0))
  {
    assert Accepts(Formats(p)[0], "Mon, 02 Jan 2023 10:00:00 GMT", 180);
  }
}
