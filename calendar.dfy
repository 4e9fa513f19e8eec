/**
 * Proleptic Gregorian calendar arithmetic and a restricted model of
 * Python's `datetime.fromisoformat`, accepting exactly
 *
 *   YYYY-MM-DD[?hh:mm[:ss[.fff|.ffffff]][Z|+hh:mm|-hh:mm]]
 *
 * where `?` is any one character (the separator is not checked),
 * together with `date.toordinal`, `date.isoformat` and the conversion of an
 * aware time to UTC that `astimezone(timezone.utc)` performs.
 */
module Calendar {
  import opened Wrappers
  import opened Text

  const MinutesPerDay := 1440

  datatype Date = Date(year: int, month: int, day: int)

  /** A parsed time zone: none (a naive time) or a fixed offset east of UTC, in minutes. */
  datatype TimeZone = Naive | Offset(minutes: int)

  datatype DateTime = DateTime(date: Date, hour: int, minute: int, second: int, micro: int, tz: TimeZone)

  predicate IsLeap(y: int) {
    y % 4 == 0 && (y % 100 != 0 || y % 400 == 0)
  }

  function DaysInMonth(y: int, m: int): (n: int)
    requires 1 <= m <= 12
    ensures 28 <= n <= 31
    ensures m == 2 ==> (n == 29 <==> IsLeap(y))
  {
    if m == 2 then (if IsLeap(y) then 29 else 28)
    else if m == 4 || m == 6 || m == 9 || m == 11 then 30
    else 31
  }

  /** A real day of the proleptic Gregorian calendar (years may lie outside 1..9999). */
  predicate ValidDate(d: Date) {
    1 <= d.month <= 12 && 1 <= d.day <= DaysInMonth(d.year, d.month)
  }

  /** Inside the range Python's `date` type admits. */
  predicate InPythonRange(d: Date) {
    ValidDate(d) && 1 <= d.year <= 9999
  }

  function NextDay(d: Date): (r: Date)
    requires ValidDate(d)
    ensures ValidDate(r)
  {
    if d.day < DaysInMonth(d.year, d.month) then Date(d.year, d.month, d.day + 1)
    else if d.month < 12 then Date(d.year, d.month + 1, 1)
    else Date(d.year + 1, 1, 1)
  }

  function PrevDay(d: Date): (r: Date)
    requires ValidDate(d)
    ensures ValidDate(r)
  {
    if d.day > 1 then Date(d.year, d.month, d.day - 1)
    else if d.month > 1 then Date(d.year, d.month - 1, DaysInMonth(d.year, d.month - 1))
    else Date(d.year - 1, 12, 31)
  }

  lemma NextPrevInverse(d: Date)
    requires ValidDate(d)
    ensures PrevDay(NextDay(d)) == d
    ensures NextDay(PrevDay(d)) == d
  {
  }

  /** Days in the years before `y`, counted from year 1 (`_days_before_year`). */
  function DaysBeforeYear(y: int): int {
    var p := y - 1;
    p * 365 + p / 4 - p / 100 + p / 400
  }

  /** Days in the months of year `y` before month `m` (`_days_before_month`). */
  function DaysBeforeMonth(y: int, m: int): (n: int)
    requires 1 <= m <= 13
    ensures m == 1 ==> n == 0
    decreases m
  {
    if m == 1 then 0 else DaysBeforeMonth(y, m - 1) + DaysInMonth(y, m - 1)
  }

  /** `date.toordinal()`: 0001-01-01 is day 1. */
  function Ordinal(d: Date): int
    requires ValidDate(d)
  {
    DaysBeforeYear(d.year) + DaysBeforeMonth(d.year, d.month) + d.day
  }

  lemma YearLength(y: int)
    ensures DaysBeforeMonth(y, 13) == if IsLeap(y) then 366 else 365
  {
  }

  /** Stepping `y - 1` to `y` adds one to `y / k` exactly when `k` divides `y`. */
  lemma DivStep(y: int, k: int)
    requires k == 4 || k == 100 || k == 400
    ensures y / k == (y - 1) / k + (if y % k == 0 then 1 else 0)
  {
    if k == 4 {
    } else if k == 100 {
    } else {
    }
  }

  /** A year divisible by 400 is divisible by 100, and one divisible by 100 is divisible by 4. */
  lemma DividesChain(y: int)
    ensures y % 400 == 0 ==> y % 100 == 0
    ensures y % 100 == 0 ==> y % 4 == 0
  {
    var q400, q100 := y / 400, y / 100;
    if y % 400 == 0 {
      assert y == 400 * q400;
      assert y == 100 * (4 * q400) + 0;
    }
    if y % 100 == 0 {
      assert y == 100 * q100;
      assert y == 4 * (25 * q100) + 0;
    }
  }

  lemma {:induction false} DaysBeforeYearStep(y: int)
    ensures DaysBeforeYear(y + 1) == DaysBeforeYear(y) + (if IsLeap(y) then 366 else 365)
  {
    DivStep(y, 4);
    DivStep(y, 100);
    DivStep(y, 400);
    DividesChain(y);
  }

  /** The calendar has no gaps: the next day is the next ordinal. */
  lemma NextDayOrdinal(d: Date)
    requires ValidDate(d)
    ensures Ordinal(NextDay(d)) == Ordinal(d) + 1
  {
    if d.day == DaysInMonth(d.year, d.month) && d.month == 12 {
      DaysBeforeYearStep(d.year);
      YearLength(d.year);
    }
  }

  lemma PrevDayOrdinal(d: Date)
    requires ValidDate(d)
    ensures Ordinal(PrevDay(d)) == Ordinal(d) - 1
  {
    NextPrevInverse(d);
    NextDayOrdinal(PrevDay(d));
  }

  /** Moves a date by one day at most, the largest shift a UTC conversion needs. */
  function ShiftDays(d: Date, k: int): (r: Date)
    requires ValidDate(d) && -1 <= k <= 1
    ensures ValidDate(r) && Ordinal(r) == Ordinal(d) + k
  {
    if k == 0 then d
    else if k == 1 then (NextDayOrdinal(d); NextDay(d))
    else (PrevDayOrdinal(d); PrevDay(d))
  }

  predicate ValidDateTime(dt: DateTime) {
    && ValidDate(dt.date)
    && 0 <= dt.hour < 24 && 0 <= dt.minute < 60 && 0 <= dt.second < 60
    && 0 <= dt.micro < 1000000
    && (dt.tz.Offset? ==> -MinutesPerDay < dt.tz.minutes < MinutesPerDay)
  }

  /**
   * The calendar date of `dt` in UTC: a naive time is read as UTC, an aware
   * time is moved by its offset. The result is the day whose minutes contain
   * the UTC instant.
   */
  function UtcDate(dt: DateTime): (r: Date)
    requires ValidDateTime(dt)
    ensures ValidDate(r)
    ensures dt.tz.Naive? ==> r == dt.date
    ensures var offset := if dt.tz.Offset? then dt.tz.minutes else 0;
            var instant := Ordinal(dt.date) * MinutesPerDay + dt.hour * 60 + dt.minute - offset;
            Ordinal(r) * MinutesPerDay <= instant < Ordinal(r) * MinutesPerDay + MinutesPerDay
  {
    match dt.tz
    case Naive => dt.date
    case Offset(o) =>
      var local := dt.hour * 60 + dt.minute - o;
      var shift := if local < 0 then -1 else if local < MinutesPerDay then 0 else 1;
      ShiftDays(dt.date, shift)
  }

  // ---------------------------------------------------------------------
  // Formatting: `date.isoformat()`
  // ---------------------------------------------------------------------

  function Pad2(n: nat): (r: string)
    requires n < 100
    ensures |r| == 2 && AllDigits(r) && ParseDigits(r) == n
  {
    var r := [DigitChar(n / 10), DigitChar(n % 10)];
    ParseDigitsSnoc([], DigitChar(n / 10));
    ParseDigitsSnoc([DigitChar(n / 10)], DigitChar(n % 10));
    r
  }

  function Pad4(n: nat): (r: string)
    requires n < 10000
    ensures |r| == 4 && AllDigits(r) && ParseDigits(r) == n
  {
    var hi := Pad2(n / 100);
    var lo := Pad2(n % 100);
    ParseDigitsSnoc(hi, lo[0]);
    ParseDigitsSnoc(hi + [lo[0]], lo[1]);
    assert ParseDigits(lo) == DigitValue(lo[0]) * 10 + DigitValue(lo[1]) by {
      ParseDigitsSnoc([], lo[0]);
      ParseDigitsSnoc([lo[0]], lo[1]);
      assert lo == [lo[0]] + [lo[1]];
    }
    assert hi + lo == hi + [lo[0]] + [lo[1]];
    hi + lo
  }

  /** Text of the form `dddd-dd-dd`. */
  predicate IsIsoDateText(s: string) {
    |s| == 10 && s[4] == '-' && s[7] == '-'
    && AllDigits(s[0..4]) && AllDigits(s[5..7]) && AllDigits(s[8..10])
  }

  /** Every character of an ISO date text is a digit or a dash. */
  lemma IsoDateTextChars(s: string)
    requires IsIsoDateText(s)
    ensures forall i | 0 <= i < 10 :: s[i] == '-' || IsDigit(s[i])
  {
    forall i | 0 <= i < 10 ensures s[i] == '-' || IsDigit(s[i]) {
      if i < 4 { assert s[i] == s[0..4][i]; }
      else if 5 <= i < 7 { assert s[i] == s[5..7][i - 5]; }
      else if 8 <= i { assert s[i] == s[8..10][i - 8]; }
    }
  }

  /** `date.isoformat()`: `YYYY-MM-DD` with zero padding. */
  function FormatDate(d: Date): (r: string)
    requires InPythonRange(d)
    ensures IsIsoDateText(r)
  {
    Pad4(d.year) + "-" + Pad2(d.month) + "-" + Pad2(d.day)
  }

  // ---------------------------------------------------------------------
  // Parsing: the restricted `datetime.fromisoformat`
  // ---------------------------------------------------------------------

  /** The digits `s[i..i+n]` read as a number, if they are all digits. */
  function NumberAt(s: string, i: nat, n: nat): (r: Option<nat>)
    ensures r.Some? <==> i + n <= |s| && AllDigits(s[i..i + n])
    ensures r.Some? ==> r.value == ParseDigits(s[i..i + n])
  {
    if i + n <= |s| && AllDigits(s[i..i + n]) then Some(ParseDigits(s[i..i + n])) else None
  }

  /** `YYYY-MM-DD`, exactly ten characters, naming a day Python's `date` admits. */
  function ParseDate(s: string): (r: Option<Date>)
    ensures r.Some? ==> InPythonRange(r.value) && IsIsoDateText(s)
  {
    var y := NumberAt(s, 0, 4);
    var m := NumberAt(s, 5, 2);
    var d := NumberAt(s, 8, 2);
    if |s| != 10 || s[4] != '-' || s[7] != '-' || y.None? || m.None? || d.None? then None
    else if 1 <= y.value && 1 <= m.value <= 12 && 1 <= d.value <= DaysInMonth(y.value, m.value) then
      ParseDigitsBound(s[0..4]);
      Some(Date(y.value, m.value, d.value))
    else None
  }

  /** `Z`, `+hh:mm` or `-hh:mm`, as minutes east of UTC. */
  function ParseOffset(s: string): (r: Option<int>)
    ensures r.Some? ==> -MinutesPerDay < r.value < MinutesPerDay
  {
    var h := NumberAt(s, 1, 2);
    var m := NumberAt(s, 4, 2);
    if s == "Z" then Some(0)
    else if |s| != 6 || (s[0] != '+' && s[0] != '-') || s[3] != ':' || h.None? || m.None? then None
    else if h.value < 24 && m.value < 60 then
      Some(if s[0] == '-' then -(h.value * 60 + m.value) else h.value * 60 + m.value)
    else None
  }

  /** An optional zone: nothing (naive) or an offset. */
  function ParseZone(s: string): (r: Option<TimeZone>)
    ensures r.Some? && r.value.Offset? ==> -MinutesPerDay < r.value.minutes < MinutesPerDay
  {
    if s == [] then Some(Naive)
    else match ParseOffset(s)
      case None => None
      case Some(o) => Some(Offset(o))
  }

  /** What may follow `hh:mm:ss`: an optional 3- or 6-digit fraction, then an optional zone. */
  function ParseFractionAndZone(s: string): (r: Option<(int, TimeZone)>)
    ensures r.Some? ==> 0 <= r.value.0 < 1000000
    ensures r.Some? && r.value.1.Offset? ==> -MinutesPerDay < r.value.1.minutes < MinutesPerDay
  {
    if s != [] && s[0] == '.' then
      if |s| >= 7 && AllDigits(s[1..7]) && (|s| == 7 || !IsDigit(s[7])) then
        match ParseZone(s[7..])
        case None => None
        case Some(tz) => (ParseDigitsBound(s[1..7]); assert Pow10(6) == 1000000; Some((ParseDigits(s[1..7]), tz)))
      else if |s| >= 4 && AllDigits(s[1..4]) && (|s| == 4 || !IsDigit(s[4])) then
        match ParseZone(s[4..])
        case None => None
        case Some(tz) => (ParseDigitsBound(s[1..4]); assert Pow10(3) == 1000; Some((ParseDigits(s[1..4]) * 1000, tz)))
      else None
    else
      match ParseZone(s)
      case None => None
      case Some(tz) => Some((0, tz))
  }

  /** `hh:mm[:ss[.fff|.ffffff]][zone]`. */
  function ParseTime(s: string): (r: Option<(int, int, int, int, TimeZone)>)
    ensures r.Some? ==> 0 <= r.value.0 < 24 && 0 <= r.value.1 < 60 && 0 <= r.value.2 < 60
    ensures r.Some? ==> 0 <= r.value.3 < 1000000
    ensures r.Some? && r.value.4.Offset? ==> -MinutesPerDay < r.value.4.minutes < MinutesPerDay
  {
    var h := NumberAt(s, 0, 2);
    var m := NumberAt(s, 3, 2);
    if |s| < 5 || s[2] != ':' || h.None? || m.None? || h.value >= 24 || m.value >= 60 then None
    else
      var rest := s[5..];
      if rest != [] && rest[0] == ':' then
        var sec := NumberAt(rest, 1, 2);
        if sec.None? || sec.value >= 60 then None
        else
          match ParseFractionAndZone(rest[3..])
          case None => None
          case Some((us, tz)) => Some((h.value, m.value, sec.value, us, tz))
      else
        match ParseZone(rest)
        case None => None
        case Some(tz) => Some((h.value, m.value, 0, 0, tz))
  }

  /**
   * The restricted `datetime.fromisoformat`: a date, then optionally any one
   * separator character (not only `T`) and a time.
   */
  function ParseIsoDateTime(s: string): (r: Option<DateTime>)
    ensures r.Some? ==> ValidDateTime(r.value) && InPythonRange(r.value.date)
  {
    if |s| < 10 then None
    else
      match ParseDate(s[..10])
      case None => None
      case Some(d) =>
        if |s| == 10 then Some(DateTime(d, 0, 0, 0, 0, Naive))
        else
          match ParseTime(s[11..])
          case None => None
          case Some((h, m, sec, us, tz)) => Some(DateTime(d, h, m, sec, us, tz))
  }

  /** Formatting a date and parsing it back gives that date at midnight, naive. */
  lemma ParseFormatDate(d: Date)
    requires InPythonRange(d)
    ensures ParseDate(FormatDate(d)) == Some(d)
    ensures ParseIsoDateTime(FormatDate(d)) == Some(DateTime(d, 0, 0, 0, 0, Naive))
  {
    var s := FormatDate(d);
    assert s[0..4] == Pad4(d.year);
    assert s[5..7] == Pad2(d.month);
    assert s[8..10] == Pad2(d.day);
    assert s[..10] == s;
  }

  /**
   * The separator is not checked: a date followed by `+00:00` reads the
   * `+` as the separator and `00:00` as a naive midnight.
   */
  lemma ParseDateThenOffset(d: Date)
    requires InPythonRange(d)
    ensures ParseIsoDateTime(FormatDate(d) + "+00:00") == Some(DateTime(d, 0, 0, 0, 0, Naive))
  {
    var s := FormatDate(d) + "+00:00";
    ParseFormatDate(d);
    assert s[..10] == FormatDate(d);
    assert s[11..] == "00:00";
    MidnightParses();
  }

  /** `00:00` with no zone is a naive midnight. */
  lemma MidnightParses()
    ensures ParseTime("00:00") == Some((0, 0, 0, 0, Naive))
  {
    var t := "00:00";
    assert t[0..2] == "00" && t[3..5] == "00" && t[5..] == [];
    assert ParseDigits("00") == 0 by {
      ParseDigitsSnoc([], '0');
      ParseDigitsSnoc(['0'], '0');
      assert "00" == ['0'] + ['0'];
    }
  }
}
