/** Python's `datetime` as the loader uses it: dates are proleptic Gregorian ordinals
    (`date.toordinal()`, 0001-01-01 is day 1) and naive datetimes are integer microseconds
    since 0001-01-01 00:00:00. */
module Calendar {
  import opened Common

  type Date = int
  type Instant = int

  /** `date(9999, 12, 31).toordinal()` */
  const MaxOrdinal: int := 3652059

  predicate ValidDate(d: Date) { 1 <= d <= MaxOrdinal }

  const MicrosPerSecond: int := 1000000
  const DayMicros: int := 86400 * MicrosPerSecond

  /** `datetime.combine(d, time.min)` */
  function StartOfDay(d: Date): Instant { (d - 1) * DayMicros }

  /** `datetime.combine(d, time.max)`, the instant 23:59:59.999999 of day `d`. */
  function EndOfDay(d: Date): Instant { d * DayMicros - 1 }

  /** `dt.date()` */
  function DateOf(t: Instant): (d: Date)
    ensures StartOfDay(d) <= t <= EndOfDay(d)
  {
    t / DayMicros + 1
  }

  lemma DateOfStart(d: Date)
    ensures DateOf(StartOfDay(d)) == d && DateOf(EndOfDay(d)) == d
  {
  }

  /** `pd.date_range(today - limit, today)`: every day of the window, ascending; a negative
      limit puts the start after the end, and the range is empty. */
  function Window(today: Date, limit: int): (ds: seq<Date>)
    ensures |ds| == if limit < 0 then 0 else limit + 1
    ensures forall i :: 0 <= i < |ds| ==> ds[i] == today - limit + i
  {
    if limit < 0 then [] else seq(limit + 1, i => today - limit + i)
  }

  // ----- the civil calendar -----

  predicate IsLeap(y: int) { y % 4 == 0 && (y % 100 != 0 || y % 400 == 0) }

  function DaysInYear(y: int): int { if IsLeap(y) then 366 else 365 }

  function DaysInMonth(y: int, m: int): int
    requires 1 <= m <= 12
  {
    if m == 2 then (if IsLeap(y) then 29 else 28)
    else if m == 4 || m == 6 || m == 9 || m == 11 then 30
    else 31
  }

  /** Days in the years before year `y` (Python's `_days_before_year`). */
  function DaysBeforeYear(y: int): int
    requires y >= 1
  {
    var p := y - 1;
    p * 365 + p / 4 - p / 100 + p / 400
  }

  /** Days in the months of year `y` before month `m` (Python's `_days_before_month`). */
  function DaysBeforeMonth(y: int, m: int): int
    requires 1 <= m <= 12
  {
    var table := [0, 31, 59, 90, 120, 151, 181, 212, 243, 273, 304, 334];
    table[m - 1] + (if m > 2 && IsLeap(y) then 1 else 0)
  }

  lemma DaysBeforeNextYear(y: int)
    requires y >= 1
    ensures DaysBeforeYear(y + 1) == DaysBeforeYear(y) + DaysInYear(y)
  {
    MultiplesStep(y);
    DivisorsNest(y);
    var p := y - 1;
    assert y * 365 == p * 365 + 365;
    assert DaysBeforeYear(y + 1) == y * 365 + y / 4 - y / 100 + y / 400;
    assert DaysBeforeYear(y) == p * 365 + p / 4 - p / 100 + p / 400;
  }

  /** A multiple of 400 is one of 100, and a multiple of 100 is one of 4. */
  lemma DivisorsNest(y: int)
    ensures y % 400 == 0 ==> y % 100 == 0
    ensures y % 100 == 0 ==> y % 4 == 0
  {
    if y % 400 == 0 {
      var q, d, r := y / 400, y / 100, y % 100;
      assert y == 400 * q && y == 100 * d + r && 0 <= r < 100;
      assert 100 * (d - 4 * q) == -r;
      assert d - 4 * q == 0;
    }
    if y % 100 == 0 {
      var q, d, r := y / 100, y / 4, y % 4;
      assert y == 100 * q && y == 4 * d + r && 0 <= r < 4;
      assert 4 * (d - 25 * q) == -r;
      assert d - 25 * q == 0;
    }
  }

  /** Counting up to `y` instead of `y - 1` adds one multiple of 4, 100 or 400 exactly when
      `y` is one. */
  lemma MultiplesStep(y: int)
    requires y >= 1
    ensures y / 4 == (y - 1) / 4 + (if y % 4 == 0 then 1 else 0)
    ensures y / 100 == (y - 1) / 100 + (if y % 100 == 0 then 1 else 0)
    ensures y / 400 == (y - 1) / 400 + (if y % 400 == 0 then 1 else 0)
  {
  }

  lemma {:induction false} DaysBeforeYearMonotonic(a: int, b: int)
    requires 1 <= a <= b
    ensures DaysBeforeYear(a) + 365 * (b - a) <= DaysBeforeYear(b)
    decreases b - a
  {
    if a < b {
      DaysBeforeYearMonotonic(a, b - 1);
      DaysBeforeNextYear(b - 1);
    }
  }

  datatype Civil = Civil(year: int, month: int, day: int)

  predicate ValidCivil(c: Civil)
  {
    1 <= c.year <= 9999 && 1 <= c.month <= 12 && 1 <= c.day <= DaysInMonth(c.year, c.month)
  }

  /** `date(y, m, d).toordinal()` */
  function ToOrdinal(c: Civil): Date
    requires ValidCivil(c)
  {
    DaysBeforeYear(c.year) + DaysBeforeMonth(c.year, c.month) + c.day
  }

  /** Finds the year holding the day that lies `r` days after January 1 of year `y`, and
      how many days into that year it lies (`SplitYearFacts`). */
  function SplitYear(r: nat, y: nat): (nat, nat)
    decreases r
  {
    if r < DaysInYear(y) then (y, r)
    else SplitYear(r - DaysInYear(y), y + 1)
  }

  lemma {:induction false} SplitYearFacts(r: nat, y: nat)
    requires y >= 1
    ensures var res := SplitYear(r, y);
      res.0 >= y && res.1 < DaysInYear(res.0) && DaysBeforeYear(res.0) + res.1 == DaysBeforeYear(y) + r
    decreases r
  {
    if r >= DaysInYear(y) {
      DaysBeforeNextYear(y);
      SplitYearFacts(r - DaysInYear(y), y + 1);
    }
  }

  /** Finds the month (from `m` on) holding the day that lies `r` days after the first of
      month `m` of year `y`; gives the month and the day of month (`SplitMonthFacts`). */
  function SplitMonth(r: nat, y: nat, m: nat): (nat, nat)
    requires 1 <= m <= 12
    decreases 12 - m
  {
    if m == 12 || r < DaysInMonth(y, m) then (m, r + 1)
    else SplitMonth(r - DaysInMonth(y, m), y, m + 1)
  }

  lemma {:induction false} SplitMonthFacts(r: nat, y: nat, m: nat)
    requires 1 <= m <= 12 && r < DaysInYear(y) - DaysBeforeMonth(y, m)
    ensures var res := SplitMonth(r, y, m);
      m <= res.0 <= 12 && 1 <= res.1 <= DaysInMonth(y, res.0) &&
      DaysBeforeMonth(y, res.0) + res.1 == DaysBeforeMonth(y, m) + r + 1
    decreases 12 - m
  {
    if m < 12 && r >= DaysInMonth(y, m) {
      SplitMonthFacts(r - DaysInMonth(y, m), y, m + 1);
    }
  }

  /** `date.fromordinal(n)`: the civil date of an ordinal (`FromOrdinalValid`). */
  function FromOrdinal(n: Date): (c: Civil)
    requires ValidDate(n)
    ensures c.year >= 0 && c.month >= 0 && c.day >= 0
  {
    var (y, r) := SplitYear(n - 1, 1);
    var (m, d) := SplitMonth(r, y, 1);
    Civil(y, m, d)
  }

  /** The civil date of a valid ordinal is a valid civil date, which `ToOrdinal` maps back. */
  lemma FromOrdinalValid(n: Date)
    requires ValidDate(n)
    ensures ValidCivil(FromOrdinal(n)) && ToOrdinal(FromOrdinal(n)) == n
  {
    SplitYearFacts(n - 1, 1);
    var (y, r) := SplitYear(n - 1, 1);
    if y > 9999 {
      DaysBeforeYearMonotonic(10000, y);
      assert false;
    }
    SplitMonthFacts(r, y, 1);
  }

  /** Distinct ordinals have distinct civil dates. */
  lemma FromOrdinalInjective(a: Date, b: Date)
    requires ValidDate(a) && ValidDate(b) && FromOrdinal(a) == FromOrdinal(b)
    ensures a == b
  {
    FromOrdinalValid(a);
    FromOrdinalValid(b);
  }

  // ----- text forms -----

  /** `d.strftime('%Y-%m-%d')` */
  function FormatDate(d: Date): (s: string)
    requires ValidDate(d)
    ensures |s| == 10 && s[4] == '-' && s[7] == '-'
  {
    CivilText(FromOrdinal(d))
  }

  function CivilText(c: Civil): string
    requires c.year >= 0 && c.month >= 0 && c.day >= 0
  {
    Padded(c.year, 4) + "-" + Padded(c.month, 2) + "-" + Padded(c.day, 2)
  }

  /** `d.strftime('%Y%m%d')` */
  function FormatCompact(d: Date): (s: string)
    requires ValidDate(d)
    ensures |s| == 8 && forall i :: 0 <= i < 8 ==> IsDigit(s[i])
  {
    var c := FromOrdinal(d);
    var y, m, dd := Padded(c.year, 4), Padded(c.month, 2), Padded(c.day, 2);
    var s := y + m + dd;
    assert forall i :: 0 <= i < 8 ==> IsDigit(s[i]) by {
      forall i | 0 <= i < 8
        ensures IsDigit(s[i])
      {
        if i < 4 {
          assert s[i] == y[i];
        } else if i < 6 {
          assert s[i] == m[i - 4];
        } else {
          assert s[i] == dd[i - 6];
        }
      }
    }
    s
  }

  predicate AllDigits(s: string) { forall i :: 0 <= i < |s| ==> IsDigit(s[i]) }

  /** `%m` of `strptime`, the pattern `1[0-2]|0[1-9]|[1-9]`: one or two digits naming a
      month. */
  function MonthField(t: string): (r: Option<int>)
    ensures r.Some? ==> 1 <= r.value <= 12
  {
    if 1 <= |t| <= 2 && AllDigits(t) && 1 <= DigitsValue(t) <= 12 then Some(DigitsValue(t)) else None
  }

  /** `%d` of `strptime`, the pattern `3[01]|[12]\d|0[1-9]|[1-9]| [1-9]`: one or two
      digits naming a day of a month, or a blank and one such digit. */
  function DayField(t: string): (r: Option<int>)
    ensures r.Some? ==> 1 <= r.value <= 31
  {
    if |t| == 2 && t[0] == ' ' && IsDigit(t[1]) && DigitValue(t[1]) >= 1 then Some(DigitValue(t[1]))
    else if 1 <= |t| <= 2 && AllDigits(t) && 1 <= DigitsValue(t) <= 31 then Some(DigitsValue(t))
    else None
  }

  /** The three numbers of a text that `%Y-%m-%d` matches to its end: four digits, a dash, a
      month field up to the next dash, and a day field that is the rest. */
  function ParseCivil(s: string): Option<Civil>
  {
    if |s| < 5 || !AllDigits(s[..4]) || s[4] != '-' then None
    else
      var rest := s[5..];
      var k := if |rest| >= 2 && rest[1] == '-' then 1 else 2;
      if |rest| <= k || rest[k] != '-' then None
      else
        match (MonthField(rest[..k]), DayField(rest[k + 1..]))
        case (Some(m), Some(d)) => Some(Civil(DigitsValue(s[..4]), m, d))
        case _ => None
  }

  /** `datetime.strptime(s, '%Y-%m-%d').date()`; `None` stands for the `ValueError` of a
      text the pattern does not match to its end or of an impossible date. */
  function ParseDate(s: string): Option<Date>
  {
    match ParseCivil(s)
    case None => None
    case Some(c) =>
      if !ValidCivil(c) then None
      else Some(ToOrdinal(c))
  }

  /** A date that parses is one Python can hold. */
  lemma ParseDateValid(s: string)
    ensures ParseDate(s).Some? ==> ValidDate(ParseDate(s).value)
  {
    if ParseDate(s).Some? {
      DaysBeforeYearMonotonic(ParseCivil(s).value.year, 10000);
    }
  }

  lemma ParseCivilText(c: Civil)
    requires 0 <= c.year < 10000 && 1 <= c.month <= 12 && 1 <= c.day <= 31
    ensures ParseCivil(CivilText(c)) == Some(c)
  {
    var s := CivilText(c);
    var rest := s[5..];
    assert s[..4] == Padded(c.year, 4);
    assert rest[..2] == Padded(c.month, 2);
    assert rest[3..] == Padded(c.day, 2);
    PaddedValue(c.year, 4);
    PaddedValue(c.month, 2);
    PaddedValue(c.day, 2);
  }

  lemma DigitCharValue(c: char)
    requires IsDigit(c)
    ensures DigitChar(DigitValue(c)) == c
  {
  }

  /** A field of one digit is the digit of its value. */
  lemma OneDigit(t: string)
    requires |t| == 1 && IsDigit(t[0])
    ensures DigitsValue(t) == DigitValue(t[0]) && t == [DigitChar(DigitsValue(t))]
  {
    assert t[..0] == [];
    DigitCharValue(t[0]);
  }

  /** The value of two digits is the tens digit times ten plus the units digit. */
  lemma TwoDigitsValue(t: string)
    requires |t| == 2 && AllDigits(t)
    ensures DigitsValue(t) == DigitValue(t[0]) * 10 + DigitValue(t[1])
  {
    OneDigit(t[..1]);
  }

  /** Two fields of two digits with the same value are the same text. */
  lemma TwoDigitsInjective(t: string, u: string)
    requires |t| == 2 && AllDigits(t) && |u| == 2 && AllDigits(u)
    requires DigitsValue(t) == DigitsValue(u)
    ensures t == u
  {
    TwoDigitsValue(t);
    TwoDigitsValue(u);
    assert t[0] == u[0] && t[1] == u[1];
  }

  /** A field of two digits is the zero-padded text of its value. */
  lemma TwoDigits(t: string)
    requires |t| == 2 && AllDigits(t)
    ensures t == Padded(DigitsValue(t), 2)
  {
    var v := DigitsValue(t);
    TwoDigitsValue(t);
    PaddedValue(v, 2);
    TwoDigitsInjective(t, Padded(v, 2));
  }

  /** The digit of a number below 10 reads back as that number. */
  lemma OneDigitOf(n: nat)
    requires 1 <= n < 10
    ensures DigitsValue([DigitChar(n)]) == n
  {
    OneDigit([DigitChar(n)]);
    DigitRoundTrip(n);
  }

  /** The texts `%m` takes for month `m`: its two zero-padded digits, or one digit below
      10, and no others. */
  lemma MonthFieldForms(t: string, m: int)
    ensures MonthField(t) == Some(m) <==>
              1 <= m <= 12 && (t == Padded(m, 2) || (m < 10 && t == [DigitChar(m)]))
  {
    if 1 <= m <= 12 {
      PaddedValue(m, 2);
      if m < 10 {
        OneDigitOf(m);
      }
    }
    if MonthField(t) == Some(m) {
      if |t| == 2 {
        TwoDigits(t);
      } else {
        OneDigit(t);
      }
    }
  }

  /** The texts `%d` takes for day `d`: its two zero-padded digits, or, below 10, one digit
      alone or after a blank, and no others. */
  lemma DayFieldForms(t: string, d: int)
    ensures DayField(t) == Some(d) <==>
              1 <= d <= 31 && (t == Padded(d, 2) || (d < 10 && (t == [DigitChar(d)] || t == [' ', DigitChar(d)])))
  {
    if 1 <= d <= 31 {
      PaddedValue(d, 2);
      if d < 10 {
        OneDigitOf(d);
        DigitRoundTrip(d);
      }
    }
    if DayField(t) == Some(d) {
      if t[0] == ' ' {
        DigitCharValue(t[1]);
      } else if |t| == 2 {
        TwoDigits(t);
      } else {
        OneDigit(t);
      }
    }
  }

  /** Any four-digit year, dash, text `%m` takes, dash and text `%d` takes parses as those
      three numbers. */
  lemma ParseCivilFields(mt: string, dt: string, c: Civil)
    requires 0 <= c.year < 10000 && MonthField(mt) == Some(c.month) && DayField(dt) == Some(c.day)
    ensures ParseCivil(Padded(c.year, 4) + "-" + mt + "-" + dt) == Some(c)
  {
    var s := Padded(c.year, 4) + "-" + mt + "-" + dt;
    var rest := s[5..];
    assert s[..4] == Padded(c.year, 4);
    PaddedValue(c.year, 4);
    assert rest == mt + "-" + dt;
    assert rest[..|mt|] == mt && rest[|mt| + 1..] == dt;
  }

  /** `strptime` reads a valid date from every spelling its fields allow: `2020-3-7`,
      `2020-03- 7` and `2020-03-07` are the same date. */
  lemma ParseDateFields(mt: string, dt: string, c: Civil)
    requires ValidCivil(c) && MonthField(mt) == Some(c.month) && DayField(dt) == Some(c.day)
    ensures ParseDate(Padded(c.year, 4) + "-" + mt + "-" + dt) == Some(ToOrdinal(c))
  {
    ParseCivilFields(mt, dt, c);
  }

  /** Writing a date as YYYY-MM-DD and reading it back gives the same date. */
  lemma ParseFormatDate(d: Date)
    requires ValidDate(d)
    ensures ParseDate(FormatDate(d)) == Some(d)
  {
    FromOrdinalValid(d);
    ParseCivilText(FromOrdinal(d));
  }

  /** Distinct dates have distinct YYYY-MM-DD strings. */
  lemma FormatDateInjective(a: Date, b: Date)
    requires ValidDate(a) && ValidDate(b) && FormatDate(a) == FormatDate(b)
    ensures a == b
  {
    ParseFormatDate(a);
    ParseFormatDate(b);
  }

  /** The compact form holds the same digits as the dashed one. */
  lemma CompactDigits(d: Date)
    requires ValidDate(d)
    ensures var s := FormatCompact(d);
      FormatDate(d) == s[..4] + "-" + s[4..6] + "-" + s[6..]
  {
    var c := FromOrdinal(d);
    var y, m, dd := Padded(c.year, 4), Padded(c.month, 2), Padded(c.day, 2);
    var s := y + m + dd;
    assert s[..4] == y && s[4..6] == m && s[6..] == dd;
  }

  /** Distinct dates have distinct YYYYMMDD strings. */
  lemma FormatCompactInjective(a: Date, b: Date)
    requires ValidDate(a) && ValidDate(b) && FormatCompact(a) == FormatCompact(b)
    ensures a == b
  {
    CompactDigits(a);
    CompactDigits(b);
    FormatDateInjective(a, b);
  }

  // ----- unix seconds -----

  /** `datetime(1970, 1, 1)` */
  const UnixEpoch: Instant := StartOfDay(719163)

  /** `calendar.timegm(dt.timetuple())`: whole seconds since the epoch, the microseconds
      dropped. */
  function ToUnixSeconds(t: Instant): (u: int)
    ensures UnixEpoch + u * MicrosPerSecond <= t < UnixEpoch + (u + 1) * MicrosPerSecond
  {
    (t - UnixEpoch) / MicrosPerSecond
  }

  /** `datetime.utcfromtimestamp(u)` for a whole number of seconds. */
  function FromUnixSeconds(u: int): Instant
  {
    UnixEpoch + u * MicrosPerSecond
  }

  /** The whole-second part of an instant. */
  function TruncateToSecond(t: Instant): Instant
  {
    t - t % MicrosPerSecond
  }

  /** Seconds survive the trip through unix time; microseconds are truncated. */
  lemma UnixRoundTrip(t: Instant)
    ensures FromUnixSeconds(ToUnixSeconds(t)) == TruncateToSecond(t)
    ensures TruncateToSecond(t) <= t < TruncateToSecond(t) + MicrosPerSecond
    ensures ToUnixSeconds(FromUnixSeconds(ToUnixSeconds(t))) == ToUnixSeconds(t)
  {
    assert UnixEpoch % MicrosPerSecond == 0;
  }

  /** A POSIX timestamp as `datetime.timestamp()` gives it: seconds, with a fraction. */
  type Timestamp = real

  /** `dt.timestamp()` of a naive datetime, read as UTC. */
  function ToTimestamp(t: Instant): Timestamp
  {
    (t - UnixEpoch) as real / 1000000.0
  }

  /** Python's `round(x)` to an integer: the nearest one, and the even one of two equally
      near. */
  function RoundHalfEven(x: real): (r: int)
    ensures r as real - x <= 0.5 && x - r as real <= 0.5
    ensures r as real - x == 0.5 || x - r as real == 0.5 ==> r % 2 == 0
  {
    var f := x.Floor;
    var frac := x - f as real;
    if frac < 0.5 then f
    else if frac > 0.5 then f + 1
    else if f % 2 == 0 then f else f + 1
  }

  /** `datetime.fromtimestamp(ts)`, read as UTC: the microseconds are rounded half to
      even. */
  function FromTimestamp(ts: Timestamp): (t: Instant)
    ensures (t - UnixEpoch) as real - ts * 1000000.0 <= 0.5
    ensures ts * 1000000.0 - (t - UnixEpoch) as real <= 0.5
  {
    UnixEpoch + RoundHalfEven(ts * 1000000.0)
  }

  /** A whole number of seconds read by `fromtimestamp` is that many seconds after the
      epoch, with nothing to round. */
  lemma WholeSecondsTimestamp(u: int)
    ensures FromTimestamp(u as real) == FromUnixSeconds(u)
  {
    var x := u as real * 1000000.0;
    assert x == (u * MicrosPerSecond) as real;
    assert x.Floor == u * MicrosPerSecond;
  }

  /** The instants a `datetime` can hold: `datetime.min` to `datetime.max`. */
  predicate InDatetimeRange(t: Instant)
  {
    StartOfDay(1) <= t <= EndOfDay(MaxOrdinal)
  }

  /** `datetime.utcfromtimestamp(ts)`: `None` where Python raises because the year falls
      outside 1 to 9999. */
  function UtcFromTimestamp(ts: Timestamp): (r: Option<Instant>)
    ensures r.Some? <==> InDatetimeRange(FromTimestamp(ts))
    ensures r.Some? ==> ValidDate(DateOf(r.value)) && r.value == FromTimestamp(ts)
  {
    var t := FromTimestamp(ts);
    if InDatetimeRange(t) then Some(t) else None
  }

  lemma TimestampRoundTrip(t: Instant)
    ensures FromTimestamp(ToTimestamp(t)) == t
  {
    var x := (t - UnixEpoch) as real;
    assert x / 1000000.0 * 1000000.0 == x;
  }

  /** A datetime Python can hold reads back from its timestamp. */
  lemma UtcTimestampRoundTrip(t: Instant)
    requires InDatetimeRange(t)
    ensures UtcFromTimestamp(ToTimestamp(t)) == Some(t)
  {
    TimestampRoundTrip(t);
  }

  /** `datetime(3000, 1, 1)`, the sentinel that marks a date as archived. */
  const ArchivedDate: Instant := StartOfDay(ToOrdinal(Civil(3000, 1, 1)))

  lemma ArchivedDateIsFar()
    ensures ArchivedDate == 1095362 * DayMicros
  {
  }
}
