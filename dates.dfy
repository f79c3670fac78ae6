/** Calendar dates as `Date` objects expose them. The model takes the local time
    zone to be UTC, so local and UTC calendar fields coincide. */
module Dates {
  import opened JsValue

  /** A calendar day: `getFullYear()`, `getMonth() + 1`, `getDate()`. */
  datatype Date = Date(year: int, month: int, day: int)

  const MsPerDay := 86_400_000

  predicate LeapYear(year: int)
  {
    (year % 4 == 0 && year % 100 != 0) || year % 400 == 0
  }

  function DaysInMonth(year: int, month: int): (n: int)
    ensures 28 <= n <= 31
  {
    if month == 2 then (if LeapYear(year) then 29 else 28)
    else if month == 4 || month == 6 || month == 9 || month == 11 then 30
    else 31
  }

  predicate ValidDate(d: Date)
  {
    1 <= d.month <= 12 && 1 <= d.day <= DaysInMonth(d.year, d.month)
  }

  /** `a <= b` in calendar order. */
  predicate OnOrBefore(a: Date, b: Date)
  {
    a.year < b.year
    || (a.year == b.year && (a.month < b.month || (a.month == b.month && a.day <= b.day)))
  }

  predicate AllDigits(s: string)
  {
    forall i :: 0 <= i < |s| ==> IsDigit(s[i])
  }

  /** Two digits at `s[i..i + 2]` denoting at most `max`. */
  predicate TwoDigitsAtMost(s: string, i: nat, max: nat)
    requires i + 2 <= |s|
  {
    AllDigits(s[i..i + 2]) && DigitsValue(s[i..i + 2]) <= max
  }

  /** The time-of-day part `toISOString` writes (`THH:mm:ssZ`, optionally with
      milliseconds), or nothing. */
  predicate TimeSuffix(t: string)
  {
    t == []
    || ((|t| == 10 || |t| == 14)
        && t[0] == 'T' && t[3] == ':' && t[6] == ':' && t[|t| - 1] == 'Z'
        && TwoDigitsAtMost(t, 1, 23) && TwoDigitsAtMost(t, 4, 59) && TwoDigitsAtMost(t, 7, 59)
        && (|t| == 14 ==> t[9] == '.' && AllDigits(t[10..13])))
  }

  /** `new Date(s)` for the ISO forms `YYYY-MM-DD` and `YYYY-MM-DDTHH:mm:ss[.sss]Z`;
      any other string, or a day the month does not have, is an invalid date. */
  function ParseIsoDate(s: string): (d: Option<Date>)
    ensures d.Some? ==> ValidDate(d.value) && 0 <= d.value.year <= 9999
  {
    if |s| >= 10 && s[4] == '-' && s[7] == '-'
      && AllDigits(s[..4]) && AllDigits(s[5..7]) && AllDigits(s[8..10]) && TimeSuffix(s[10..])
    then
      var year := DigitsValue(s[..4]);
      var month := DigitsValue(s[5..7]);
      var day := DigitsValue(s[8..10]);
      DigitsBelow(s[..4]);
      if 1 <= month <= 12 && 1 <= day <= DaysInMonth(year, month) then Some(Date(year, month, day)) else None
    else None
  }

  /** A string of k digits denotes a number below 10^k. */
  lemma {:induction false} DigitsBelow(s: string)
    requires AllDigits(s)
    ensures DigitsValue(s) < Pow10(|s|)
  {
    if s != [] {
      DigitsBelow(s[..|s| - 1]);
      assert Pow10(|s|) == 10 * Pow10(|s| - 1);
    }
  }

  /** `n` written with at least `width` digits. */
  function Padded(n: nat, width: nat): (r: string)
    ensures AllDigits(r)
  {
    PadZeros(NatToString(n), width)
  }

  /** A number below 10^w written in exactly w digits reads back as itself. */
  lemma PaddedValue(n: nat, w: nat)
    requires 1 <= w && n < Pow10(w)
    ensures |Padded(n, w)| == w && DigitsValue(Padded(n, w)) == n
  {
    NatToStringLengthBound(n, w);
    NatToStringValue(n);
    if |NatToString(n)| < w {
      LeadingZerosValue(w - |NatToString(n)|, NatToString(n));
    }
  }

  /** The `YYYY-MM-DD` form of a date with a four-digit year. */
  function IsoDate(d: Date): (s: string)
    requires ValidDate(d) && 0 <= d.year <= 9999
  {
    Padded(d.year, 4) + "-" + Padded(d.month, 2) + "-" + Padded(d.day, 2)
  }

  /** Parsing what `IsoDate` writes gives the date back. */
  lemma IsoDateRoundTrip(d: Date)
    requires ValidDate(d) && 0 <= d.year <= 9999
    ensures ParseIsoDate(IsoDate(d)) == Some(d)
  {
    assert Pow10(2) == 100 && Pow10(4) == 10000;
    PaddedValue(d.year, 4);
    PaddedValue(d.month, 2);
    PaddedValue(d.day, 2);
    var s := IsoDate(d);
    assert s[..4] == Padded(d.year, 4);
    assert s[5..7] == Padded(d.month, 2);
    assert s[8..10] == Padded(d.day, 2);
    assert s[10..] == [];
  }

  /** The calendar day a count of days since 1970-01-01 falls on (the
      proleptic Gregorian calendar, by H. Hinnant's `civil_from_days`). */
  function CivilFromDays(days: int): Date
  {
    var z := days + 719468;
    var era := z / 146097;
    var doe := z - era * 146097;
    var yoe := (doe - doe / 1460 + doe / 36524 - doe / 146096) / 365;
    var doy := doe - (365 * yoe + yoe / 4 - yoe / 100);
    var mp := (5 * doy + 2) / 153;
    var day := doy - (153 * mp + 2) / 5 + 1;
    var month := if mp < 10 then mp + 3 else mp - 9;
    var year := yoe + era * 400;
    Date(if month <= 2 then year + 1 else year, month, day)
  }

  /** The calendar day of a time value (milliseconds since the epoch). */
  function DateOfTime(t: int): Date
  {
    CivilFromDays(t / MsPerDay)
  }

  /** Day 0 is the epoch, 1970-01-01. */
  lemma EpochDay()
    ensures CivilFromDays(0) == Date(1970, 1, 1)
  {
    assert 719468 / 146097 == 4;
    assert 135080 / 1460 == 92 && 135080 / 36524 == 3 && 135080 / 146096 == 0;
    assert 134991 / 365 == 369 && 369 / 4 == 92 && 369 / 100 == 3;
    assert (5 * 306 + 2) / 153 == 10 && (153 * 10 + 2) / 5 == 306;
  }

  /** The day before the epoch is 1969-12-31. */
  lemma DayBeforeEpoch()
    ensures CivilFromDays(-1) == Date(1969, 12, 31)
  {
    assert 719467 / 146097 == 4;
    assert 135079 / 1460 == 92 && 135079 / 36524 == 3 && 135079 / 146096 == 0;
    assert 134990 / 365 == 369 && 369 / 4 == 92 && 369 / 100 == 3;
    assert (5 * 305 + 2) / 153 == 9 && (153 * 9 + 2) / 5 == 275;
  }

  /** `new Date(v)` read back as a calendar day; `None` is an invalid date. */
  function DateOf(v: Option<Value>): (d: Option<Date>)
    ensures v.Some? && v.value.Str? ==> d == ParseIsoDate(v.value.s)
  {
    match v
    case Some(Str(s)) => ParseIsoDate(s)
    case _ =>
      match TimeValue(v)
      case Some(t) => Some(DateOfTime(t))
      case None => None
  }
}
