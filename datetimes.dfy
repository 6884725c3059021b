/**
 * Python `datetime` values as used by the newsletter: construction checks, ordering,
 * `isoformat()`, the subset of `fromisoformat()` that reads it back, and
 * `strptime(s, "%Y-%m-%d")`.
 */
module DateTimes {
  import opened Wrappers
  import opened Numerals
  import Text

  /** A naive `datetime.datetime`. */
  datatype DateTime = DateTime(year: int, month: int, day: int,
                               hour: int, minute: int, second: int, microsecond: int)

  predicate IsLeap(y: int) {
    y % 4 == 0 && (y % 100 != 0 || y % 400 == 0)
  }

  function DaysInMonth(y: int, m: int): int
    requires 1 <= m <= 12
  {
    if m == 2 then (if IsLeap(y) then 29 else 28)
    else if m == 4 || m == 6 || m == 9 || m == 11 then 30
    else 31
  }

  /** The range checks of the `datetime` constructor. */
  predicate Valid(d: DateTime) {
    && 1 <= d.year <= 9999
    && 1 <= d.month <= 12
    && 1 <= d.day <= DaysInMonth(d.year, d.month)
    && 0 <= d.hour < 24 && 0 <= d.minute < 60 && 0 <= d.second < 60
    && 0 <= d.microsecond < 1000000
  }

  /** `a < b` on naive datetimes: chronological, i.e. lexicographic on the fields. */
  predicate Before(a: DateTime, b: DateTime) {
    if a.year != b.year then a.year < b.year
    else if a.month != b.month then a.month < b.month
    else if a.day != b.day then a.day < b.day
    else if a.hour != b.hour then a.hour < b.hour
    else if a.minute != b.minute then a.minute < b.minute
    else if a.second != b.second then a.second < b.second
    else a.microsecond < b.microsecond
  }

  /** The calendar date of `d` at 00:00, as `strptime` of the date part produces it. */
  function Midnight(d: DateTime): DateTime {
    DateTime(d.year, d.month, d.day, 0, 0, 0, 0)
  }

  predicate SameDate(a: DateTime, b: DateTime) {
    a.year == b.year && a.month == b.month && a.day == b.day
  }

  predicate DateBefore(a: DateTime, b: DateTime) {
    Before(Midnight(a), Midnight(b))
  }

  /**
   * Midnight of a day is before a time stamp exactly when that day is an earlier
   * calendar day, or the same day with the stamp past 00:00:00.000000.
   */
  lemma MidnightBefore(d: DateTime, w: DateTime)
    requires Valid(w)
    ensures Before(Midnight(d), w) <==>
              DateBefore(d, w) || (SameDate(d, w) && Midnight(w) != w)
  {
  }

  /** The `YYYY-MM-DD` half of `isoformat()`. */
  function IsoDate(d: DateTime): string
    requires Valid(d)
  {
    Pad(d.year, 4) + "-" + Pad(d.month, 2) + "-" + Pad(d.day, 2)
  }

  /** The time half of `isoformat()`: microseconds are written only when non-zero. */
  function IsoTime(d: DateTime): string
    requires Valid(d)
  {
    Clock(d) + (if d.microsecond != 0 then "." + Pad(d.microsecond, 6) else "")
  }

  /** `HH:MM:SS`. */
  function Clock(d: DateTime): string
    requires Valid(d)
  {
    Pad(d.hour, 2) + ":" + Pad(d.minute, 2) + ":" + Pad(d.second, 2)
  }

  /** `datetime.isoformat()`. */
  function IsoFormat(d: DateTime): string
    requires Valid(d)
  {
    IsoDate(d) + "T" + IsoTime(d)
  }

  /** The number written with exactly `n` digits at `s[i..i+n]`, if they are all digits. */
  function FixedField(s: string, i: nat, n: nat): Option<int>
    requires i + n <= |s|
  {
    if AllDigits(s[i..i + n]) then Some(DigitsValue(s[i..i + n])) else None
  }

  function Checked(d: DateTime): Option<DateTime> {
    if Valid(d) then Some(d) else None
  }

  /** The `YYYY-MM-DD` part read by `fromisoformat`, as (year, month, day). */
  function ParseIsoDate(t: string): Option<(int, int, int)>
    requires |t| == 10
  {
    if t[4] != '-' || t[7] != '-' then None
    else
      var y, mo, d := FixedField(t, 0, 4), FixedField(t, 5, 2), FixedField(t, 8, 2);
      if y.None? || mo.None? || d.None? then None
      else Some((y.value, mo.value, d.value))
  }

  /** `HH:MM:SS` as (hour, minute, second). */
  function ParseClock(t: string): Option<(int, int, int)>
    requires |t| == 8
  {
    if t[2] != ':' || t[5] != ':' then None
    else
      var h, mi, se := FixedField(t, 0, 2), FixedField(t, 3, 2), FixedField(t, 6, 2);
      if h.None? || mi.None? || se.None? then None
      else Some((h.value, mi.value, se.value))
  }

  /** The digits after the decimal point: milliseconds (`fff`) or microseconds (`ffffff`). */
  function ParseFraction(f: string): Option<int> {
    if |f| == 3 then
      var ms := FixedField(f, 0, 3);
      if ms.None? then None else Some(ms.value * 1000)
    else if |f| == 6 then FixedField(f, 0, 6)
    else None
  }

  /**
   * The time part read by `fromisoformat`, as (hour, minute, second, microsecond):
   * `HH`, `HH:MM`, `HH:MM:SS`, `HH:MM:SS.fff` or `HH:MM:SS.ffffff`.
   */
  function ParseIsoTime(t: string): Option<(int, int, int, int)> {
    if |t| == 2 then
      var h := FixedField(t, 0, 2);
      if h.None? then None else Some((h.value, 0, 0, 0))
    else if |t| == 5 then
      var h, mi := FixedField(t, 0, 2), FixedField(t, 3, 2);
      if t[2] != ':' || h.None? || mi.None? then None else Some((h.value, mi.value, 0, 0))
    else if |t| < 8 then None
    else match ParseClock(t[..8])
      case None => None
      case Some((h, mi, se)) =>
        if |t| == 8 then Some((h, mi, se, 0))
        else if t[8] != '.' then None
        else match ParseFraction(t[9..])
          case None => None
          case Some(us) => Some((h, mi, se, us))
  }

  /**
   * `datetime.fromisoformat(s)` for the forms it accepts without a UTC offset: a date,
   * optionally followed by any one separator character and a time.
   * None stands for the ValueError raised on any other text.
   */
  function ParseIso(s: string): (r: Option<DateTime>)
    ensures r.Some? ==> Valid(r.value)
  {
    if |s| < 10 then None
    else match ParseIsoDate(s[..10])
      case None => None
      case Some((y, mo, d)) =>
        if |s| == 10 then Checked(DateTime(y, mo, d, 0, 0, 0, 0))
        else match ParseIsoTime(s[11..])
          case None => None
          case Some((h, mi, se, us)) => Checked(DateTime(y, mo, d, h, mi, se, us))
  }

  lemma FixedFieldPad(s: string, i: nat, n: nat, v: nat)
    requires 1 <= n && v < Pow10(n) && i + n <= |s| && s[i..i + n] == Pad(v, n)
    ensures FixedField(s, i, n) == Some(v)
  {
    PadValue(v, n);
  }

  /** The three fields and two separators of `a + [x] + b + [y] + c`, where they sit. */
  lemma Fields3(a: string, x: char, b: string, y: char, c: string)
    ensures var t := a + [x] + b + [y] + c;
      && t[0..|a|] == a && t[|a|] == x
      && t[|a| + 1..|a| + 1 + |b|] == b && t[|a| + 1 + |b|] == y
      && t[|a| + 2 + |b|..] == c
  {
    var t := a + [x] + b + [y] + c;
    assert t[|a| + 2 + |b|..] == c;
  }

  lemma IsoDateRoundTrip(d: DateTime)
    requires Valid(d)
    ensures |IsoDate(d)| == 10
    ensures ParseIsoDate(IsoDate(d)) == Some((d.year, d.month, d.day))
  {
    DateFieldsRoundTrip(d.year, d.month, d.day);
  }

  /** `YYYY-MM-DD` written from three numbers that fit reads back as those numbers. */
  lemma DateFieldsRoundTrip(y: nat, m: nat, dd: nat)
    requires y < 10000 && m < 100 && dd < 100
    ensures var t := Pad(y, 4) + "-" + Pad(m, 2) + "-" + Pad(dd, 2);
      |t| == 10 && ParseIsoDate(t) == Some((y, m, dd))
  {
    assert Pow10(2) == 100 && Pow10(4) == 10000;
    PadValue(y, 4); PadValue(m, 2); PadValue(dd, 2);
    ParseDateFields(Pad(y, 4), Pad(m, 2), Pad(dd, 2));
  }

  /** Digit fields of widths 4, 2 and 2 joined by dashes parse as their values. */
  lemma ParseDateFields(ys: string, ms: string, ds: string)
    requires |ys| == 4 && |ms| == 2 && |ds| == 2
    requires AllDigits(ys) && AllDigits(ms) && AllDigits(ds)
    ensures ParseIsoDate(ys + "-" + ms + "-" + ds) == Some((DigitsValue(ys), DigitsValue(ms), DigitsValue(ds)))
  {
    var t := ys + "-" + ms + "-" + ds;
    assert t == ys + ['-'] + ms + ['-'] + ds;
    Fields3(ys, '-', ms, '-', ds);
    assert t[0..4] == ys && t[5..7] == ms && t[8..10] == ds;
  }

  lemma ClockRoundTrip(d: DateTime)
    requires Valid(d)
    ensures |Clock(d)| == 8 && ParseClock(Clock(d)) == Some((d.hour, d.minute, d.second))
  {
    assert Pow10(2) == 100;
    PadValue(d.hour, 2); PadValue(d.minute, 2); PadValue(d.second, 2);
    ParseClockFields(Pad(d.hour, 2), Pad(d.minute, 2), Pad(d.second, 2));
  }

  /** Three two-digit fields joined by colons parse as their values. */
  lemma ParseClockFields(hs: string, ns: string, ss: string)
    requires |hs| == 2 && |ns| == 2 && |ss| == 2
    requires AllDigits(hs) && AllDigits(ns) && AllDigits(ss)
    ensures ParseClock(hs + ":" + ns + ":" + ss) == Some((DigitsValue(hs), DigitsValue(ns), DigitsValue(ss)))
  {
    var t := hs + ":" + ns + ":" + ss;
    assert t == hs + [':'] + ns + [':'] + ss;
    Fields3(hs, ':', ns, ':', ss);
    assert t[0..2] == hs && t[3..5] == ns && t[6..8] == ss;
  }

  lemma IsoTimeRoundTrip(d: DateTime)
    requires Valid(d)
    ensures ParseIsoTime(IsoTime(d)) == Some((d.hour, d.minute, d.second, d.microsecond))
  {
    ClockRoundTrip(d);
    var t := IsoTime(d);
    assert t[..8] == Clock(d);
    if d.microsecond != 0 {
      var us := Pad(d.microsecond, 6);
      assert Pow10(6) == 1000000;
      PadValue(d.microsecond, 6);
      assert t[8] == '.' && t[9..] == us;
      FixedFieldPad(us, 0, 6, d.microsecond);
    }
  }

  /** `fromisoformat(d.isoformat()) == d`: a saved time stamp reads back unchanged. */
  lemma IsoRoundTrip(d: DateTime)
    requires Valid(d)
    ensures ParseIso(IsoFormat(d)) == Some(d)
  {
    IsoDateRoundTrip(d);
    IsoTimeRoundTrip(d);
    var s := IsoFormat(d);
    assert s[..10] == IsoDate(d);
    assert s[11..] == IsoTime(d);
  }

  /** An ISO string begins and ends with a digit. */
  lemma IsoFormatEnds(d: DateTime)
    requires Valid(d)
    ensures |IsoFormat(d)| > 0 && IsDigit(IsoFormat(d)[0]) && IsDigit(IsoFormat(d)[|IsoFormat(d)| - 1])
  {
    var s := IsoFormat(d);
    assert s[0] == Pad(d.year, 4)[0];
    var t := IsoTime(d);
    assert s[|s| - 1] == t[|t| - 1];
    if d.microsecond != 0 {
      var p := Pad(d.microsecond, 6);
      assert t[|t| - 1] == p[|p| - 1];
    } else {
      var p := Pad(d.second, 2);
      assert t[|t| - 1] == p[|p| - 1];
    }
  }

  /** A `%m` field: one or two digits naming a month. */
  function MonthField(m: string): Option<int> {
    if 1 <= |m| <= 2 && AllDigits(m) && 1 <= DigitsValue(m) <= 12 then Some(DigitsValue(m)) else None
  }

  /** A `%d` field: one or two digits naming a day 1..31, or a blank followed by a digit 1..9. */
  function DayField(d: string): Option<int> {
    if 1 <= |d| <= 2 && AllDigits(d) && 1 <= DigitsValue(d) <= 31 then Some(DigitsValue(d))
    else if |d| == 2 && d[0] == ' ' && IsDigit(d[1]) && d[1] != '0' then Some(DigitValue(d[1]))
    else None
  }

  /**
   * `datetime.strptime(s, "%Y-%m-%d")`: four-digit year, then month and day fields, the
   * whole text consumed; None stands for the ValueError raised otherwise.
   */
  function ParseYmd(s: string): (r: Option<DateTime>)
    ensures r.Some? ==> Valid(r.value) && r.value == Midnight(r.value)
  {
    if |s| < 5 || s[4] != '-' || !AllDigits(s[..4]) then None
    else
      match Text.SplitOnce(s[5..], '-')
      case None => None
      case Some((m, d)) =>
        var y, mo, da := DigitsValue(s[..4]), MonthField(m), DayField(d);
        if mo.None? || da.None? then None
        else Checked(DateTime(y, mo.value, da.value, 0, 0, 0, 0))
  }

  /** The date part of an ISO string is what precedes its `T`. */
  lemma IsoDatePart(d: DateTime)
    requires Valid(d)
    ensures Text.BeforeFirst(IsoFormat(d), 'T') == IsoDate(d)
  {
    var ys, ms, ds := Pad(d.year, 4), Pad(d.month, 2), Pad(d.day, 2);
    var date := IsoDate(d);
    assert forall i :: 0 <= i < |date| ==> date[i] != 'T' by {
      assert date == ys + "-" + ms + "-" + ds;
    }
    BeforeFirstUpTo(date, 'T', IsoTime(d));
  }

  lemma ParseYmdParts(ys: string, ms: string, ds: string)
    requires |ys| == 4 && AllDigits(ys) && '-' !in ms
    requires MonthField(ms).Some? && DayField(ds).Some?
    ensures ParseYmd(ys + "-" + ms + "-" + ds)
              == Checked(DateTime(DigitsValue(ys), MonthField(ms).value, DayField(ds).value, 0, 0, 0, 0))
  {
    var rest := ms + "-" + ds;
    var s := ys + "-" + rest;
    assert s == ys + "-" + ms + "-" + ds;
    assert s[..4] == ys && s[4] == '-' && s[5..] == rest;
    SplitOnceAt(ms, '-', ds);
  }

  lemma SplitOnceAt(a: string, c: char, b: string)
    requires c !in a
    ensures Text.SplitOnce(a + [c] + b, c) == Some((a, b))
  {
    BeforeFirstUpTo(a, c, b);
    assert (a + [c] + b)[|a| + 1..] == b;
  }

  /** strptime reads back the date part that isoformat writes. */
  lemma YmdOfIsoDate(d: DateTime)
    requires Valid(d)
    ensures ParseYmd(Text.BeforeFirst(IsoFormat(d), 'T')) == Some(Midnight(d))
  {
    IsoDatePart(d);
    assert Pow10(2) == 100 && Pow10(4) == 10000;
    var ys, ms, ds := Pad(d.year, 4), Pad(d.month, 2), Pad(d.day, 2);
    PadValue(d.year, 4); PadValue(d.month, 2); PadValue(d.day, 2);
    assert MonthField(ms) == Some(d.month);
    assert DayField(ds) == Some(d.day);
    assert '-' !in ms;
    ParseYmdParts(ys, ms, ds);
    assert Valid(Midnight(d));
  }

  /**
   * A Jellyfin creation stamp `YYYY-MM-DD` + "T" + anything: the date part before the
   * first `T`, read by strptime, is the calendar day at 00:00.
   */
  lemma DayOfStamp(d: DateTime, rest: string)
    requires Valid(d)
    ensures ParseYmd(Text.BeforeFirst(IsoDate(d) + "T" + rest, 'T')) == Some(Midnight(d))
  {
    IsoDatePart(d);
    YmdOfIsoDate(d);
    var date := IsoDate(d);
    assert IsoFormat(d) == date + "T" + IsoTime(d);
    assert 'T' !in date by {
      var t := IsoFormat(d);
      assert Text.BeforeFirst(t, 'T') == date;
    }
    BeforeFirstUpTo(date, 'T', rest);
  }

  lemma BeforeFirstUpTo(a: string, c: char, b: string)
    requires c !in a
    ensures Text.BeforeFirst(a + [c] + b, c) == a
  {
    if |a| > 0 {
      assert (a + [c] + b)[1..] == a[1..] + [c] + b;
      BeforeFirstUpTo(a[1..], c, b);
    }
  }
}
