/** The pieces of JavaScript the phase-1 client uses to turn a "YYYY-MM-DD"
    date and a parsed clock time into a local moment: String.prototype.split,
    parseInt with radix 10, and the Date constructor's arithmetic (MakeDay,
    MakeTime, MakeDate and TimeClip of section 21.4.1 of ECMA-262), all on
    the local wall clock. */
module LocalCalendar {
  import opened Outcomes
  import opened Text

  // ---------- String.prototype.split with a one-character separator ----------

  function Split(s: string, sep: char): (r: seq<string>)
    ensures |r| >= 1
    ensures forall k :: 0 <= k < |r| ==> sep !in r[k]
  {
    if s == [] then [""]
    else
      var rest := Split(s[1..], sep);
      if s[0] == sep then [""] + rest
      else [[s[0]] + rest[0]] + rest[1..]
  }

  /** The pieces, joined back with the separator, are the original string. */
  lemma {:induction false} SplitJoin(s: string, sep: char)
    ensures Join(Split(s, sep), [sep]) == s
  {
    if s != [] {
      var rest := Split(s[1..], sep);
      SplitJoin(s[1..], sep);
      if s[0] == sep {
        assert Split(s, sep) == [""] + rest;
        JoinCons("", rest, [sep]);
        assert s == [s[0]] + s[1..];
      } else {
        assert Split(s, sep) == [[s[0]] + rest[0]] + rest[1..];
        JoinExtendFirst(s[0], rest, sep);
        assert s == [s[0]] + s[1..];
      }
    }
  }

  /** A character put in front of the first piece lands in front of the join. */
  lemma JoinExtendFirst(c: char, parts: seq<string>, sep: char)
    requires parts != []
    ensures Join([[c] + parts[0]] + parts[1..], [sep]) == [c] + Join(parts, [sep])
  {
    if |parts| > 1 {
      assert parts == [parts[0]] + parts[1..];
      JoinCons(parts[0], parts[1..], [sep]);
      JoinCons([c] + parts[0], parts[1..], [sep]);
    }
  }

  lemma JoinCons(p: string, ps: seq<string>, sep: string)
    requires ps != []
    ensures Join([p] + ps, sep) == p + sep + Join(ps, sep)
  {
    assert ([p] + ps)[1..] == ps;
  }

  /** Splitting the join of separator-free parts gives the parts back, so a
      date string splits into three pieces exactly when it has two dashes. */
  lemma {:induction false} JoinSplit(parts: seq<string>, sep: char)
    requires parts != []
    requires forall k :: 0 <= k < |parts| ==> sep !in parts[k]
    ensures Split(Join(parts, [sep]), sep) == parts
  {
    if |parts| == 1 {
      SplitNoSeparator(parts[0], sep);
    } else {
      JoinSplit(parts[1..], sep);
      SplitPrefix(parts[0], Join(parts[1..], [sep]), sep);
      assert parts == [parts[0]] + parts[1..];
    }
  }

  lemma {:induction false} SplitNoSeparator(s: string, sep: char)
    requires sep !in s
    ensures Split(s, sep) == [s]
  {
    if s != [] {
      SplitNoSeparator(s[1..], sep);
      assert s == [s[0]] + s[1..];
    }
  }

  lemma {:induction false} SplitPrefix(p: string, rest: string, sep: char)
    requires sep !in p
    ensures Split(p + [sep] + rest, sep) == [p] + Split(rest, sep)
  {
    if p == [] {
      assert p + [sep] + rest == [sep] + rest;
      assert ([sep] + rest)[1..] == rest;
    } else {
      assert (p + [sep] + rest)[1..] == p[1..] + [sep] + rest;
      SplitPrefix(p[1..], rest, sep);
      assert p == [p[0]] + p[1..];
    }
  }

  // ---------- parseInt(s, 10) ----------

  /** Length of the run of decimal digits at the start of s. */
  function DigitRun(s: string): (k: nat)
    ensures k <= |s| && AllDigits(s[..k])
    ensures k < |s| ==> !IsDigit(s[k])
  {
    if s == [] || !IsDigit(s[0]) then 0
    else
      var k := 1 + DigitRun(s[1..]);
      assert s[..k] == [s[0]] + s[1..][..k - 1];
      k
  }

  /** parseInt(s, 10): leading whitespace is skipped, one sign is read, then
      the longest run of digits; no digits at all is NaN (None). */
  function ParseInt(s: string): Option<int> {
    var t := TrimStart(s);
    var neg := t != [] && t[0] == '-';
    var body := if t != [] && (t[0] == '-' || t[0] == '+') then t[1..] else t;
    var k := DigitRun(body);
    if k == 0 then None
    else
      var n: int := DecimalValue(body[..k]);
      Some(if neg then -n else n)
  }

  lemma {:induction false} DigitRunFrame(digits: string, rest: string)
    requires AllDigits(digits)
    requires rest == [] || !IsDigit(rest[0])
    ensures DigitRun(digits + rest) == |digits|
  {
    if digits != [] {
      assert (digits + rest)[1..] == digits[1..] + rest;
      DigitRunFrame(digits[1..], rest);
    }
  }

  /** Whitespace before a decimal form is all that trimming removes. */
  lemma TrimBeforeDecimal(pre: string, i: int, rest: string)
    requires AllSpace(pre)
    ensures TrimStart(pre + IntToDecimal(i) + rest) == IntToDecimal(i) + rest
  {
    var d := IntToDecimal(i);
    assert !IsSpace(d[0]);
    assert pre + d + rest == pre + (d + rest);
    LeadingSpacesFrame(pre, d + rest);
  }

  /** After the sign of a decimal form comes exactly the digits of its
      magnitude. */
  lemma SignedDigits(i: int, rest: string)
    requires rest == [] || !IsDigit(rest[0])
    ensures var t := IntToDecimal(i) + rest;
      var body := if t != [] && (t[0] == '-' || t[0] == '+') then t[1..] else t;
      var digits := NatToDecimal(if i < 0 then -i else i);
      && ((t != [] && t[0] == '-') <==> i < 0)
      && DigitRun(body) == |digits| && body[..|digits|] == digits
  {
    var d := IntToDecimal(i);
    var digits := NatToDecimal(if i < 0 then -i else i);
    if i < 0 {
      assert d + rest == "-" + (digits + rest);
      assert (d + rest)[1..] == digits + rest;
    } else {
      assert d == digits;
    }
    DigitRunFrame(digits, rest);
    assert (digits + rest)[..|digits|] == digits;
  }

  /** parseInt reads back the decimal form of every integer, whatever
      whitespace precedes it and whatever non-digit text follows it. */
  lemma ParseIntDecimal(pre: string, i: int, rest: string)
    requires AllSpace(pre)
    requires rest == [] || !IsDigit(rest[0])
    ensures ParseInt(pre + IntToDecimal(i) + rest) == Some(i)
  {
    TrimBeforeDecimal(pre, i, rest);
    SignedDigits(i, rest);
    DecimalRoundTrip(if i < 0 then -i else i);
  }

  /** parseInt gives NaN exactly when no digit follows the optional sign. */
  lemma ParseIntNaN(s: string)
    ensures ParseInt(s).None? <==>
      var t := TrimStart(s);
      var body := if t != [] && (t[0] == '-' || t[0] == '+') then t[1..] else t;
      body == [] || !IsDigit(body[0])
  {
  }

  // ---------- the Date constructor on local time ----------

  const MsPerDay: int := 86400000
  const MsPerHour: int := 3600000
  const MsPerMinute: int := 60000
  /** The largest absolute time value TimeClip keeps. */
  const MaxTime: int := 8640000000000000

  predicate InLeapYear(y: int) {
    y % 4 == 0 && (y % 100 != 0 || y % 400 == 0)
  }

  /** Day number of the first day of year y, counted from 1970-01-01. */
  function DayFromYear(y: int): int {
    365 * (y - 1970) + (y - 1969) / 4 - (y - 1901) / 100 + (y - 1601) / 400
  }

  /** Days in the year before month mn (0 for January). */
  function MonthStart(mn: int, leap: bool): int
    requires 0 <= mn < 12
  {
    var base :=
      if mn == 0 then 0 else if mn == 1 then 31 else if mn == 2 then 59
      else if mn == 3 then 90 else if mn == 4 then 120 else if mn == 5 then 151
      else if mn == 6 then 181 else if mn == 7 then 212 else if mn == 8 then 243
      else if mn == 9 then 273 else if mn == 10 then 304 else 334;
    if leap && mn >= 2 then base + 1 else base
  }

  function DaysInMonth(mn: int, leap: bool): int
    requires 0 <= mn < 12
  {
    if mn == 11 then 31 else MonthStart(mn + 1, leap) - MonthStart(mn, leap)
  }

  /** MakeDay(year, month, date) with a 0-based month; a month outside 0..11
      carries into the year (floor division) and the date may run past the
      month's end. */
  function MakeDay(year: int, month: int, date: int): int {
    var ym := year + month / 12;
    var mn := month % 12;
    DayFromYear(ym) + MonthStart(mn, InLeapYear(ym)) + date - 1
  }

  function MakeTime(hours: int, minutes: int): int {
    hours * MsPerHour + minutes * MsPerMinute
  }

  /** MakeFullYear: years 0 to 99 mean 1900 to 1999. */
  function FullYear(y: int): int {
    if 0 <= y <= 99 then 1900 + y else y
  }

  /** new Date(y, m, d, h, mi, 0, 0).getTime() on the local clock; None is an
      Invalid Date (NaN), which is what TimeClip gives beyond 8.64e15 ms. */
  function LocalMoment(y: int, m: int, d: int, h: int, mi: int): (r: Option<int>)
    ensures r.Some? ==> -MaxTime <= r.value <= MaxTime
  {
    var t := MakeDay(FullYear(y), m, d) * MsPerDay + MakeTime(h, mi);
    if -MaxTime <= t <= MaxTime then Some(t) else None
  }

  // ---------- calendar facts ----------

  /** A year has 366 days when it is a leap year and 365 otherwise. */
  lemma YearLength(y: int)
    ensures DayFromYear(y + 1) - DayFromYear(y) == (if InLeapYear(y) then 366 else 365)
  {
    FourStep(y);
    HundredStep(y);
    FourHundredStep(y);
    var a := (y - 1968) / 4 - (y - 1969) / 4;
    var b := (y - 1900) / 100 - (y - 1901) / 100;
    var c := (y - 1600) / 400 - (y - 1601) / 400;
    assert DayFromYear(y + 1) - DayFromYear(y) == 365 + a - b + c;
    PeriodsNest(y);
  }

  /** A multiple of 400 is a multiple of 100, and one of 100 a multiple of 4. */
  lemma PeriodsNest(y: int)
    ensures y % 400 == 0 ==> y % 100 == 0
    ensures y % 100 == 0 ==> y % 4 == 0
  {
    if y % 400 == 0 {
      MultipleOf400(y / 400, y);
    }
    if y % 100 == 0 {
      MultipleOf100(y / 100, y);
    }
  }

  lemma MultipleOf400(q: int, y: int)
    requires y == 400 * q
    ensures y % 100 == 0
  {
    assert y == 100 * (4 * q);
  }

  lemma MultipleOf100(q: int, y: int)
    requires y == 100 * q
    ensures y % 4 == 0
  {
    assert y == 4 * (25 * q);
  }
  /** Each of the three leap-day counts of DayFromYear steps up by one
      exactly at a multiple of its period. */
  lemma FourStep(y: int)
    ensures (y - 1968) / 4 - (y - 1969) / 4 == (if y % 4 == 0 then 1 else 0)
  {
  }

  lemma HundredStep(y: int)
    ensures (y - 1900) / 100 - (y - 1901) / 100 == (if y % 100 == 0 then 1 else 0)
  {
  }

  lemma FourHundredStep(y: int)
    ensures (y - 1600) / 400 - (y - 1601) / 400 == (if y % 400 == 0 then 1 else 0)
  {
  }

  lemma {:induction false} DayFromYearMonotone(a: int, b: int)
    requires a < b
    ensures DayFromYear(a) + 365 <= DayFromYear(b)
    decreases b - a
  {
    YearLength(a);
    if a + 1 < b {
      DayFromYearMonotone(a + 1, b);
    }
  }

  /** The epoch: 1970-01-01 is day 0. */
  lemma Epoch()
    ensures MakeDay(1970, 0, 1) == 0
  {
  }

  /** A calendar date with a 1-based month and a day within the month. */
  predicate ValidDate(y: int, month: int, day: int) {
    1 <= month <= 12 && 1 <= day <= DaysInMonth(month - 1, InLeapYear(y))
  }

  /** Month starts grow with the month, and a month ends where the next
      begins (the last one at the year's length). */
  lemma MonthStartsIncrease(a: int, b: int, leap: bool)
    requires 0 <= a < b < 12
    ensures MonthStart(a, leap) + DaysInMonth(a, leap) <= MonthStart(b, leap)
  {
  }

  lemma LastMonthEnd(leap: bool)
    ensures MonthStart(11, leap) + DaysInMonth(11, leap) == (if leap then 366 else 365)
  {
  }

  /** Day of a valid date, counted from the start of its year, lies inside the year. */
  lemma DayInYear(y: int, month: int, day: int)
    requires ValidDate(y, month, day)
    ensures DayFromYear(y) <= MakeDay(y, month - 1, day) < DayFromYear(y + 1)
  {
    MakeDayValid(y, month, day);
    YearLength(y);
    if month - 1 < 11 {
      MonthStartsIncrease(month - 1, 11, InLeapYear(y));
    }
    LastMonthEnd(InLeapYear(y));
  }

  /** Calendar order of (year, month, day, hour, minute), compared in turn. */
  predicate TupleLe(y1: int, mo1: int, d1: int, h1: int, mi1: int,
                    y2: int, mo2: int, d2: int, h2: int, mi2: int) {
    if y1 != y2 then y1 < y2
    else if mo1 != mo2 then mo1 < mo2
    else if d1 != d2 then d1 < d2
    else if h1 != h2 then h1 < h2
    else mi1 <= mi2
  }

  /** On a valid date no month carries into the year. */
  lemma MakeDayValid(y: int, month: int, day: int)
    requires 1 <= month <= 12
    ensures MakeDay(y, month - 1, day) == DayFromYear(y) + MonthStart(month - 1, InLeapYear(y)) + day - 1
  {
    assert (month - 1) / 12 == 0 && (month - 1) % 12 == month - 1;
  }

  /** The day number orders valid dates chronologically. */
  lemma DayOrder(y1: int, mo1: int, d1: int, y2: int, mo2: int, d2: int)
    requires ValidDate(y1, mo1, d1) && ValidDate(y2, mo2, d2)
    requires TupleLe(y1, mo1, d1, 0, 0, y2, mo2, d2, 0, 0) && (y1, mo1, d1) != (y2, mo2, d2)
    ensures MakeDay(y1, mo1 - 1, d1) < MakeDay(y2, mo2 - 1, d2)
  {
    if y1 < y2 {
      YearsOrder(y1, mo1, d1, y2, mo2, d2);
    } else {
      assert y1 == y2 && (mo1 < mo2 || (mo1 == mo2 && d1 < d2));
      if mo1 < mo2 {
        MonthsOrder(y1, mo1, d1, mo2, d2);
      } else {
        MakeDayValid(y1, mo1, d1);
        MakeDayValid(y1, mo1, d2);
      }
    }
  }

  /** A valid date of an earlier month of the same year comes first. */
  lemma MonthsOrder(y: int, mo1: int, d1: int, mo2: int, d2: int)
    requires ValidDate(y, mo1, d1) && ValidDate(y, mo2, d2) && mo1 < mo2
    ensures MakeDay(y, mo1 - 1, d1) < MakeDay(y, mo2 - 1, d2)
  {
    MakeDayValid(y, mo1, d1);
    MakeDayValid(y, mo2, d2);
    var leap := InLeapYear(y);
    MonthStartsIncrease(mo1 - 1, mo2 - 1, leap);
    var s1, s2 := MonthStart(mo1 - 1, leap), MonthStart(mo2 - 1, leap);
    assert s1 + d1 - 1 < s1 + DaysInMonth(mo1 - 1, leap) <= s2 <= s2 + d2 - 1;
  }

  /** A valid date of an earlier year comes first. */
  lemma YearsOrder(y1: int, mo1: int, d1: int, y2: int, mo2: int, d2: int)
    requires ValidDate(y1, mo1, d1) && ValidDate(y2, mo2, d2) && y1 < y2
    ensures MakeDay(y1, mo1 - 1, d1) < MakeDay(y2, mo2 - 1, d2)
  {
    DayInYear(y1, mo1, d1);
    DayInYear(y2, mo2, d2);
    YearStartsGrow(y1 + 1, y2);
    var a, b := MakeDay(y1, mo1 - 1, d1), MakeDay(y2, mo2 - 1, d2);
    assert a < DayFromYear(y1 + 1) <= DayFromYear(y2) <= b;
  }

  lemma YearStartsGrow(a: int, b: int)
    requires a <= b
    ensures DayFromYear(a) <= DayFromYear(b)
  {
    if a < b {
      DayFromYearMonotone(a, b);
    }
  }

  /** Years from 100 on are taken literally and, up to 200000, stay well
      within the range TimeClip accepts. */
  predicate InRangeYear(y: int) {
    100 <= y <= 200000
  }

  lemma MomentInRange(y: int, mo: int, d: int, h: int, mi: int)
    requires InRangeYear(y) && ValidDate(y, mo, d) && 0 <= h < 24 && 0 <= mi < 60
    ensures LocalMoment(y, mo - 1, d, h, mi).Some?
    ensures LocalMoment(y, mo - 1, d, h, mi).value == MakeDay(y, mo - 1, d) * MsPerDay + MakeTime(h, mi)
  {
    DayInYear(y, mo, d);
    if 100 < y {
      DayFromYearMonotone(100, y);
    }
    if y < 200000 {
      DayFromYearMonotone(y + 1, 200001);
    }
    assert -800000 <= DayFromYear(100) && DayFromYear(200001) <= 80000000;
  }

  /** On valid dates and clock times the local moment orders instants exactly
      as the calendar does: this is what makes the "<= now" test a test of
      "at or before now" on the wall clock. */
  lemma MomentOrder(y1: int, mo1: int, d1: int, h1: int, mi1: int,
                    y2: int, mo2: int, d2: int, h2: int, mi2: int)
    requires InRangeYear(y1) && ValidDate(y1, mo1, d1) && 0 <= h1 < 24 && 0 <= mi1 < 60
    requires InRangeYear(y2) && ValidDate(y2, mo2, d2) && 0 <= h2 < 24 && 0 <= mi2 < 60
    ensures LocalMoment(y1, mo1 - 1, d1, h1, mi1).Some? && LocalMoment(y2, mo2 - 1, d2, h2, mi2).Some?
    ensures LocalMoment(y1, mo1 - 1, d1, h1, mi1).value <= LocalMoment(y2, mo2 - 1, d2, h2, mi2).value
            <==> TupleLe(y1, mo1, d1, h1, mi1, y2, mo2, d2, h2, mi2)
  {
    MomentInRange(y1, mo1, d1, h1, mi1);
    MomentInRange(y2, mo2, d2, h2, mi2);
    var a, b := MakeDay(y1, mo1 - 1, d1), MakeDay(y2, mo2 - 1, d2);
    if (y1, mo1, d1) != (y2, mo2, d2) {
      if TupleLe(y1, mo1, d1, 0, 0, y2, mo2, d2, 0, 0) {
        DayOrder(y1, mo1, d1, y2, mo2, d2);
      } else {
        DayOrder(y2, mo2, d2, y1, mo1, d1);
      }
    }
    var ta, tb := MakeTime(h1, mi1), MakeTime(h2, mi2);
    assert 0 <= ta < MsPerDay && 0 <= tb < MsPerDay;
    if a < b {
      assert a * MsPerDay + ta < b * MsPerDay + tb;
    } else if b < a {
      assert b * MsPerDay + tb < a * MsPerDay + ta;
    }
  }
}
