/** The 12-hour time labels of the phase-1 client ("09:00 AM"): parsing
    (parseTimeString) and the minute offset used for sorting (timeToMinutes). */
module TimeLabels {
  import opened Outcomes
  import opened Text

  /** The groups of a label matched by ^(\d{1,2}):(\d{2})\s*(AM|PM)$ with the
      i flag: hour digits, minute digits, the whitespace gap and the meridiem. */
  datatype LabelParts = LabelParts(hourDigits: string, minuteDigits: string, gap: string, meridiem: string)

  predicate IsMeridiem(m: string) {
    Upper(m) == "AM" || Upper(m) == "PM"
  }

  predicate WellFormed(p: LabelParts) {
    && 1 <= |p.hourDigits| <= 2 && AllDigits(p.hourDigits)
    && |p.minuteDigits| == 2 && AllDigits(p.minuteDigits)
    && AllSpace(p.gap)
    && |p.meridiem| == 2 && IsMeridiem(p.meridiem)
  }

  /** The text a label with these groups consists of. */
  function Assemble(p: LabelParts): string {
    p.hourDigits + ":" + p.minuteDigits + p.gap + p.meridiem
  }

  /** The regular-expression match of a trimmed label: the meridiem is the last
      two characters, the gap the whitespace before it, and what precedes the
      gap must be one or two digits, a colon and two digits. */
  function SplitLabel(t: string): (r: Option<LabelParts>)
    ensures r.Some? ==> WellFormed(r.value) && Assemble(r.value) == t
  {
    if |t| < 2 then None
    else
      var meridiem := t[|t| - 2..];
      var before := t[..|t| - 2];
      var k := ContentEnd(before);
      var core := before[..k];
      var gap := before[k..];
      if IsMeridiem(meridiem) && (|core| == 4 || |core| == 5) && core[|core| - 3] == ':'
         && AllDigits(core[..|core| - 3]) && AllDigits(core[|core| - 2..])
      then
        var p := LabelParts(core[..|core| - 3], core[|core| - 2..], gap, meridiem);
        assert core == p.hourDigits + ":" + p.minuteDigits;
        assert before == core + gap;
        Some(p)
      else None
  }

  /** A well-formed label splits back into its own groups. */
  lemma SplitAssemble(p: LabelParts)
    requires WellFormed(p)
    ensures SplitLabel(Assemble(p)) == Some(p)
  {
    var t := Assemble(p);
    var core := p.hourDigits + ":" + p.minuteDigits;
    assert t == core + p.gap + p.meridiem;
    assert t[|t| - 2..] == p.meridiem;
    assert t[..|t| - 2] == core + p.gap;
    assert IsDigit(core[|core| - 1]);
    ContentEndFrame(core, p.gap);
    assert (core + p.gap)[..|core|] == core;
    assert (core + p.gap)[|core|..] == p.gap;
    assert core[..|core| - 3] == p.hourDigits;
    assert core[|core| - 2..] == p.minuteDigits;
  }

  /** Hours and minutes as parseTimeString returns them. */
  datatype Clock = Clock(hours: nat, minutes: nat)

  /** The 12-hour rule: 12 AM is hour 0, 12 PM stays 12, other PM hours gain
      12 and AM hours are kept. Nothing is range-checked. */
  function Hours24(h: nat, pm: bool): nat {
    if !pm then (if h == 12 then 0 else h)
    else (if h != 12 then h + 12 else 12)
  }

  function ClockOf(p: LabelParts): Clock
    requires WellFormed(p)
  {
    Clock(Hours24(DecimalValue(p.hourDigits), Upper(p.meridiem) == "PM"), DecimalValue(p.minuteDigits))
  }

  /** parseTimeString: the label is trimmed and matched; None is null. A
      result is the 24-hour value of the groups of a well-formed label that
      the trimmed text spells. */
  function ParseTime(s: string): (r: Option<Clock>)
    ensures r.Some? ==> exists p :: WellFormed(p) && Assemble(p) == Trim(s) && r.value == ClockOf(p)
  {
    match SplitLabel(Trim(s))
    case None => None
    case Some(p) => Some(ClockOf(p))
  }

  /** A label that is well formed once surrounding whitespace is removed parses
      to the value of its groups. */
  lemma ParseTimeAccepts(pre: string, p: LabelParts, post: string)
    requires WellFormed(p) && AllSpace(pre) && AllSpace(post)
    ensures ParseTime(pre + Assemble(p) + post) == Some(ClockOf(p))
  {
    var t := Assemble(p);
    assert t[0] == p.hourDigits[0] && IsDigit(t[0]);
    assert t[|t| - 1] == p.meridiem[1];
    assert Upper(p.meridiem)[1] == 'M';
    assert !IsSpace(t[|t| - 1]);
    TrimFrame(pre, t, post);
    SplitAssemble(p);
  }

  /** A well-formed label parses to the value of its groups. */
  lemma ParseTimeOfLabel(p: LabelParts)
    requires WellFormed(p)
    ensures Assemble(p) != "" && ParseTime(Assemble(p)) == Some(ClockOf(p))
  {
    assert "" + Assemble(p) + "" == Assemble(p);
    ParseTimeAccepts("", p, "");
  }

  /** parseTimeString succeeds exactly on labels that are well formed after
      trimming. */
  lemma ParseTimeIff(s: string)
    ensures ParseTime(s).Some? <==> exists p :: WellFormed(p) && Trim(s) == Assemble(p)
  {
    if exists p :: WellFormed(p) && Trim(s) == Assemble(p) {
      var p :| WellFormed(p) && Trim(s) == Assemble(p);
      SplitAssemble(p);
    }
  }

  /** On the hours 1 to 12 the rule is the clock position: the meridiem gives
      0 or 12 and the hour counts modulo 12, so labels map onto 0..23. */
  lemma TwelveHourRule(h: nat, pm: bool)
    requires 1 <= h <= 12
    ensures Hours24(h, pm) == (if pm then 12 else 0) + h % 12
    ensures Hours24(h, pm) < 24
  {
  }

  /** timeToMinutes: Infinite is Number.POSITIVE_INFINITY. */
  datatype Minutes = Finite(value: nat) | Infinite

  function TimeToMinutes(s: string): (r: Minutes)
    ensures r.Infinite? <==> ParseTime(s).None?
  {
    match ParseTime(s)
    case None => Infinite
    case Some(c) => Finite(c.hours * 60 + c.minutes)
  }

  /** The order the comparator `timeToMinutes(a) - timeToMinutes(b)` sorts by;
      Infinity - Infinity is NaN, which sort reads as "equal". */
  predicate MinutesLe(a: Minutes, b: Minutes) {
    match (a, b)
    case (Finite(x), Finite(y)) => x <= y
    case (_, Infinite) => true
    case (Infinite, Finite(_)) => false
  }

  /** Every parseable label sorts strictly before every unparseable one. */
  lemma UnparseableLast(a: string, b: string)
    requires ParseTime(a).Some? && ParseTime(b).None?
    ensures MinutesLe(TimeToMinutes(a), TimeToMinutes(b))
    ensures !MinutesLe(TimeToMinutes(b), TimeToMinutes(a))
  {
  }

  /** Which hour value and meridiem a well-formed label carries. */
  function HourValue(p: LabelParts): nat requires WellFormed(p) { DecimalValue(p.hourDigits) }
  function MinuteValue(p: LabelParts): nat requires WellFormed(p) { DecimalValue(p.minuteDigits) }
  predicate IsPm(p: LabelParts) { Upper(p.meridiem) == "PM" }

  /** A label in clock range (hours 1 to 12, minutes below 60) maps to its
      minute of the day counted from midnight: below 1440, and chronological. */
  lemma MinuteOfDay(pre: string, p: LabelParts, post: string)
    requires WellFormed(p) && AllSpace(pre) && AllSpace(post)
    requires 1 <= HourValue(p) <= 12 && MinuteValue(p) < 60
    ensures TimeToMinutes(pre + Assemble(p) + post)
      == Finite(((if IsPm(p) then 12 else 0) + HourValue(p) % 12) * 60 + MinuteValue(p))
    ensures TimeToMinutes(pre + Assemble(p) + post).value < 1440
  {
    ParseTimeAccepts(pre, p, post);
    TwelveHourRule(HourValue(p), IsPm(p));
  }

  lemma TwoDigitValue(s: string)
    requires |s| == 2 && AllDigits(s)
    ensures DecimalValue(s) == DigitValue(s[0]) * 10 + DigitValue(s[1])
  {
    var a := s[..1];
    assert a[..0] == [] && a[0] == s[0];
    assert DecimalValue(a) == DigitValue(s[0]);
    assert s[..|s| - 1] == a;
  }

  lemma OneDigitValue(s: string)
    requires |s| == 1 && AllDigits(s)
    ensures DecimalValue(s) == DigitValue(s[0])
  {
    assert s[..0] == [];
  }

  /** parseTimeString does no range check: "25:00 AM" is hour 25 ... */
  lemma HourNotRangeChecked(s: string)
    requires s == "25:00 AM"
    ensures ParseTime(s) == Some(Clock(25, 0))
  {
    var p := LabelParts("25", "00", " ", "AM");
    assert WellFormed(p) && ClockOf(p) == Clock(25, 0) by {
      TwoDigitValue("25");
      TwoDigitValue("00");
      assert Upper("AM") == "AM";
    }
    assert "" + Assemble(p) + "" == s;
    ParseTimeAccepts("", p, "");
  }

  /** ... and " 9:75pm " is 21 hours and 75 minutes. */
  lemma MinuteNotRangeChecked(s: string)
    requires s == " 9:75pm "
    ensures ParseTime(s) == Some(Clock(21, 75))
  {
    var q := LabelParts("9", "75", "", "pm");
    assert WellFormed(q) && ClockOf(q) == Clock(21, 75) by {
      OneDigitValue("9");
      TwoDigitValue("75");
      assert Upper("pm") == "PM";
    }
    assert " " + Assemble(q) + " " == s;
    ParseTimeAccepts(" ", q, " ");
  }

  /** Midnight, noon and the last minute of the day: 12:00 AM is minute 0,
      12:00 PM minute 720 and 11:59 PM minute 1439. */
  lemma MidnightOffset(s: string)
    requires s == "12:00 AM"
    ensures TimeToMinutes(s) == Finite(0)
  {
    EightCharLabel(s, false, 0);
  }

  lemma NoonOffset(s: string)
    requires s == "12:00 PM"
    ensures TimeToMinutes(s) == Finite(720)
  {
    EightCharLabel(s, true, 720);
  }

  lemma LastMinuteOffset(s: string)
    requires s == "11:59 PM"
    ensures TimeToMinutes(s) == Finite(1439)
  {
    EightCharLabel(s, true, 1439);
  }

  /** The label of the form "hh:mm AM" or "hh:mm PM" in clock range. */
  predicate EightChar(s: string, pm: bool) {
    && |s| == 8 && IsDigit(s[0]) && IsDigit(s[1]) && s[2] == ':' && IsDigit(s[3]) && IsDigit(s[4])
    && s[5] == ' ' && s[6] == (if pm then 'P' else 'A') && s[7] == 'M'
    && 1 <= DigitValue(s[0]) * 10 + DigitValue(s[1]) <= 12
    && DigitValue(s[3]) * 10 + DigitValue(s[4]) < 60
  }

  lemma EightCharLabel(s: string, pm: bool, minutes: int)
    requires EightChar(s, pm)
    requires minutes == ((if pm then 12 else 0) + (DigitValue(s[0]) * 10 + DigitValue(s[1])) % 12) * 60
                        + DigitValue(s[3]) * 10 + DigitValue(s[4])
    ensures TimeToMinutes(s) == Finite(minutes)
  {
    var p := EightCharParts(s, pm);
    assert minutes == ((if IsPm(p) then 12 else 0) + HourValue(p) % 12) * 60 + MinuteValue(p);
    LabelMinutes(p, s, minutes);
  }

  /** The parts of such a label, and their values. */
  lemma EightCharParts(s: string, pm: bool) returns (p: LabelParts)
    requires EightChar(s, pm)
    ensures WellFormed(p) && Assemble(p) == s && (IsPm(p) <==> pm)
    ensures HourValue(p) == DigitValue(s[0]) * 10 + DigitValue(s[1])
    ensures MinuteValue(p) == DigitValue(s[3]) * 10 + DigitValue(s[4])
  {
    var hh, mm, gap, mer := s[..2], s[3..5], s[5..6], s[6..];
    p := LabelParts(hh, mm, gap, mer);
    assert hh[0] == s[0] && hh[1] == s[1] && mm[0] == s[3] && mm[1] == s[4];
    TwoDigitValue(hh);
    TwoDigitValue(mm);
    assert AllSpace(gap) by {
      assert gap[0] == ' ';
    }
    MeridiemOf(mer, pm);
    assert Assemble(p) == s;
  }

  lemma MeridiemOf(mer: string, pm: bool)
    requires |mer| == 2 && mer[0] == (if pm then 'P' else 'A') && mer[1] == 'M'
    ensures IsMeridiem(mer) && (Upper(mer) == "PM" <==> pm)
  {
    assert Upper(mer) == mer;
    assert mer == if pm then "PM" else "AM";
  }

  /** The minute of the day of a bare well-formed label. */
  lemma LabelMinutes(p: LabelParts, s: string, minutes: int)
    requires WellFormed(p) && 1 <= HourValue(p) <= 12 && MinuteValue(p) < 60 && s == Assemble(p)
    requires minutes == ((if IsPm(p) then 12 else 0) + HourValue(p) % 12) * 60 + MinuteValue(p)
    ensures TimeToMinutes(s) == Finite(minutes)
  {
    assert "" + Assemble(p) + "" == s;
    MinuteOfDay("", p, "");
  }
}
