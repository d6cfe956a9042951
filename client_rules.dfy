/** The pure rules of the phase-1 booking page (phase_1/frontend/app.js):
    which slots count as past, which pass the date and time filters, the key
    under which a filtered list is remembered, the order slots and time
    options are shown in, the booking-form checks and HTML escaping. Slots are
    the JSON objects the slot API returned, read field by field as the page
    does. */
module ClientRules {
  import opened Outcomes
  import opened Text
  import opened JsonValues
  import opened TimeLabels
  import opened LocalCalendar
  import opened Sorting

  // ---------- fields of a slot object ----------

  function DateField(s: Json): Option<Json> { Member(s, "appointmentDate") }
  function TimeField(s: Json): Option<Json> { Member(s, "appointmentTime") }

  /** String(v) for a member read off an object: a missing one is undefined. */
  function StringOf(v: Option<Json>): string {
    if v.None? then "undefined" else JsString(v.value)
  }

  /** String(v || ""): falsy values become the empty string. */
  function TextOr(v: Option<Json>): (r: string)
    ensures !JsTruthy(v) ==> r == ""
  {
    if JsTruthy(v) then JsString(v.value) else ""
  }

  // ---------- isAppointmentInPast ----------

  /** dateStr.split('-') is reached with a date that is not a string (a
      number, boolean, array or object): the call throws a TypeError. It is
      reached only once both fields are truthy and the time has parsed. */
  predicate DateThrows(date: Option<Json>, time: Option<Json>) {
    JsTruthy(date) && JsTruthy(time) && ParseTime(StringOf(time)).Some? && !date.value.JStr?
  }

  /** The answer isAppointmentInPast(dateStr, timeStr) gives when it
      returns, with `now` the cached clock in local milliseconds: false for a
      missing or empty date or time, a time that does not parse, a date that
      does not split into three parts on '-' or whose parts are not numbers
      (an Invalid Date compares false); otherwise whether the local moment is
      at or before now. */
  predicate Past(date: Option<Json>, time: Option<Json>, now: int) {
    if !JsTruthy(date) || !JsTruthy(time) then false
    else match ParseTime(StringOf(time))
      case None => false
      case Some(c) =>
        date.value.JStr? &&
        match DateMoment(date.value.s, c)
        case None => false
        case Some(t) => t <= now
  }

  /** isAppointmentInPast as it runs: None when it throws, which it does
      exactly on a truthy non-string date once the time has parsed; a falsy field or an unparseable time
      reads as not past, and "past" needs a string date of three
      '-'-separated parts. */
  function IsAppointmentInPast(date: Option<Json>, time: Option<Json>, now: int): (r: Option<bool>)
    ensures r.None? <==> DateThrows(date, time)
    ensures !JsTruthy(date) || !JsTruthy(time) ==> r == Some(false)
    ensures JsTruthy(time) && ParseTime(StringOf(time)).None? ==> r == Some(false)
    ensures r == Some(true) ==> date.Some? && date.value.JStr? && |Split(date.value.s, '-')| == 3
  {
    if DateThrows(date, time) then None else Some(Past(date, time, now))
  }

  /** new Date(year, month - 1, day, hours, minutes, 0, 0) from the three
      '-'-separated parts of dateStr; None when there are not three parts or
      the result is an Invalid Date. */
  function DateMoment(dateStr: string, c: Clock): Option<int> {
    var parts := Split(dateStr, '-');
    if |parts| != 3 then None
    else
      var y, m, d := ParseInt(parts[0]), ParseInt(parts[1]), ParseInt(parts[2]);
      if y.None? || m.None? || d.None? then None
      else LocalMoment(y.value, m.value - 1, d.value, c.hours, c.minutes)
  }

  /** The date text "Y-M-D" of three digit strings. */
  function DateText(ys: string, ms: string, ds: string): string {
    ys + "-" + ms + "-" + ds
  }

  predicate DigitField(s: string) { s != [] && AllDigits(s) }

  lemma ParseIntDigits(ds: string)
    requires DigitField(ds)
    ensures ParseInt(ds) == Some(DecimalValue(ds) as int)
  {
    assert LeadingSpaces(ds) == 0 by {
      assert IsDigit(ds[0]);
    }
    assert TrimStart(ds) == ds;
    assert ds[0] != '-' && ds[0] != '+' by {
      assert IsDigit(ds[0]);
    }
    assert DigitRun(ds) == |ds| by {
      assert ds + [] == ds;
      DigitRunFrame(ds, []);
    }
    assert ds[..|ds|] == ds;
  }

  lemma DateTextSplits(ys: string, ms: string, ds: string)
    requires DigitField(ys) && DigitField(ms) && DigitField(ds)
    ensures Split(DateText(ys, ms, ds), '-') == [ys, ms, ds]
  {
    assert '-' !in ys && '-' !in ms && '-' !in ds by {
      assert !IsDigit('-');
    }
    var t := DateText(ys, ms, ds);
    assert t == ys + ['-'] + (ms + ['-'] + ds);
    SplitPrefix(ys, ms + ['-'] + ds, '-');
    SplitPrefix(ms, ds, '-');
    SplitNoSeparator(ds, '-');
  }

  /** A "Y-M-D" date of digit strings and a well-formed label in clock
      range are past exactly when their local moment is at or before now. */
  lemma PastOfParts(date: Option<Json>, time: Option<Json>,
                    ys: string, ms: string, ds: string, p: LabelParts, now: int)
    requires DigitField(ys) && DigitField(ms) && DigitField(ds) && date == Some(JStr(DateText(ys, ms, ds)))
    requires WellFormed(p) && time == Some(JStr(Assemble(p)))
    ensures Past(date, time, now)
        <==> match LocalMoment(DecimalValue(ys), DecimalValue(ms) - 1, DecimalValue(ds), ClockOf(p).hours, ClockOf(p).minutes)
             case None => false
             case Some(t) => t <= now
  {
    ParseTimeOfLabel(p);
    assert DateText(ys, ms, ds)[0] == ys[0];
    PastOfClock(date, time, ClockOf(p), now);
    DateMomentOfParts(ys, ms, ds, ClockOf(p));
  }

  /** Once the time has parsed to c, the past test is the date's moment
      compared with now. */
  lemma PastOfClock(date: Option<Json>, time: Option<Json>, c: Clock, now: int)
    requires JsTruthy(date) && JsTruthy(time) && date.value.JStr? && ParseTime(StringOf(time)) == Some(c)
    ensures Past(date, time, now)
        <==> (DateMoment(date.value.s, c).Some? && DateMoment(date.value.s, c).value <= now)
  {
  }

  lemma DateMomentOfParts(ys: string, ms: string, ds: string, c: Clock)
    requires DigitField(ys) && DigitField(ms) && DigitField(ds)
    ensures DateMoment(DateText(ys, ms, ds), c)
         == LocalMoment(DecimalValue(ys), DecimalValue(ms) - 1, DecimalValue(ds), c.hours, c.minutes)
  {
    DateTextSplits(ys, ms, ds);
    ParseIntDigits(ys);
    ParseIntDigits(ms);
    ParseIntDigits(ds);
  }

  /** For a "Y-M-D" date whose digit parts read as the valid calendar date
      y-mo-d and a time that parses to a clock time within the day, the slot
      is past exactly when its calendar moment is at or before the calendar
      moment of now: the test is inclusive and uses the local wall clock. */
  lemma PastIsCalendarOrder(date: Option<Json>, time: Option<Json>,
                            ys: string, ms: string, ds: string, y: int, mo: int, d: int, h: nat, mi: nat,
                            ny: int, nmo: int, nd: int, nh: int, nmi: int, now: int)
    requires DigitField(ys) && DigitField(ms) && DigitField(ds) && date == Some(JStr(DateText(ys, ms, ds)))
    requires y == DecimalValue(ys) && mo == DecimalValue(ms) && d == DecimalValue(ds)
    requires InRangeYear(y) && ValidDate(y, mo, d)
    requires JsTruthy(time) && ParseTime(StringOf(time)) == Some(Clock(h, mi)) && h < 24 && mi < 60
    requires InRangeYear(ny) && ValidDate(ny, nmo, nd) && 0 <= nh < 24 && 0 <= nmi < 60
    requires LocalMoment(ny, nmo - 1, nd, nh, nmi) == Some(now)
    ensures Past(date, time, now) <==> TupleLe(y, mo, d, h, mi, ny, nmo, nd, nh, nmi)
  {
    PastOfDigits(date, time, ys, ms, ds, h, mi, now);
    MomentOrder(y, mo, d, h, mi, ny, nmo, nd, nh, nmi);
    SameMoment(y, mo, d, DecimalValue(ys), DecimalValue(ms), DecimalValue(ds), h, mi);
  }

  lemma SameMoment(y1: int, mo1: int, d1: int, y2: int, mo2: int, d2: int, h: int, mi: int)
    requires y1 == y2 && mo1 == mo2 && d1 == d2
    ensures LocalMoment(y1, mo1 - 1, d1, h, mi) == LocalMoment(y2, mo2 - 1, d2, h, mi)
  {
  }

  lemma PastOfDigits(date: Option<Json>, time: Option<Json>,
                     ys: string, ms: string, ds: string, h: nat, mi: nat, now: int)
    requires DigitField(ys) && DigitField(ms) && DigitField(ds) && date == Some(JStr(DateText(ys, ms, ds)))
    requires JsTruthy(time) && ParseTime(StringOf(time)) == Some(Clock(h, mi))
    ensures Past(date, time, now)
        <==> match LocalMoment(DecimalValue(ys), DecimalValue(ms) - 1, DecimalValue(ds), h, mi)
             case None => false
             case Some(t) => t <= now
  {
    assert DateText(ys, ms, ds)[0] == ys[0];
    PastOfClock(date, time, Clock(h, mi), now);
    DateMomentOfParts(ys, ms, ds, Clock(h, mi));
  }

  /** The past test only ever says "past" for a parseable time and a date of
      three '-'-separated parts. */
  lemma PastNeedsParts(date: Option<Json>, time: Option<Json>, now: int)
    requires Past(date, time, now)
    ensures JsTruthy(date) && JsTruthy(time) && ParseTime(StringOf(time)).Some?
    ensures date.value.JStr? && |Split(date.value.s, '-')| == 3
  {
  }

  /** One instant later than a past moment is still past: the test is
      monotone in the clock, so a slot never reappears while time moves on. */
  lemma PastIsMonotone(date: Option<Json>, time: Option<Json>, now: int, later: int)
    requires Past(date, time, now) && now <= later
    ensures Past(date, time, later)
  {
  }

  // ---------- applyFilters: the filter ----------

  /** A slot stays in the list: not past, on the chosen date if one is set
      and at the chosen time if one is set (strict equality with a string). */
  predicate Keeps(s: Json, date: string, time: string, now: int) {
    && !Past(DateField(s), TimeField(s), now)
    && (date == "" || DateField(s) == Some(JStr(date)))
    && (time == "" || TimeField(s) == Some(JStr(time)))
  }

  function FilterSlots(slots: seq<Json>, date: string, time: string, now: int): (r: seq<Json>)
    ensures |r| <= |slots|
    ensures forall k :: 0 <= k < |r| ==> Keeps(r[k], date, time, now)
  {
    if slots == [] then []
    else (if Keeps(slots[0], date, time, now) then [slots[0]] else [])
         + FilterSlots(slots[1..], date, time, now)
  }

  /** The filter callback throws on this slot: reading a field of null, or
      the past test on a non-string date. */
  predicate SlotThrows(s: Json) {
    s.JNull? || DateThrows(DateField(s), TimeField(s))
  }

  predicate AnyThrows(slots: seq<Json>) {
    exists k :: 0 <= k < |slots| && SlotThrows(slots[k])
  }

  /** slots.filter(...) of applyFilters as it runs: None when the callback
      throws on some slot, and otherwise the kept slots. */
  function ApplyFilter(slots: seq<Json>, date: string, time: string, now: int): (r: Option<seq<Json>>)
    ensures r.None? <==> AnyThrows(slots)
    ensures r.Some? ==> r.value == FilterSlots(slots, date, time, now)
  {
    if slots == [] then Some([])
    else if SlotThrows(slots[0]) then None
    else match ApplyFilter(slots[1..], date, time, now)
      case None =>
        assert SlotThrows(slots[1..][0]) || AnyThrows(slots[1..]);
        None
      case Some(rest) => Some((if Keeps(slots[0], date, time, now) then [slots[0]] else []) + rest)
  }

  /** a keeps the order of b and drops some of its elements. */
  predicate IsSubsequence<T(==)>(a: seq<T>, b: seq<T>) {
    if a == [] then true
    else if b == [] then false
    else if a[0] == b[0] then IsSubsequence(a[1..], b[1..])
    else IsSubsequence(a, b[1..])
  }

  lemma {:induction false} SubsequenceOfTail<T>(a: seq<T>, b: seq<T>)
    requires b != [] && IsSubsequence(a, b[1..])
    ensures IsSubsequence(a, b)
    decreases |b|, 0
  {
    if a != [] && a[0] == b[0] {
      SubsequenceDropHead(a, b[1..]);
    }
  }

  lemma {:induction false} SubsequenceDropHead<T>(a: seq<T>, c: seq<T>)
    requires a != [] && IsSubsequence(a, c)
    ensures IsSubsequence(a[1..], c)
    decreases |c|, 1
  {
    if a[0] == c[0] {
      if a[1..] != [] { SubsequenceOfTail(a[1..], c); }
    } else {
      SubsequenceDropHead(a, c[1..]);
      SubsequenceOfTail(a[1..], c);
    }
  }

  /** applyFilters keeps the slots in their order... */
  lemma {:induction false} FilterIsSubsequence(slots: seq<Json>, date: string, time: string, now: int)
    ensures IsSubsequence(FilterSlots(slots, date, time, now), slots)
  {
    if slots != [] {
      var rest := FilterSlots(slots[1..], date, time, now);
      FilterIsSubsequence(slots[1..], date, time, now);
      if Keeps(slots[0], date, time, now) {
        assert FilterSlots(slots, date, time, now) == [slots[0]] + rest;
      } else {
        assert FilterSlots(slots, date, time, now) == rest;
        if rest != [] { SubsequenceOfTail(rest, slots); }
      }
    }
  }

  /** ... and keeps every copy of a slot that passes and none that fails. */
  lemma {:induction false} FilterMultiplicity(slots: seq<Json>, date: string, time: string, now: int, x: Json)
    ensures multiset(FilterSlots(slots, date, time, now))[x]
         == (if Keeps(x, date, time, now) then multiset(slots)[x] else 0)
  {
    if slots != [] {
      FilterMultiplicity(slots[1..], date, time, now, x);
      ConsCount(slots, Keeps(slots[0], date, time, now), FilterSlots(slots[1..], date, time, now),
                x, Keeps(x, date, time, now));
    }
  }

  /** One more element in front of a filtered list: it counts for x only
      when it is x and kept. */
  lemma ConsCount(slots: seq<Json>, keepHead: bool, rest: seq<Json>, x: Json, keepX: bool)
    requires slots != [] && multiset(rest)[x] == (if keepX then multiset(slots[1..])[x] else 0)
    requires slots[0] == x ==> keepHead == keepX
    ensures multiset((if keepHead then [slots[0]] else []) + rest)[x] == (if keepX then multiset(slots)[x] else 0)
  {
    assert slots == [slots[0]] + slots[1..];
  }

  // ---------- applyFilters: the cache key ----------

  const Bar: char := '|'

  /** `${date}|${time}|${slots.length}|${getCurrentTime().getTime()}`: a
      date without a bar is the text before the first bar, and the clock
      reading is the text after the last one. */
  function FilterKey(date: string, time: string, count: nat, ms: int): (r: string)
    ensures Bar !in date ==> BeforeFirst(r, Bar) == date
    ensures AfterLast(r, Bar) == IntToDecimal(ms)
  {
    BeforeFirstOfKey(date, KeyTail(time, count, ms));
    NoBarInNumbers(0, ms);
    AfterLastOf(time + [Bar] + NatToDecimal(count), Bar, IntToDecimal(ms));
    AfterLastOfKey(date, time + [Bar] + NatToDecimal(count), IntToDecimal(ms));
    date + [Bar] + KeyTail(time, count, ms)
  }

  lemma BeforeFirstOfKey(date: string, tail: string)
    ensures Bar !in date ==> BeforeFirst(date + [Bar] + tail, Bar) == date
  {
    if Bar !in date {
      BeforeFirstOf(date, Bar, tail);
    }
  }

  /** The text after the last bar of date|x|a is a when a has no bar. */
  lemma AfterLastOfKey(date: string, x: string, a: string)
    requires Bar !in a
    ensures AfterLast(date + [Bar] + (x + [Bar] + a), Bar) == a
  {
    assert date + [Bar] + (x + [Bar] + a) == (date + [Bar] + x) + [Bar] + a;
    AfterLastOf(date + [Bar] + x, Bar, a);
  }

  function KeyTail(time: string, count: nat, ms: int): string {
    (time + [Bar] + NatToDecimal(count)) + [Bar] + IntToDecimal(ms)
  }

  /** The text before the first c. */
  function BeforeFirst(s: string, c: char): string {
    if s == [] || s[0] == c then [] else [s[0]] + BeforeFirst(s[1..], c)
  }

  /** The text after the last c. */
  function AfterLast(s: string, c: char): string {
    if s == [] || s[|s| - 1] == c then [] else AfterLast(s[..|s| - 1], c) + [s[|s| - 1]]
  }

  lemma {:induction false} BeforeFirstOf(a: string, c: char, x: string)
    requires c !in a
    ensures BeforeFirst(a + [c] + x, c) == a
  {
    if a != [] {
      assert (a + [c] + x)[1..] == a[1..] + [c] + x;
      BeforeFirstOf(a[1..], c, x);
      assert a == [a[0]] + a[1..];
    }
  }

  lemma {:induction false} AfterLastOf(x: string, c: char, a: string)
    requires c !in a
    ensures AfterLast(x + [c] + a, c) == a
  {
    if a != [] {
      var s := x + [c] + a;
      assert s[..|s| - 1] == x + [c] + a[..|a| - 1];
      AfterLastOf(x, c, a[..|a| - 1]);
      assert a == a[..|a| - 1] + [a[|a| - 1]];
    }
  }

  lemma FirstBar(a: string, x: string, b: string, y: string)
    requires Bar !in a && Bar !in b && a + [Bar] + x == b + [Bar] + y
    ensures a == b && x == y
  {
    var s := a + [Bar] + x;
    BeforeFirstOf(a, Bar, x);
    BeforeFirstOf(b, Bar, y);
    assert x == s[|a| + 1..] && y == s[|b| + 1..];
  }

  lemma LastBar(x: string, a: string, y: string, b: string)
    requires Bar !in a && Bar !in b && x + [Bar] + a == y + [Bar] + b
    ensures a == b && x == y
  {
    var s := x + [Bar] + a;
    AfterLastOf(x, Bar, a);
    AfterLastOf(y, Bar, b);
    assert x == s[..|s| - |a| - 1] && y == s[..|s| - |b| - 1];
  }

  lemma NoBarInNumbers(n: nat, i: int)
    ensures Bar !in NatToDecimal(n) && Bar !in IntToDecimal(i)
  {
    var a, b := NatToDecimal(n), IntToDecimal(i);
    assert forall k :: 0 <= k < |a| ==> a[k] != Bar;
    assert forall k :: 0 <= k < |b| ==> b[k] != Bar;
  }

  /** Equal keys mean equal filters, length and clock reading, as long as the
      date contains no '|' (a date input only ever holds "" or YYYY-MM-DD). */
  lemma FilterKeyInjective(d1: string, t1: string, n1: nat, m1: int,
                           d2: string, t2: string, n2: nat, m2: int)
    requires Bar !in d1 && Bar !in d2
    requires FilterKey(d1, t1, n1, m1) == FilterKey(d2, t2, n2, m2)
    ensures d1 == d2 && t1 == t2 && n1 == n2 && m1 == m2
  {
    FirstBar(d1, KeyTail(t1, n1, m1), d2, KeyTail(t2, n2, m2));
    NoBarInNumbers(n1, m1);
    NoBarInNumbers(n2, m2);
    LastBar(t1 + [Bar] + NatToDecimal(n1), IntToDecimal(m1), t2 + [Bar] + NatToDecimal(n2), IntToDecimal(m2));
    LastBar(t1, NatToDecimal(n1), t2, NatToDecimal(n2));
    NatToDecimalInjective(n1, n2);
    IntToDecimalInjective(m1, m2);
  }

  /** Without that restriction two different filter states share a key. */
  lemma FilterKeyCollision()
    ensures FilterKey("a|b", "c", 1, 0) == FilterKey("a", "b|c", 1, 0)
  {
  }

  // ---------- the order of slots and time options ----------

  /** Numeric order of timeToMinutes values; +Infinity ties with itself. */
  lemma MinutesLeTotalPreorder()
    ensures forall a, b :: MinutesLe(a, b) || MinutesLe(b, a)
    ensures forall a, b, c :: MinutesLe(a, b) && MinutesLe(b, c) ==> MinutesLe(a, c)
  {
  }

  function DateKey(s: Json): string { TextOr(DateField(s)) }
  function TimeKey(s: Json): Minutes { TimeToMinutes(StringOf(TimeField(s))) }

  /** The comparator of fetchSlots: String(appointmentDate || "") compared
      with localeCompare, then timeToMinutes(appointmentTime) numerically. */
  predicate SlotLe(a: Json, b: Json) {
    if DateKey(a) != DateKey(b) then LexLe(DateKey(a), DateKey(b))
    else MinutesLe(TimeKey(a), TimeKey(b))
  }

  lemma SlotLeTotalPreorder()
    ensures IsTotalPreorder(SlotLe)
  {
    forall a, b ensures SlotLe(a, b) || SlotLe(b, a) {
      LexLeTotal(DateKey(a), DateKey(b));
      MinutesLeTotalPreorder();
    }
    forall a, b, c | SlotLe(a, b) && SlotLe(b, c) ensures SlotLe(a, c) {
      MinutesLeTotalPreorder();
      var x, y, z := DateKey(a), DateKey(b), DateKey(c);
      if x != y && y != z {
        LexLeTransitive(x, y, z);
        if x == z { LexLeAntisymmetric(x, y); }
      }
    }
  }

  /** The slot list fetchSlots keeps: every slot of the response, ordered by
      date and then by minute of the day. */
  function SortSlots(slots: seq<Json>): (r: seq<Json>)
    ensures SortedBy(r, SlotLe) && multiset(r) == multiset(slots)
  {
    SlotLeTotalPreorder();
    SortBy(slots, SlotLe)
  }

  /** The comparator of uniqueTimes: timeToMinutes of each value. */
  predicate TimeLe(a: Json, b: Json) {
    MinutesLe(TimeToMinutes(JsString(a)), TimeToMinutes(JsString(b)))
  }

  lemma TimeLeTotalPreorder()
    ensures IsTotalPreorder(TimeLe)
  {
    MinutesLeTotalPreorder();
  }

  /** The value uniqueTimes adds to its set for a slot, when it is truthy. */
  function TimeValue(s: Json): Option<Json> {
    if JsTruthy(TimeField(s)) then TimeField(s) else None
  }

  // ---------- status line after rendering ----------

  /** The status renderSlots sets: an empty store is reported before an
      empty filter result. */
  function StatusAfterRender(total: nat, shown: nat): string {
    if total == 0 then "No slots returned from the API."
    else if shown == 0 then "No slots match the selected filters."
    else "Loaded."
  }

  lemma StatusOfFilter(slots: seq<Json>, date: string, time: string, now: int)
    ensures var shown := |FilterSlots(slots, date, time, now)|;
      && (StatusAfterRender(|slots|, shown) == "Loaded." <==> shown > 0)
      && (StatusAfterRender(|slots|, shown) == "No slots returned from the API." <==> slots == [])
  {
  }

  // ---------- booking form ----------

  /** A character the class [^\s@] matches. */
  predicate Plain(c: char) { !IsSpace(c) && c != '@' }

  predicate AllPlain(s: string) { forall k :: 0 <= k < |s| ==> Plain(s[k]) }

  /** s matches ^[^\s@]+@[^\s@]+\.[^\s@]+$ : some '@' at i and '.' at j split
      it into three non-empty runs of plain characters. */
  predicate EmailPattern(s: string) {
    exists i, j :: 0 < i && i + 1 < j && j + 1 < |s| && s[i] == '@' && s[j] == '.'
      && AllPlain(s[..i]) && AllPlain(s[i + 1..j]) && AllPlain(s[j + 1..])
  }

  /** isValidEmail: the pattern matched against String(email).trim(), that
      is, the trimmed text has the shape EmailShape describes. */
  function IsValidEmail(email: string): (r: bool)
    ensures r <==> EmailShape(Trim(email))
  {
    EmailPatternShape(Trim(email));
    EmailPattern(Trim(email))
  }

  /** The same language described by its characters: no whitespace, exactly
      one '@', not first, and a '.' in what follows it that is neither its
      first nor the last character. */
  predicate EmailShape(s: string) {
    && (forall k :: 0 <= k < |s| ==> !IsSpace(s[k]))
    && exists i :: 0 < i < |s| && s[i] == '@'
         && (forall k :: 0 <= k < |s| && k != i ==> s[k] != '@')
         && (exists j :: i + 1 < j < |s| - 1 && s[j] == '.')
  }

  lemma EmailPatternShape(s: string)
    ensures EmailPattern(s) <==> EmailShape(s)
  {
    if EmailPattern(s) {
      PatternIsShape(s);
    }
    if EmailShape(s) {
      ShapeIsPattern(s);
    }
  }

  lemma PatternIsShape(s: string)
    requires EmailPattern(s)
    ensures EmailShape(s)
  {
    var i, j :| 0 < i && i + 1 < j && j + 1 < |s| && s[i] == '@' && s[j] == '.'
      && AllPlain(s[..i]) && AllPlain(s[i + 1..j]) && AllPlain(s[j + 1..]);
    forall k | 0 <= k < |s| && k != i ensures s[k] != '@' && !IsSpace(s[k]) {
      if k < i { assert s[k] == s[..i][k]; }
      else if k < j { assert s[k] == s[i + 1..j][k - i - 1]; }
      else if k > j { assert s[k] == s[j + 1..][k - j - 1]; }
    }
    assert !IsSpace(s[i]);
    assert i + 1 < j < |s| - 1 && s[j] == '.';
  }

  lemma ShapeIsPattern(s: string)
    requires EmailShape(s)
    ensures EmailPattern(s)
  {
    var i :| 0 < i < |s| && s[i] == '@'
       && (forall k :: 0 <= k < |s| && k != i ==> s[k] != '@')
       && (exists j :: i + 1 < j < |s| - 1 && s[j] == '.');
    var j :| i + 1 < j < |s| - 1 && s[j] == '.';
    assert AllPlain(s[..i]) by {
      forall k | 0 <= k < i ensures Plain(s[..i][k]) { assert s[..i][k] == s[k]; }
    }
    var mid, tail := s[i + 1..j], s[j + 1..];
    assert AllPlain(mid) by {
      forall k | 0 <= k < |mid| ensures Plain(mid[k]) { assert mid[k] == s[i + 1 + k]; }
    }
    assert AllPlain(tail) by {
      forall k | 0 <= k < |tail| ensures Plain(tail[k]) { assert tail[k] == s[j + 1 + k]; }
    }
  }

  /** canBook: a non-empty trimmed name and a valid trimmed email; trimming
      twice changes nothing, so this is the shape of the trimmed email. */
  function CanBook(name: string, email: string): (r: bool)
    ensures r <==> Trim(name) != "" && EmailShape(Trim(email))
  {
    TrimTight(email);
    Trim(name) != "" && IsValidEmail(Trim(email))
  }

  /** The hint updatePatientHint shows. */
  datatype Hint = NoHint | AskName | AskEmail

  function HintText(h: Hint): string {
    match h
    case NoHint => ""
    case AskName => "Please enter your full name to book an appointment."
    case AskEmail => "Please enter a valid email address to book an appointment."
  }

  /** updatePatientHint's choice. The hint is silent exactly when booking is
      possible or the form is blank; the name is asked for before the
      email. */
  function PatientHint(name: string, email: string): (r: Hint)
    ensures r == NoHint <==> CanBook(name, email) || (Trim(name) == "" && Trim(email) == "")
    ensures r == AskName <==> Trim(name) == "" && Trim(email) != ""
    ensures r == AskEmail <==> Trim(name) != "" && !CanBook(name, email)
  {
    var n, e := Trim(name), Trim(email);
    TrimTight(email);
    if n == "" && e == "" then NoHint
    else if n == "" then AskName
    else if !IsValidEmail(e) then AskEmail
    else NoHint
  }

  /** What a click on a slot's Book button leads to. */
  datatype BookClick =
    | Ignored
    | MissingDetails(hint: Hint)
    | Submit(payload: Json)

  /** The click handler: an empty id does nothing, incomplete details show
      the hint, otherwise {appointmentId, patientName, patientEmail} is sent
      with the trimmed name and email. */
  function OnBookClick(appointmentId: string, name: string, email: string): (r: BookClick)
    ensures r.Submit? <==> appointmentId != "" && CanBook(name, email)
    ensures r.Submit? ==> r.payload == JObj(map["appointmentId" := JStr(appointmentId),
                                                "patientName" := JStr(Trim(name)),
                                                "patientEmail" := JStr(Trim(email))])
  {
    if appointmentId == "" then Ignored
    else if !CanBook(name, email) then MissingDetails(PatientHint(name, email))
    else Submit(JObj(map["appointmentId" := JStr(appointmentId),
                         "patientName" := JStr(Trim(name)),
                         "patientEmail" := JStr(Trim(email))]))
  }

  // ---------- escapeHtml ----------

  /** escapeHtml: five replaceAll calls, '&' first. No character HTML would
      read as markup or as the end of a quoted attribute is left. */
  function EscapeHtml(s: string): (r: string)
    ensures '<' !in r && '>' !in r && '"' !in r && '\'' !in r
  {
    var amp, lt, gt, quot, apos := "&amp;", "&lt;", "&gt;", "&quot;", "&#039;";
    assert '<' !in gt && '<' !in quot && '<' !in apos && '>' !in quot && '>' !in apos && '"' !in apos;
    ReplaceChar(ReplaceChar(ReplaceChar(ReplaceChar(ReplaceChar(s, '&', amp), '<', lt), '>', gt), '"', quot), '\'', apos)
  }

  /** The entity each character is written as. */
  function EscapeChar(c: char): string {
    if c == '&' then "&amp;" else if c == '<' then "&lt;" else if c == '>' then "&gt;"
    else if c == '"' then "&quot;" else if c == '\'' then "&#039;" else [c]
  }

  function EscapeEach(s: string): string {
    if s == [] then [] else EscapeChar(s[0]) + EscapeEach(s[1..])
  }

  lemma ReplaceSingle(c: char, x: char, r: string)
    ensures ReplaceChar([c], x, r) == if c == x then r else [c]
  {
    assert [c][1..] == [];
  }

  /** A character other than c is left alone by the replacement of c. */
  lemma ReplaceOther(c: char, x: char, r: string)
    requires c != x
    ensures ReplaceChar([c], x, r) == [c]
  {
    ReplaceSingle(c, x, r);
  }

  lemma EscapeOne(c: char)
    ensures EscapeHtml([c]) == EscapeChar(c)
  {
    var amp, lt, gt, quot, apos := "&amp;", "&lt;", "&gt;", "&quot;", "&#039;";
    if c == '&' {
      ReplaceSingle(c, '&', amp);
      assert '<' !in amp && '>' !in amp && '"' !in amp && '\'' !in amp;
      ReplaceCharAbsent(amp, '<', lt);
      ReplaceCharAbsent(amp, '>', gt);
      ReplaceCharAbsent(amp, '"', quot);
      ReplaceCharAbsent(amp, '\'', apos);
    } else {
      ReplaceOther(c, '&', amp);
      if c == '<' {
        ReplaceSingle(c, '<', lt);
        assert '>' !in lt && '"' !in lt && '\'' !in lt;
        ReplaceCharAbsent(lt, '>', gt);
        ReplaceCharAbsent(lt, '"', quot);
        ReplaceCharAbsent(lt, '\'', apos);
      } else {
        ReplaceOther(c, '<', lt);
        if c == '>' {
          ReplaceSingle(c, '>', gt);
          assert '"' !in gt && '\'' !in gt;
          ReplaceCharAbsent(gt, '"', quot);
          ReplaceCharAbsent(gt, '\'', apos);
        } else {
          ReplaceOther(c, '>', gt);
          if c == '"' {
            ReplaceSingle(c, '"', quot);
            assert '\'' !in quot;
            ReplaceCharAbsent(quot, '\'', apos);
          } else {
            ReplaceOther(c, '"', quot);
            ReplaceSingle(c, '\'', apos);
          }
        }
      }
    }
  }

  /** Because '&' is replaced first, no entity is escaped a second time:
      escapeHtml writes each character independently. */
  lemma {:induction false} EscapeHtmlPerCharacter(s: string)
    ensures EscapeHtml(s) == EscapeEach(s)
  {
    if s != [] {
      var c, rest := s[0], s[1..];
      assert s == [c] + rest;
      EscapeHtmlConcat([c], rest);
      EscapeOne(c);
      EscapeHtmlPerCharacter(rest);
    }
  }

  lemma EscapeHtmlConcat(a: string, b: string)
    ensures EscapeHtml(a + b) == EscapeHtml(a) + EscapeHtml(b)
  {
    var a1, b1 := ReplaceChar(a, '&', "&amp;"), ReplaceChar(b, '&', "&amp;");
    ReplaceCharConcat(a, b, '&', "&amp;");
    var a2, b2 := ReplaceChar(a1, '<', "&lt;"), ReplaceChar(b1, '<', "&lt;");
    ReplaceCharConcat(a1, b1, '<', "&lt;");
    var a3, b3 := ReplaceChar(a2, '>', "&gt;"), ReplaceChar(b2, '>', "&gt;");
    ReplaceCharConcat(a2, b2, '>', "&gt;");
    var a4, b4 := ReplaceChar(a3, '"', "&quot;"), ReplaceChar(b3, '"', "&quot;");
    ReplaceCharConcat(a3, b3, '"', "&quot;");
    ReplaceCharConcat(a4, b4, '\'', "&#039;");
  }

  /** The escaped text holds none of the characters HTML would interpret. */
  lemma {:induction false} EscapedHasNoMarkup(s: string)
    ensures var e := EscapeEach(s); '<' !in e && '>' !in e && '"' !in e && '\'' !in e
  {
    if s != [] {
      EscapedHasNoMarkup(s[1..]);
      EscapeCharClean(s[0]);
      var h, t := EscapeChar(s[0]), EscapeEach(s[1..]);
      assert EscapeEach(s) == h + t;
      forall m | m in "<>\"'" ensures m !in h + t {
        assert m !in h && m !in t;
      }
    }
  }

  /** The replacement of one character carries no markup character. */
  lemma EscapeCharClean(c: char)
    ensures var e := EscapeChar(c); '<' !in e && '>' !in e && '"' !in e && '\'' !in e
  {
    var e := EscapeChar(c);
    if c == '&' { assert e == ['&', 'a', 'm', 'p', ';']; }
    else if c == '<' { assert e == ['&', 'l', 't', ';']; }
    else if c == '>' { assert e == ['&', 'g', 't', ';']; }
    else if c == '"' { assert e == ['&', 'q', 'u', 'o', 't', ';']; }
    else if c == '\'' { assert e == ['&', '#', '0', '3', '9', ';']; }
    else { assert e == [c]; }
  }
}
