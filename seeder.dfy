/** The seeding script (phase_1/python3/populate_db.py): for each of the
    thirteen days after today that is a weekday it puts nine AVAILABLE slots
    into the table, each only if its id is not there yet, and counts the puts
    that succeeded. */
module Seeder {
  import opened Text
  import opened Appointments

  /** The nine times of a working day. */
  const TimeSlots: seq<string> := [
    "09:00 AM", "10:00 AM", "11:00 AM",
    "12:00 PM", "01:00 PM", "02:00 PM",
    "03:00 PM", "04:00 PM", "05:00 PM"]

  /** A day the script considers: its date as %Y-%m-%d writes it and its
      weekday, Monday being 0. */
  datatype Day = Day(date: string, weekday: nat)

  predicate Weekend(d: Day) {
    d.weekday >= 5
  }

  /** The days range(1, 14) gives from today: thirteen consecutive days, so
      the weekday steps by one modulo seven, with ten-character dates that
      are all different. */
  predicate Calendar(days: seq<Day>) {
    && |days| == 13
    && (forall k :: 0 <= k < |days| ==> days[k].weekday < 7 && |days[k].date| == 10)
    && (forall k :: 0 <= k < |days| - 1 ==> days[k + 1].weekday == (days[k].weekday + 1) % 7)
    && (forall j, k :: 0 <= j < k < |days| ==> days[j].date != days[k].date)
  }

  /** The time with its colons and spaces removed. */
  function Compact(time: string): (r: string)
    ensures ':' !in r && ' ' !in r
  {
    RemoveChars(time, ':', ' ')
  }

  /** The id reads back as "slot-", the date, "-" and the compact time. */
  function SlotId(date: string, time: string): (r: string)
    ensures |r| == 6 + |date| + |Compact(time)|
    ensures r[..5] == "slot-" && r[5..5 + |date|] == date && r[5 + |date|] == '-'
    ensures r[6 + |date|..] == Compact(time)
  {
    "slot-" + date + "-" + Compact(time)
  }

  /** The item put for a date and a time. */
  function SlotItem(date: string, time: string): (r: Item)
    ensures IsAvailable(r)
    ensures "appointmentId" in r && r["appointmentId"] == SlotId(date, time)
    ensures "appointmentDate" in r && r["appointmentDate"] == date
    ensures "appointmentTime" in r && r["appointmentTime"] == time
  {
    map["appointmentId" := SlotId(date, time), "appointmentDate" := date,
        "appointmentTime" := time, "status" := "AVAILABLE"]
  }

  /** One put_item call of the inner loop. */
  datatype Put = Put(date: string, time: string)

  function PutId(p: Put): string {
    SlotId(p.date, p.time)
  }

  function DayPuts(date: string, times: seq<string>): (r: seq<Put>)
    ensures |r| == |times| && forall i :: 0 <= i < |times| ==> r[i] == Put(date, times[i])
  {
    seq(|times|, i requires 0 <= i < |times| => Put(date, times[i]))
  }

  /** The puts of the two loops, in order: weekend days are skipped. */
  function Puts(days: seq<Day>): seq<Put> {
    if days == [] then []
    else
      var last := days[|days| - 1];
      Puts(days[..|days| - 1]) + (if Weekend(last) then [] else DayPuts(last.date, TimeSlots))
  }

  /** How many of the days are weekdays. */
  function KeptDays(days: seq<Day>): nat {
    if days == [] then 0
    else KeptDays(days[..|days| - 1]) + (if Weekend(days[|days| - 1]) then 0 else 1)
  }

  /** The table during a run, and slots_created so far. */
  datatype Run = Run(items: map<string, Item>, created: nat)

  /** One put_item call and its except: a put whose id is present fails its
      condition, one whose id is in rejected fails for another reason, and
      both failures are swallowed; any other put adds its item and is
      counted. */
  function Attempt(r: Run, rejected: set<string>, p: Put): Run {
    if PutId(p) in r.items || PutId(p) in rejected then r
    else Run(r.items[PutId(p) := SlotItem(p.date, p.time)], r.created + 1)
  }

  /** The puts attempted one after the other from a starting state. */
  function SeedPuts(start: Run, rejected: set<string>, puts: seq<Put>): Run {
    if puts == [] then start
    else Attempt(SeedPuts(start, rejected, puts[..|puts| - 1]), rejected, puts[|puts| - 1])
  }

  /** populate_available_slots on the given days: every item already
      stored is kept as it was, and the count is the number of ids added, at
      most one per put. */
  function Seed(items: map<string, Item>, rejected: set<string>, days: seq<Day>): (r: Run)
    ensures forall id :: id in items ==> id in r.items && r.items[id] == items[id]
    ensures r.created == |r.items.Keys - items.Keys| <= |Puts(days)|
  {
    SeedKeeps(Run(items, 0), rejected, Puts(days));
    SeedCount(Run(items, 0), rejected, Puts(days));
    SeedPuts(Run(items, 0), rejected, Puts(days))
  }

  /** One attempt keeps every item and adds at most the put's own item. */
  lemma AttemptKeeps(prev: Run, rejected: set<string>, p: Put)
    ensures var r := Attempt(prev, rejected, p);
      && (forall id :: id in prev.items ==> id in r.items && r.items[id] == prev.items[id])
      && (forall id :: id in r.items && id !in prev.items ==>
            id == PutId(p) && id !in rejected && r.items[id] == SlotItem(p.date, p.time))
  {
  }

  /** The run never overwrites an item, and every item it adds is the
      AVAILABLE item of one of its puts, under that put's id. */
  lemma SeedKeeps(start: Run, rejected: set<string>, puts: seq<Put>)
    ensures var r := SeedPuts(start, rejected, puts);
      && (forall id :: id in start.items ==> id in r.items && r.items[id] == start.items[id])
      && (forall id :: id in r.items && id !in start.items ==>
            id !in rejected
            && AddedBy(id, r.items[id], puts))
  {
    SeedPreserves(start, rejected, puts);
    SeedAdds(start, rejected, puts);
  }

  lemma {:induction false} SeedPreserves(start: Run, rejected: set<string>, puts: seq<Put>)
    ensures var r := SeedPuts(start, rejected, puts);
      forall id :: id in start.items ==> id in r.items && r.items[id] == start.items[id]
  {
    if puts != [] {
      var front := puts[..|puts| - 1];
      SeedPreserves(start, rejected, front);
      AttemptKeeps(SeedPuts(start, rejected, front), rejected, puts[|puts| - 1]);
    }
  }

  /** item is the item of one of the puts, under that put's id. */
  predicate AddedBy(id: string, item: Item, puts: seq<Put>) {
    exists i :: 0 <= i < |puts| && PutId(puts[i]) == id && item == SlotItem(puts[i].date, puts[i].time)
  }

  lemma AddedByPrefix(id: string, item: Item, puts: seq<Put>, n: nat)
    requires n <= |puts| && AddedBy(id, item, puts[..n])
    ensures AddedBy(id, item, puts)
  {
    var i :| 0 <= i < n && PutId(puts[..n][i]) == id && item == SlotItem(puts[..n][i].date, puts[..n][i].time);
    assert puts[..n][i] == puts[i];
  }

  lemma {:induction false} SeedAdds(start: Run, rejected: set<string>, puts: seq<Put>)
    ensures var r := SeedPuts(start, rejected, puts);
      forall id :: id in r.items && id !in start.items ==>
        id !in rejected
        && AddedBy(id, r.items[id], puts)
  {
    if puts != [] {
      var front := puts[..|puts| - 1];
      var last := puts[|puts| - 1];
      SeedAdds(start, rejected, front);
      var prev := SeedPuts(start, rejected, front);
      AttemptKeeps(prev, rejected, last);
      var r := SeedPuts(start, rejected, puts);
      assert r == Attempt(prev, rejected, last);
      forall id | id in r.items && id !in start.items
        ensures id !in rejected
        ensures AddedBy(id, r.items[id], puts)
      {
        if id in prev.items {
          assert r.items[id] == prev.items[id];
          AddedByPrefix(id, r.items[id], puts, |puts| - 1);
        } else {
          assert PutId(puts[|puts| - 1]) == id;
        }
      }
    }
  }

  /** Adding an absent key adds one to the keys beyond the original ones. */
  lemma AddedKey<K, V>(items: map<K, V>, prev: map<K, V>, id: K, item: V)
    requires items.Keys <= prev.Keys && id !in prev
    ensures items.Keys <= prev[id := item].Keys
    ensures |prev[id := item].Keys - items.Keys| == |prev.Keys - items.Keys| + 1
  {
    GrownKeys(items, prev, id, item);
    OneMore(prev.Keys - items.Keys, id);
  }

  lemma GrownKeys<K, V>(items: map<K, V>, prev: map<K, V>, id: K, item: V)
    requires items.Keys <= prev.Keys && id !in prev
    ensures items.Keys <= prev[id := item].Keys
    ensures prev[id := item].Keys - items.Keys == (prev.Keys - items.Keys) + {id}
    ensures id !in prev.Keys - items.Keys
  {
    assert prev[id := item].Keys == prev.Keys + {id};
  }

  lemma OneMore<K>(s: set<K>, x: K)
    requires x !in s
    ensures |s + {x}| == |s| + 1
  {
  }

  /** slots_created grows by the number of ids the run added, which is at
      most the number of puts. */
  lemma {:induction false} SeedCount(start: Run, rejected: set<string>, puts: seq<Put>)
    ensures var r := SeedPuts(start, rejected, puts);
      && start.items.Keys <= r.items.Keys
      && r.created == start.created + |r.items.Keys - start.items.Keys|
      && r.created <= start.created + |puts|
  {
    if puts != [] {
      var front := puts[..|puts| - 1];
      var p := puts[|puts| - 1];
      SeedCount(start, rejected, front);
      var prev := SeedPuts(start, rejected, front);
      if PutId(p) !in prev.items && PutId(p) !in rejected {
        AddedKey(start.items, prev.items, PutId(p), SlotItem(p.date, p.time));
      }
    }
  }

  /** After a run every put's id is in the table, unless it was rejected. */
  lemma {:induction false} SeedCovers(start: Run, rejected: set<string>, puts: seq<Put>)
    ensures var r := SeedPuts(start, rejected, puts);
      forall i :: 0 <= i < |puts| ==> PutId(puts[i]) in r.items || PutId(puts[i]) in rejected
  {
    if puts != [] {
      var front := puts[..|puts| - 1];
      SeedCovers(start, rejected, front);
      var prev := SeedPuts(start, rejected, front);
      SeedKeeps(prev, rejected, [puts[|puts| - 1]]);
      var r := SeedPuts(start, rejected, puts);
      forall i | 0 <= i < |front|
        ensures PutId(puts[i]) in r.items || PutId(puts[i]) in rejected
      {
        assert front[i] == puts[i];
      }
    }
  }

  /** On a table that already holds every id the run puts, every put fails
      its condition: nothing changes and nothing is counted. */
  lemma {:induction false} SeedNoOp(start: Run, rejected: set<string>, puts: seq<Put>)
    requires forall i :: 0 <= i < |puts| ==> PutId(puts[i]) in start.items
    ensures SeedPuts(start, rejected, puts) == start
  {
    if puts != [] {
      var front := puts[..|puts| - 1];
      forall i | 0 <= i < |front| ensures PutId(front[i]) in start.items {
        assert front[i] == puts[i];
      }
      SeedNoOp(start, rejected, front);
    }
  }

  /** Running the script a second time, after a run in which no put failed
      for another reason, creates nothing and leaves the table as it was. */
  lemma SeedIdempotent(items: map<string, Item>, rejected: set<string>, days: seq<Day>)
    ensures var first := Seed(items, {}, days);
      Seed(first.items, rejected, days) == Run(first.items, 0)
  {
    SeedCovers(Run(items, 0), {}, Puts(days));
    SeedNoOp(Run(Seed(items, {}, days).items, 0), rejected, Puts(days));
  }

  /** Puts whose ids are pairwise different. */
  predicate DistinctIds(puts: seq<Put>) {
    forall i, j :: 0 <= i < j < |puts| ==> PutId(puts[i]) != PutId(puts[j])
  }

  /** When no id is present or rejected and the ids are all different,
      every put succeeds. */
  lemma {:induction false} SeedFresh(start: Run, rejected: set<string>, puts: seq<Put>)
    requires DistinctIds(puts)
    requires forall i :: 0 <= i < |puts| ==> PutId(puts[i]) !in start.items && PutId(puts[i]) !in rejected
    ensures SeedPuts(start, rejected, puts).created == start.created + |puts|
  {
    if puts != [] {
      var front := puts[..|puts| - 1];
      var last := puts[|puts| - 1];
      forall i, j | 0 <= i < j < |front| ensures PutId(front[i]) != PutId(front[j]) {
        assert front[i] == puts[i] && front[j] == puts[j];
      }
      forall i | 0 <= i < |front| ensures PutId(front[i]) !in start.items && PutId(front[i]) !in rejected {
        assert front[i] == puts[i];
      }
      SeedFresh(start, rejected, front);
      SeedKeeps(start, rejected, front);
      forall i | 0 <= i < |front| ensures PutId(front[i]) != PutId(last) {
        assert front[i] == puts[i];
      }
    }
  }

  /** Puts attempted after other puts continue from the state those left. */
  lemma {:induction false} SeedAppend(start: Run, rejected: set<string>, a: seq<Put>, b: seq<Put>)
    ensures SeedPuts(start, rejected, a + b) == SeedPuts(SeedPuts(start, rejected, a), rejected, b)
    decreases |b|
  {
    if b == [] {
      assert a + b == a;
    } else {
      var ab := a + b;
      assert ab[..|ab| - 1] == a + b[..|b| - 1] && ab[|ab| - 1] == b[|b| - 1];
      SeedAppend(start, rejected, a, b[..|b| - 1]);
    }
  }

  /** Nine puts for every weekday. */
  lemma {:induction false} PutsLength(days: seq<Day>)
    ensures |Puts(days)| == |TimeSlots| * KeptDays(days)
  {
    if days != [] {
      PutsLength(days[..|days| - 1]);
    }
  }

  lemma PutsStep(days: seq<Day>, d: nat)
    requires d < |days|
    ensures Puts(days[..d + 1]) == Puts(days[..d]) + (if Weekend(days[d]) then [] else DayPuts(days[d].date, TimeSlots))
  {
    var prefix := days[..d + 1];
    assert prefix[..d] == days[..d] && prefix[d] == days[d];
  }

  /** The put is dated by one of the days. */
  predicate DatedBy(p: Put, days: seq<Day>) {
    exists k :: 0 <= k < |days| && p.date == days[k].date
  }

  lemma DatedByPrefix(p: Put, days: seq<Day>, n: nat)
    requires n <= |days| && DatedBy(p, days[..n])
    ensures DatedBy(p, days)
  {
    var k :| 0 <= k < n && p.date == days[..n][k].date;
    assert days[..n][k] == days[k];
  }

  /** Every put is dated by one of the days and timed by one of the nine
      times. */
  lemma {:induction false} PutsDates(days: seq<Day>)
    ensures forall i :: 0 <= i < |Puts(days)| ==> DatedBy(Puts(days)[i], days) && Puts(days)[i].time in TimeSlots
  {
    if days != [] {
      var n := |days| - 1;
      var front, last := days[..n], days[n];
      PutsDates(front);
      var fp := Puts(front);
      var tail: seq<Put> := if Weekend(last) then [] else DayPuts(last.date, TimeSlots);
      assert Puts(days) == fp + tail;
      forall i | 0 <= i < |Puts(days)|
        ensures DatedBy(Puts(days)[i], days) && Puts(days)[i].time in TimeSlots
      {
        if i < |fp| {
          assert Puts(days)[i] == fp[i];
          DatedByPrefix(fp[i], days, n);
        } else {
          var t := i - |fp|;
          assert Puts(days)[i] == tail[t];
          assert tail != [] && tail == DayPuts(last.date, TimeSlots);
          assert tail[t] == Put(last.date, TimeSlots[t]);
          assert Puts(days)[i].date == days[n].date;
        }
      }
    }
  }

  /** The id gives back its date (of a fixed length) and its compact time. */
  lemma SlotIdInjective(d1: string, t1: string, d2: string, t2: string)
    requires |d1| == |d2|
    ensures SlotId(d1, t1) == SlotId(d2, t2) ==> d1 == d2 && Compact(t1) == Compact(t2)
  {
    var s1, s2 := SlotId(d1, t1), SlotId(d2, t2);
    assert d1 == s1[5..5 + |d1|] && d2 == s2[5..5 + |d2|];
    assert Compact(t1) == s1[6 + |d1|..] && Compact(t2) == s2[6 + |d2|..];
  }

  /** A time written hh:mm XM: eight characters, the colon and the space in
      their places and no other colon or space. */
  predicate TimeShaped(t: string) {
    && |t| == 8 && t[2] == ':' && t[5] == ' '
    && t[0] != ':' && t[0] != ' ' && t[1] != ':' && t[1] != ' '
    && t[3] != ':' && t[3] != ' ' && t[4] != ':' && t[4] != ' '
    && t[6] != ':' && t[6] != ' ' && t[7] != ':' && t[7] != ' '
  }

  /** Such a time compacts to its six other characters. */
  lemma CompactShape(t: string)
    requires TimeShaped(t)
    ensures Compact(t) == [t[0], t[1], t[3], t[4], t[6], t[7]]
  {
    assert t[7..][0] == t[7] && t[7..][1..] == [];
    assert RemoveChars(t[7..], ':', ' ') == [t[7]];
    assert t[6..][0] == t[6] && t[6..][1..] == t[7..];
    assert RemoveChars(t[6..], ':', ' ') == [t[6], t[7]];
    assert t[5..][0] == t[5] && t[5..][1..] == t[6..];
    assert RemoveChars(t[5..], ':', ' ') == [t[6], t[7]];
    assert t[4..][0] == t[4] && t[4..][1..] == t[5..];
    assert RemoveChars(t[4..], ':', ' ') == [t[4], t[6], t[7]];
    assert t[3..][0] == t[3] && t[3..][1..] == t[4..];
    assert RemoveChars(t[3..], ':', ' ') == [t[3], t[4], t[6], t[7]];
    assert t[2..][0] == t[2] && t[2..][1..] == t[3..];
    assert RemoveChars(t[2..], ':', ' ') == [t[3], t[4], t[6], t[7]];
    assert t[1..][0] == t[1] && t[1..][1..] == t[2..];
    assert RemoveChars(t[1..], ':', ' ') == [t[1], t[3], t[4], t[6], t[7]];
  }

  /** The position in TimeSlots of a time, read off its hour digits. */
  function SlotIndex(t: string): int
    requires |t| >= 2
  {
    var hour := (t[0] as int - '0' as int) * 10 + (t[1] as int - '0' as int);
    if hour >= 9 then hour - 9 else hour + 3
  }

  /** Every time is shaped hh:mm XM and its hour digits locate it. */
  lemma TimeSlotsShaped()
    ensures forall i :: 0 <= i < |TimeSlots| ==> TimeShaped(TimeSlots[i]) && SlotIndex(TimeSlots[i]) == i
  {
  }

  /** The nine times compact to nine different texts. */
  lemma CompactTimesDistinct()
    ensures forall i, j :: 0 <= i < j < |TimeSlots| ==> Compact(TimeSlots[i]) != Compact(TimeSlots[j])
  {
    TimeSlotsShaped();
    forall i | 0 <= i < |TimeSlots|
      ensures |Compact(TimeSlots[i])| >= 2 && SlotIndex(Compact(TimeSlots[i])) == i
    {
      CompactShape(TimeSlots[i]);
    }
  }

  /** With distinct ten-character dates the ids of all the puts are
      different. */
  lemma {:induction false} CalendarIdsDistinct(days: seq<Day>)
    requires forall k :: 0 <= k < |days| ==> |days[k].date| == 10
    requires forall j, k :: 0 <= j < k < |days| ==> days[j].date != days[k].date
    ensures DistinctIds(Puts(days))
  {
    if days != [] {
      var front := days[..|days| - 1];
      var last := days[|days| - 1];
      CalendarIdsDistinct(front);
      PutsDates(front);
      CompactTimesDistinct();
      var puts := Puts(days);
      var n := |Puts(front)|;
      var tail: seq<Put> := if Weekend(last) then [] else DayPuts(last.date, TimeSlots);
      assert puts == Puts(front) + tail;
      forall i, j | 0 <= i < j < |puts| ensures PutId(puts[i]) != PutId(puts[j]) {
        if j < n {
          assert puts[i] == Puts(front)[i] && puts[j] == Puts(front)[j];
        } else if i < n {
          assert puts[i] == Puts(front)[i] && DatedBy(puts[i], front);
          var k :| 0 <= k < |front| && puts[i].date == front[k].date;
          assert puts[j] == tail[j - n] && tail == DayPuts(last.date, TimeSlots);
          assert front[k] == days[k] && last == days[|days| - 1];
          DifferentDates(puts[i], puts[j]);
        } else {
          assert puts[i] == tail[i - n] && puts[j] == tail[j - n] && tail == DayPuts(last.date, TimeSlots);
          assert puts[i].time == TimeSlots[i - n] && puts[j].time == TimeSlots[j - n];
          DifferentTimes(puts[i], puts[j]);
        }
      }
    }
  }

  /** Puts on two different days of the same date length have different ids. */
  lemma DifferentDates(p: Put, q: Put)
    requires |p.date| == |q.date| && p.date != q.date
    ensures PutId(p) != PutId(q)
  {
    SlotIdInjective(p.date, p.time, q.date, q.time);
  }

  /** Puts whose times differ once compacted have different ids. */
  lemma DifferentTimes(p: Put, q: Put)
    requires |p.date| == |q.date| && Compact(p.time) != Compact(q.time)
    ensures PutId(p) != PutId(q)
  {
    SlotIdInjective(p.date, p.time, q.date, q.time);
  }

  /** The weekdays among n days starting on weekday w. */
  function WeekdaysFrom(w: nat, n: nat): nat {
    if n == 0 then 0 else WeekdaysFrom(w, n - 1) + (if (w + n - 1) % 7 < 5 then 1 else 0)
  }

  lemma {:induction false} WeekdayStep(days: seq<Day>, k: nat)
    requires Calendar(days) && k < 13
    ensures days[k].weekday == (days[0].weekday + k) % 7
  {
    if k > 0 {
      WeekdayStep(days, k - 1);
    }
  }

  lemma {:induction false} KeptPrefix(days: seq<Day>, n: nat)
    requires Calendar(days) && n <= 13
    ensures KeptDays(days[..n]) == WeekdaysFrom(days[0].weekday, n)
  {
    if n > 0 {
      var prefix := days[..n];
      assert prefix[..n - 1] == days[..n - 1] && prefix[n - 1] == days[n - 1];
      KeptPrefix(days, n - 1);
      WeekdayStep(days, n - 1);
    }
  }

  /** Thirteen consecutive days hold nine or ten weekdays. */
  lemma CalendarKeptDays(days: seq<Day>)
    requires Calendar(days)
    ensures KeptDays(days) == 9 || KeptDays(days) == 10
  {
    assert days[..13] == days;
    KeptPrefix(days, 13);
    ThirteenDays(days[0].weekday);
  }

  /** Thirteen days from Monday or Sunday hold ten weekdays, from any other
      day nine; one lemma per starting day keeps each computation small. */
  lemma ThirteenDays(w: nat)
    requires w < 7
    ensures WeekdaysFrom(w, 13) == if w == 0 || w == 6 then 10 else 9
  {
    if w == 0 { FromMonday(); }
    else if w == 1 { FromTuesday(); }
    else if w == 2 { FromWednesday(); }
    else if w == 3 { FromThursday(); }
    else if w == 4 { FromFriday(); }
    else if w == 5 { FromSaturday(); }
    else { FromSunday(); }
  }

  lemma FromMonday() ensures WeekdaysFrom(0, 13) == 10 {}
  lemma FromTuesday() ensures WeekdaysFrom(1, 13) == 9 {}
  lemma FromWednesday() ensures WeekdaysFrom(2, 13) == 9 {}
  lemma FromThursday() ensures WeekdaysFrom(3, 13) == 9 {}
  lemma FromFriday() ensures WeekdaysFrom(4, 13) == 9 {}
  lemma FromSaturday() ensures WeekdaysFrom(5, 13) == 9 {}
  lemma FromSunday() ensures WeekdaysFrom(6, 13) == 10 {}

  /** On an empty table with no failures the script creates nine slots for
      each weekday of the thirteen days: 81 or 90. */
  lemma FreshDatabase(days: seq<Day>)
    requires Calendar(days)
    ensures Seed(map[], {}, days).created == |TimeSlots| * KeptDays(days)
    ensures Seed(map[], {}, days).created == 81 || Seed(map[], {}, days).created == 90
  {
    CalendarIdsDistinct(days);
    SeedFresh(Run(map[], 0), {}, Puts(days));
    PutsLength(days);
    CalendarKeptDays(days);
  }

  /** A worked id: the date, then the time without its colon and space. */
  lemma SlotIdExample(date: string, time: string)
    requires date == "2025-01-06" && time == "09:00 AM"
    ensures SlotId(date, time) == "slot-2025-01-06-0900AM"
  {
    assert TimeShaped(time);
    CompactShape(time);
  }

  /** The inner loop: one put per time, counted on the running total. */
  method PutDay(table: Table, date: string, times: seq<string>, rejected: set<string>, before: nat)
    returns (created: nat)
    modifies table
    ensures Run(table.items, created) == SeedPuts(Run(old(table.items), before), rejected, DayPuts(date, times))
  {
    created := before;
    for t := 0 to |times|
      invariant Run(table.items, created) == SeedPuts(Run(old(table.items), before), rejected, DayPuts(date, times[..t]))
    {
      var timeSlot := times[t];
      var slotId := SlotId(date, timeSlot);
      ghost var puts := DayPuts(date, times[..t + 1]);
      assert puts[..|puts| - 1] == DayPuts(date, times[..t]) && puts[|puts| - 1] == Put(date, timeSlot);
      if slotId !in table.items && slotId !in rejected {
        table.items := table.items[slotId := SlotItem(date, timeSlot)];
        created := created + 1;
      }
    }
    assert times[..|times|] == times;
  }

  /** The outer loop over the days, skipping weekends, on the table updated
      in place. */
  method Populate(table: Table, days: seq<Day>, rejected: set<string>) returns (created: nat)
    modifies table
    ensures Run(table.items, created) == Seed(old(table.items), rejected, days)
  {
    created := 0;
    for d := 0 to |days|
      invariant Run(table.items, created) == SeedPuts(Run(old(table.items), 0), rejected, Puts(days[..d]))
    {
      ghost var start := Run(old(table.items), 0);
      ghost var done := Puts(days[..d]);
      PutsStep(days, d);
      if Weekend(days[d]) {
        assert Puts(days[..d + 1]) == done + [] == done;
        continue;
      }
      ghost var day := DayPuts(days[d].date, TimeSlots);
      assert Puts(days[..d + 1]) == done + day;
      created := PutDay(table, days[d].date, TimeSlots, rejected, created);
      SeedAppend(start, rejected, done, day);
    }
    assert days[..|days|] == days;
  }
}
