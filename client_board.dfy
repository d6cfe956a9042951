/** The state of the phase-1 booking page (phase_1/frontend/app.js): the
    one-second clock cache, the memoised filter, the time options, the status
    line and the single-flight refresh. The page's handlers are modelled as
    transitions of a BoardState value, and the class Board carries the same
    fields and updates them in place, each method proved against its
    transition. The refresh is split at its awaits: RefreshClicked runs
    fetchSlots up to the network request, ResponseArrived up to the reading
    of the body (or of the error text of a non-OK reply), BodyRead and
    TextRead to the end. Handlers of other events may run between those
    steps. A handler that throws (a null slot, a date that is not a string)
    stops where the exception is raised: what it changed before stays
    changed, nothing after it happens. The debug console log of
    isAppointmentInPast is not modelled, and neither is the RangeError its
    toISOString() raises on an Invalid Date while the debug panel is open. */
module ClientBoard {
  import opened Outcomes
  import opened Text
  import opened JsonValues
  import opened Sorting
  import opened ClientRules

  // ---------- getCurrentTime ----------

  /** The cached reading after getCurrentTime at clock reading now: it is
      replaced only when more than 1000 ms have passed since the last update. */
  function Tick(last: int, now: int): (r: int)
    ensures r == last || r == now
    ensures r == now <== now - last > 1000
    ensures r == last <== now - last <= 1000
  {
    if now - last > 1000 then now else last
  }

  /** With a clock that does not run backwards, the reading getCurrentTime
      returns is never more than a second behind the clock, and never ahead
      of it. */
  lemma TickFreshness(last: int, now: int)
    requires last <= now
    ensures last <= Tick(last, now) <= now
    ensures now - Tick(last, now) <= 1000
  {
  }

  // ---------- applyFilters and clearFilterCache ----------

  /** filteredSlotsCache and lastFilterState; None is null. */
  datatype Memo = Memo(result: Option<seq<Json>>, key: Option<string>)

  /** The memo after clearFilterCache. */
  const Cleared: Memo := Memo(None, None)

  /** applyFilters: the stored list is returned when there is one and the
      stored key is the current key (date, time, list length and cached
      clock); otherwise the list is filtered and stored under that key. None
      when the filter throws, which leaves the memo as it was. */
  function MemoFilter(m: Memo, slots: seq<Json>, date: string, time: string, ms: int): (r: (Option<seq<Json>>, Memo))
    ensures r.0.Some? ==> r.1 == Memo(r.0, Some(FilterKey(date, time, |slots|, ms)))
    ensures r.0.None? ==> r.1 == m && ApplyFilter(slots, date, time, ms).None?
    ensures m.result.None? ==> r.0 == ApplyFilter(slots, date, time, ms)
    ensures m.result.Some? && m.key == Some(FilterKey(date, time, |slots|, ms)) ==> r.0 == m.result
  {
    var key := FilterKey(date, time, |slots|, ms);
    if m.result.Some? && m.key == Some(key) then (m.result, m)
    else match ApplyFilter(slots, date, time, ms)
      case None => (None, m)
      case Some(filtered) => (Some(filtered), Memo(Some(filtered), Some(key)))
  }

  /** The memo holds, if anything, the filtered list of these slots for the
      filter state and clock reading its key encodes; it can only hold one
      when the filter does not throw on them. */
  ghost predicate Coherent(m: Memo, slots: seq<Json>) {
    && (m.result.Some? <==> m.key.Some?)
    && (m.result.Some? ==> !AnyThrows(slots))
    && (m.result.Some? ==>
          exists d, t, ms :: Bar !in d && m.key.value == FilterKey(d, t, |slots|, ms)
                             && m.result.value == FilterSlots(slots, d, t, ms))
  }

  /** A coherent memo never answers with a stale list: applyFilters returns
      exactly what filtering the slots afresh returns (None when that
      throws), and the memo stays coherent. */
  lemma MemoFilterCorrect(m: Memo, slots: seq<Json>, date: string, time: string, ms: int)
    requires Coherent(m, slots) && Bar !in date
    ensures MemoFilter(m, slots, date, time, ms).0 == ApplyFilter(slots, date, time, ms)
    ensures Coherent(MemoFilter(m, slots, date, time, ms).1, slots)
  {
    var key := FilterKey(date, time, |slots|, ms);
    if m.result.Some? && m.key == Some(key) {
      var d, t, n :| Bar !in d && m.key.value == FilterKey(d, t, |slots|, n)
                    && m.result.value == FilterSlots(slots, d, t, n);
      FilterKeyInjective(d, t, |slots|, n, date, time, |slots|, ms);
    } else {
      var r := MemoFilter(m, slots, date, time, ms).1;
      if r.result.Some? {
        assert r.key.value == FilterKey(date, time, |slots|, ms);
      }
    }
  }

  // ---------- uniqueTimes and renderTimeOptions ----------

  /** The Set uniqueTimes fills, in insertion order: every truthy
      appointmentTime value, at its first occurrence (for the lists it
      returns on, which hold no null). */
  function DistinctTimes(slots: seq<Json>): (r: seq<Json>)
    ensures NoDuplicates(r)
    ensures forall v :: v in r <==> exists k :: 0 <= k < |slots| && TimeValue(slots[k]) == Some(v)
  {
    if slots == [] then []
    else
      var front := slots[..|slots| - 1];
      var p := DistinctTimes(front);
      var t := TimeValue(slots[|slots| - 1]);
      assert forall k :: 0 <= k < |front| ==> front[k] == slots[k];
      if t.Some? && t.value !in p then
        var r := p + [t.value];
        assert forall i :: 0 <= i < |p| ==> r[i] == p[i];
        r
      else p
  }

  /** The options uniqueTimes returns: those values sorted by timeToMinutes. */
  function TimeOptions(slots: seq<Json>): (r: seq<Json>)
    ensures NoDuplicates(r)
    ensures forall v :: v in r <==> exists k :: 0 <= k < |slots| && TimeValue(slots[k]) == Some(v)
    ensures SortedBy(r, TimeLe)
  {
    TimeLeTotalPreorder();
    var added := DistinctTimes(slots);
    var r := SortBy(added, TimeLe);
    PermutationKeepsNoDuplicates(added, r);
    assert forall v :: v in r <==> v in added by {
      forall v ensures v in r <==> v in added {
        assert v in r <==> v in multiset(r);
        assert v in added <==> v in multiset(added);
      }
    }
    r
  }

  /** uniqueTimes: a loop adds each truthy time to a set, which is then
      sorted. None when it reaches a null slot, whose appointmentTime cannot
      be read. */
  method UniqueTimes(slots: seq<Json>) returns (times: Option<seq<Json>>)
    ensures times.None? <==> JNull in slots
    ensures times.Some? ==> times.value == TimeOptions(slots)
  {
    var added: seq<Json> := [];
    for i := 0 to |slots|
      invariant added == DistinctTimes(slots[..i])
      invariant JNull !in slots[..i]
    {
      if slots[i] == JNull {
        return None;
      }
      assert slots[..i + 1][..i] == slots[..i];
      var t := TimeValue(slots[i]);
      if t.Some? && t.value !in added {
        added := added + [t.value];
      }
    }
    assert slots[..|slots|] == slots;
    TimeLeTotalPreorder();
    times := Some(SortBy(added, TimeLe));
  }

  /** The time filter renderTimeOptions leaves: the current value when it is
      set and is one of the options (a string option, by strict equality),
      otherwise "Any time". */
  function KeptTimeFilter(current: string, times: seq<Json>): (r: string)
    ensures r == "" || (r == current && JStr(current) in times)
    ensures current != "" && JStr(current) in times ==> r == current
  {
    if current != "" && JStr(current) in times then current else ""
  }

  /** The slots of the chosen date, or all of them when no date is set. */
  function SlotsOnDate(slots: seq<Json>, date: string): (r: seq<Json>)
    ensures forall x :: x in r ==> x in slots
    ensures date == "" ==> r == slots
    ensures date != "" ==> forall x :: multiset(r)[x] == (if DateField(x) == Some(JStr(date)) then multiset(slots)[x] else 0)
  {
    if date == "" then slots else OnDate(slots, date)
  }

  function OnDate(slots: seq<Json>, date: string): (r: seq<Json>)
    ensures forall x :: multiset(r)[x] == (if DateField(x) == Some(JStr(date)) then multiset(slots)[x] else 0)
    ensures forall x :: x in r ==> x in slots
  {
    if slots == [] then []
    else
      assert slots == [slots[0]] + slots[1..];
      (if DateField(slots[0]) == Some(JStr(date)) then [slots[0]] else []) + OnDate(slots[1..], date)
  }

  // ---------- the page state ----------

  /** Where fetchSlots is suspended: not running, awaiting the response,
      awaiting res.json(), or awaiting res.text() of a non-OK reply. */
  datatype Phase = Idle | AwaitingResponse | AwaitingBody | AwaitingText

  /** The outcome of the slot request: fetch rejected, or a response with its
      status code and the X-Cache header (header lookup is case-insensitive;
      None when absent). */
  datatype Response = NetworkError | Http(status: int, xCacheHeader: Option<string>)

  /** The page state: state.allSlots, state.xCache and state.loading, the
      clock cache, the filter memo, the two filter inputs, the time options,
      the status and count lines and the rendered slots. */
  datatype BoardState = BoardState(
    allSlots: seq<Json>,
    xCache: Option<string>,
    loading: bool,
    phase: Phase,
    currentTime: int,
    lastTimeUpdate: int,
    filteredSlotsCache: Option<seq<Json>>,
    lastFilterState: Option<string>,
    dateFilter: string,
    timeFilter: string,
    timeOptions: seq<Json>,
    statusText: string,
    countText: string,
    shown: seq<Json>)

  function MemoOf(s: BoardState): Memo { Memo(s.filteredSlotsCache, s.lastFilterState) }

  /** What holds of every state the page reaches: loading is set exactly
      while fetchSlots is suspended, the clock cache is one reading, the date
      input holds no '|' and the filter memo is coherent with the slots. */
  ghost predicate StateValid(s: BoardState) {
    && (s.loading <==> s.phase != Idle)
    && s.currentTime == s.lastTimeUpdate
    && Bar !in s.dateFilter
    && Coherent(MemoOf(s), s.allSlots)
  }

  /** The state init leaves before it starts the first refresh: no slots,
      one clock reading, today's date in the date filter. */
  function Initial(now: int, today: string): (r: BoardState)
    ensures Bar !in today ==> StateValid(r)
  {
    BoardState([], None, false, Idle, now, now, None, None, today, "", [], "", "", [])
  }

  function ClearCache(s: BoardState): (r: BoardState)
    ensures MemoOf(r) == Cleared
  {
    s.(filteredSlotsCache := None, lastFilterState := None)
  }

  /** "Showing N slot(s)". */
  function CountText(n: nat): string {
    "Showing " + NatToDecimal(n) + " slot" + (if n == 1 then "" else "s")
  }

  /** renderSlots: applyFilters on the stored slots, then the count line, the
      status line and the rendered list. When applyFilters throws, only the
      clock reading it took has changed. */
  function Render(s: BoardState, now: int): (r: BoardState)
    ensures r.allSlots == s.allSlots && r.dateFilter == s.dateFilter && r.timeFilter == s.timeFilter
    ensures r.timeOptions == s.timeOptions && r.phase == s.phase && r.loading == s.loading
    ensures r.currentTime == r.lastTimeUpdate == Tick(s.lastTimeUpdate, now)
  {
    var t := Tick(s.lastTimeUpdate, now);
    var fm := MemoFilter(MemoOf(s), s.allSlots, s.dateFilter, s.timeFilter, t);
    match fm.0
    case None => s.(currentTime := t, lastTimeUpdate := t)
    case Some(filtered) =>
      s.(currentTime := t, lastTimeUpdate := t,
         filteredSlotsCache := fm.1.result, lastFilterState := fm.1.key,
         shown := filtered, statusText := StatusAfterRender(|s.allSlots|, |filtered|),
         countText := CountText(|filtered|))
  }

  /** In a valid state renderSlots shows exactly the slots that pass the
      filters at the refreshed clock reading, with the status and count lines
      that describe them; when the filter throws on some slot, the shown list
      and both lines stay as they were. */
  lemma RenderFresh(s: BoardState, now: int)
    requires StateValid(s)
    ensures StateValid(Render(s, now))
    ensures var r, t := Render(s, now), Tick(s.lastTimeUpdate, now);
      !AnyThrows(s.allSlots) ==>
        && r.shown == FilterSlots(s.allSlots, s.dateFilter, s.timeFilter, t)
        && r.statusText == StatusAfterRender(|s.allSlots|, |r.shown|) && r.countText == CountText(|r.shown|)
    ensures AnyThrows(s.allSlots) ==> Render(s, now) == s.(currentTime := Tick(s.lastTimeUpdate, now),
                                                           lastTimeUpdate := Tick(s.lastTimeUpdate, now))
  {
    MemoFilterCorrect(MemoOf(s), s.allSlots, s.dateFilter, s.timeFilter, Tick(s.lastTimeUpdate, now));
  }

  /** renderTimeOptions(base), for a base it returns on (uniqueTimes throws
      on a null slot; the steps that call it take that path before). */
  function RenderTimes(s: BoardState, base: seq<Json>): (r: BoardState)
    requires JNull !in base
    ensures r.timeOptions == TimeOptions(base)
    ensures r.timeFilter == "" || JStr(r.timeFilter) in r.timeOptions
  {
    var options := TimeOptions(base);
    s.(timeOptions := options, timeFilter := KeptTimeFilter(s.timeFilter, options))
  }

  const MissingUrl: string := "Missing API base URL. Please update config.js."
  const LoadingText: string := "Loading…"
  const NotExposed: string := "NOT_EXPOSED_BY_CORS"

  /** fetchSlots up to the request: nothing while a refresh is running; the
      missing-URL status when no API base URL is configured; otherwise the
      loading flag, the "Loading…" status and an emptied list. */
  function StartFetch(s: BoardState, apiConfigured: bool): (r: BoardState)
    ensures s.loading ==> r == s
    ensures r.allSlots == s.allSlots && MemoOf(r) == MemoOf(s)
    ensures !s.loading && apiConfigured ==> r.loading && r.phase == AwaitingResponse
    ensures !s.loading && !apiConfigured ==> r == s.(statusText := MissingUrl)
  {
    if s.loading then s
    else if !apiConfigured then s.(statusText := MissingUrl)
    else s.(loading := true, phase := AwaitingResponse, statusText := LoadingText, shown := [])
  }

  /** The X-Cache label: the header when present and non-empty, otherwise
      NOT_EXPOSED_BY_CORS. */
  function CacheLabel(header: Option<string>): (r: string)
    ensures r != ""
    ensures header.Some? && header.value != "" ==> r == header.value
  {
    if header.Some? && header.value != "" then header.value else NotExposed
  }

  predicate IsOk(status: int) { 200 <= status <= 299 }

  /** fetchSlots when the request settles: a rejected fetch ends the refresh;
      a response clears the filter memo and records X-Cache; an OK response
      goes on to res.json(), any other to res.text(), after which it throws.
      The slots are kept. */
  function Respond(s: BoardState, response: Response): (r: BoardState)
    requires s.phase == AwaitingResponse
    ensures r.allSlots == s.allSlots
    ensures r.phase == AwaitingBody <==> response.Http? && IsOk(response.status)
    ensures r.phase == AwaitingText <==> response.Http? && !IsOk(response.status)
    ensures response.Http? ==> r.loading == s.loading && MemoOf(r) == Cleared && r.xCache == Some(CacheLabel(response.xCacheHeader))
    ensures response.NetworkError? ==> r == s.(loading := false, phase := Idle)
  {
    match response
    case NetworkError => s.(loading := false, phase := Idle)
    case Http(status, header) =>
      var s1 := ClearCache(s).(xCache := Some(CacheLabel(header)));
      if IsOk(status) then s1.(phase := AwaitingBody)
      else s1.(phase := AwaitingText)
  }

  /** fetchSlots once res.text() of a non-OK reply settles (it never
      rejects): the Error it throws ends the refresh, nothing else changes. */
  function ReadText(s: BoardState): (r: BoardState)
    requires s.phase == AwaitingText
    ensures !r.loading && r.phase == Idle
    ensures r.(loading := s.loading, phase := s.phase) == s
  {
    s.(loading := false, phase := Idle)
  }

  /** `Array.isArray(data) ? data : []`. */
  function BodyItems(data: Json): seq<Json> {
    if data.JArr? then data.items else []
  }

  /** The list fetchSlots stores for a parsed body: the array sorted by date
      and minute, or [] for anything else. None when the array holds a null:
      the comparator cannot read its fields, and neither can the filter
      for the time options nor uniqueTimes, so the refresh throws. */
  function BodySlots(data: Json): (r: Option<seq<Json>>)
    ensures r.None? <==> data.JArr? && JNull in data.items
    ensures r.Some? ==> SortedBy(r.value, SlotLe) && multiset(r.value) == multiset(BodyItems(data))
    ensures r.Some? ==> JNull !in r.value
    ensures !data.JArr? ==> r == Some([])
  {
    if data.JArr? && JNull in data.items then None
    else
      var sorted := SortSlots(BodyItems(data));
      assert JNull !in multiset(BodyItems(data));
      Some(sorted)
  }

  /** fetchSlots after res.json(), as corrected: an unreadable body ends the
      refresh with the slots kept; a parsed body replaces them, the filter
      memo is cleared with them, the time options are rebuilt from the
      chosen date's slots and the list is rendered. An array with a null is
      stored as received and the refresh ends there. */
  function ReadBody(s: BoardState, body: Option<Json>, now: int): (r: BoardState)
    requires s.phase == AwaitingBody
    ensures r.phase == Idle && !r.loading
    ensures body.None? ==> r == s.(loading := false, phase := Idle)
    ensures body.Some? && BodySlots(body.value).Some? ==> r.allSlots == BodySlots(body.value).value
    ensures body.Some? && BodySlots(body.value).None? ==>
              r == ClearCache(s.(allSlots := body.value.items)).(loading := false, phase := Idle)
  {
    match body
    case None => s.(loading := false, phase := Idle)
    case Some(data) =>
      match BodySlots(data)
      case None => ClearCache(s.(allSlots := BodyItems(data))).(loading := false, phase := Idle)
      case Some(slots) =>
        var s1 := ClearCache(s.(allSlots := slots));
        var s2 := RenderTimes(s1, SlotsOnDate(slots, s.dateFilter));
        Render(s2, now).(loading := false, phase := Idle)
  }

  lemma ReadBodyOfData(s: BoardState, data: Json, slots: seq<Json>, now: int)
    requires s.phase == AwaitingBody && BodySlots(data) == Some(slots)
    ensures ReadBody(s, Some(data), now)
         == Render(RenderTimes(ClearCache(s.(allSlots := slots)), SlotsOnDate(slots, s.dateFilter)), now)
              .(loading := false, phase := Idle)
  {
  }

  /** The same step as the page is written: the memo was cleared when the
      response arrived and is not cleared again when the slots are
      replaced. */
  function ReadBodyAsWritten(s: BoardState, body: Option<Json>, now: int): (r: BoardState)
    requires s.phase == AwaitingBody
    ensures r.phase == Idle && !r.loading
    ensures body.Some? && BodySlots(body.value).Some? ==> r.allSlots == BodySlots(body.value).value
  {
    match body
    case None => s.(loading := false, phase := Idle)
    case Some(data) =>
      match BodySlots(data)
      case None => s.(allSlots := BodyItems(data), loading := false, phase := Idle)
      case Some(slots) =>
        var s1 := s.(allSlots := slots);
        var s2 := RenderTimes(s1, SlotsOnDate(slots, s.dateFilter));
        Render(s2, now).(loading := false, phase := Idle)
  }

  /** onDateChange: the time options are rebuilt from the new date's slots,
      the memo is cleared and the list rendered. With a null among the
      slots it throws: while filtering them by a set date, before the memo is
      cleared, or in uniqueTimes over all of them when no date is set. */
  function DateChange(s: BoardState, value: string, now: int): (r: BoardState)
    ensures r.dateFilter == value && r.allSlots == s.allSlots
    ensures JNull !in s.allSlots ==> r.timeOptions == TimeOptions(SlotsOnDate(s.allSlots, value))
    ensures JNull in s.allSlots ==>
              r.shown == s.shown && r.timeOptions == s.timeOptions && r.timeFilter == s.timeFilter
              && r.statusText == s.statusText
              && (if value == "" then MemoOf(r) == Cleared else MemoOf(r) == MemoOf(s))
  {
    if JNull in s.allSlots then
      if value == "" then ClearCache(s.(dateFilter := value)) else s.(dateFilter := value)
    else Render(RenderTimes(ClearCache(s.(dateFilter := value)), SlotsOnDate(s.allSlots, value)), now)
  }

  /** onTimeChange: the memo is cleared and the list rendered. */
  function TimeChange(s: BoardState, value: string, now: int): (r: BoardState)
    ensures r.timeFilter == value && r.allSlots == s.allSlots && r.timeOptions == s.timeOptions
  {
    Render(ClearCache(s.(timeFilter := value)), now)
  }

  /** persistDebug: the memo is cleared and the list rendered. */
  function DebugChange(s: BoardState, now: int): (r: BoardState)
    ensures r.allSlots == s.allSlots && r.dateFilter == s.dateFilter && r.timeFilter == s.timeFilter
  {
    Render(ClearCache(s), now)
  }

  /** onResetFilters: both filters are emptied and a refresh is started (which
      does nothing while one is running). */
  function ResetFilters(s: BoardState, apiConfigured: bool): (r: BoardState)
    ensures s.loading ==> r == s.(dateFilter := "", timeFilter := "")
  {
    StartFetch(s.(dateFilter := "", timeFilter := ""), apiConfigured)
  }

  /** What can happen on the page: a filter or debug input changes, a
      refresh is requested (button, or a successful booking), Reset filters
      is clicked, or the pending request or body settles. */
  datatype Event =
    | DateChanged(value: string)
    | TimeChanged(value: string)
    | DebugChanged
    | RefreshClicked
    | ResetClicked
    | ResponseArrived(response: Response)
    | BodyRead(body: Option<Json>)
    | TextRead

  /** The event's effect; None for a settlement that is not awaited and for a
      date the date input cannot hold. */
  function Step(s: BoardState, e: Event, apiConfigured: bool, now: int): (r: Option<BoardState>)
    ensures r.None? <==> ((e.ResponseArrived? && s.phase != AwaitingResponse)
                          || (e.BodyRead? && s.phase != AwaitingBody)
                          || (e.TextRead? && s.phase != AwaitingText)
                          || (e.DateChanged? && Bar in e.value))
  {
    match e
    case DateChanged(v) => if Bar in v then None else Some(DateChange(s, v, now))
    case TimeChanged(v) => Some(TimeChange(s, v, now))
    case DebugChanged => Some(DebugChange(s, now))
    case RefreshClicked => Some(StartFetch(s, apiConfigured))
    case ResetClicked => Some(ResetFilters(s, apiConfigured))
    case ResponseArrived(r) => if s.phase == AwaitingResponse then Some(Respond(s, r)) else None
    case BodyRead(b) => if s.phase == AwaitingBody then Some(ReadBody(s, b, now)) else None
    case TextRead => if s.phase == AwaitingText then Some(ReadText(s)) else None
  }

  /** The events that end in renderSlots. */
  predicate Renders(e: Event) {
    e.DateChanged? || e.TimeChanged? || e.DebugChanged? || (e.BodyRead? && e.body.Some?)
  }

  /** Every event keeps the state valid, and every rendering shows exactly
      the stored slots that pass the current filters at the clock reading, so
      the memo never hands back a stale list; when the stored slots make the
      filter throw, the shown list stays as it was. */
  lemma StepKeepsValid(s: BoardState, e: Event, apiConfigured: bool, now: int)
    requires StateValid(s) && Step(s, e, apiConfigured, now).Some?
    ensures StateValid(Step(s, e, apiConfigured, now).value)
    ensures var r := Step(s, e, apiConfigured, now).value;
      Renders(e) && !AnyThrows(r.allSlots) ==> r.shown == FilterSlots(r.allSlots, r.dateFilter, r.timeFilter, r.currentTime)
    ensures var r := Step(s, e, apiConfigured, now).value;
      Renders(e) && AnyThrows(r.allSlots) ==> r.shown == s.shown
  {
    match e
    case DateChanged(v) =>
      if JNull !in s.allSlots {
        RenderFresh(RenderTimes(ClearCache(s.(dateFilter := v)), SlotsOnDate(s.allSlots, v)), now);
      } else {
        var k :| 0 <= k < |s.allSlots| && s.allSlots[k] == JNull;
        assert SlotThrows(s.allSlots[k]);
      }
    case TimeChanged(v) =>
      RenderFresh(ClearCache(s.(timeFilter := v)), now);
    case DebugChanged =>
      RenderFresh(ClearCache(s), now);
    case RefreshClicked =>
    case ResetClicked =>
    case ResponseArrived(r) =>
    case TextRead =>
    case BodyRead(b) =>
      if b.Some? {
        match BodySlots(b.value)
        case None =>
          var items := b.value.items;
          var k :| 0 <= k < |items| && items[k] == JNull;
          assert SlotThrows(items[k]);
        case Some(slots) =>
          RenderFresh(RenderTimes(ClearCache(s.(allSlots := slots)), SlotsOnDate(slots, s.dateFilter)), now);
      }
  }

  /** As written, a render while the body is being read leaves a memo for
      the old slots; when the new list has the same length and is rendered
      within the same second with the same filters, the old filtered list is
      shown again. */
  lemma StaleAfterRefresh(s: BoardState, data: Json, now: int, later: int)
    requires StateValid(s) && s.phase == AwaitingBody && s.timeFilter == "" && !AnyThrows(s.allSlots)
    requires data.JArr? && JNull !in data.items && |data.items| == |s.allSlots|
    requires Tick(Tick(s.lastTimeUpdate, now), later) == Tick(s.lastTimeUpdate, now)
    ensures ReadBodyAsWritten(DebugChange(s, now), Some(data), later).shown
         == FilterSlots(s.allSlots, s.dateFilter, "", Tick(s.lastTimeUpdate, now))
  {
    var t := Tick(s.lastTimeUpdate, now);
    var s1 := DebugChange(s, now);
    RenderFresh(ClearCache(s), now);
    var slots := BodySlots(data).value;
    assert |slots| == |data.items| by {
      assert |multiset(slots)| == |multiset(data.items)|;
    }
    var s2 := RenderTimes(s1.(allSlots := slots), SlotsOnDate(slots, s.dateFilter));
    assert s2.timeFilter == "";
    assert MemoOf(s2) == Memo(Some(s1.shown), Some(FilterKey(s.dateFilter, "", |s.allSlots|, t)));
  }

  /** Two slots without date or time, one before the refresh and a
      different one after it: as written the page shows the one that is no
      longer stored, the corrected step shows the new one. */
  lemma StaleWitness(s: BoardState, a: Json, b: Json, now: int)
    requires StateValid(s) && s.phase == AwaitingBody && s.timeFilter == "" && s.dateFilter == ""
    requires s.allSlots == [a] && a != b && a != JNull && b != JNull
    requires DateField(a).None? && TimeField(a).None? && DateField(b).None? && TimeField(b).None?
    ensures var written := ReadBodyAsWritten(DebugChange(s, now), Some(JArr([b])), now);
      written.allSlots == [b] && written.shown == [a]
  {
    var t := Tick(s.lastTimeUpdate, now);
    assert FilterSlots([a], "", "", t) == [a];
    assert !SlotThrows(a);
    OneSlotBody(b);
    StaleAfterRefresh(s, JArr([b]), now, now);
  }

  /** The corrected step on the same input shows the new slot. */
  lemma FixedWitness(s: BoardState, a: Json, b: Json, now: int)
    requires StateValid(s) && s.phase == AwaitingBody && s.timeFilter == "" && s.dateFilter == ""
    requires s.allSlots == [a] && a != b && a != JNull && b != JNull
    requires DateField(a).None? && TimeField(a).None? && DateField(b).None? && TimeField(b).None?
    ensures var fixed := ReadBody(DebugChange(s, now), Some(JArr([b])), now);
      fixed.allSlots == [b] && fixed.shown == [b]
  {
    var t := Tick(s.lastTimeUpdate, now);
    assert Tick(t, now) == t;
    assert FilterSlots([b], "", "", t) == [b];
    assert !SlotThrows(a) && !SlotThrows(b);
    OneSlotBody(b);
    var s1 := DebugChange(s, now);
    RenderFresh(ClearCache(s), now);
    StepKeepsValid(s1, BodyRead(Some(JArr([b]))), true, now);
  }

  lemma OneSlotBody(b: Json)
    requires b != JNull
    ensures BodySlots(JArr([b])) == Some([b])
  {
    var r := BodySlots(JArr([b])).value;
    assert multiset(r) == multiset{b};
    assert |r| == 1 && r[0] in multiset(r);
  }

  // ---------- the page, updated in place ----------

  /** The page's module-level variables and state object. */
  class Board {
    var allSlots: seq<Json>
    var xCache: Option<string>
    var loading: bool
    var phase: Phase
    var currentTime: int
    var lastTimeUpdate: int
    var filteredSlotsCache: Option<seq<Json>>
    var lastFilterState: Option<string>
    var dateFilter: string
    var timeFilter: string
    var timeOptions: seq<Json>
    var statusText: string
    var countText: string
    var shown: seq<Json>
    /** Whether APP_CONFIG gives an API base URL. */
    const apiConfigured: bool

    function State(): BoardState
      reads this
    {
      BoardState(allSlots, xCache, loading, phase, currentTime, lastTimeUpdate,
                 filteredSlotsCache, lastFilterState, dateFilter, timeFilter,
                 timeOptions, statusText, countText, shown)
    }

    ghost predicate Valid()
      reads this
    {
      StateValid(State())
    }

    /** init: the stored state, today's date in the date filter, and the
        first refresh started. */
    constructor(apiConfigured: bool, now: int, today: string)
      requires Bar !in today
      ensures Valid() && this.apiConfigured == apiConfigured
      ensures State() == StartFetch(Initial(now, today), apiConfigured)
    {
      this.apiConfigured := apiConfigured;
      allSlots, xCache, loading, phase := [], None, false, Idle;
      currentTime, lastTimeUpdate := now, now;
      filteredSlotsCache, lastFilterState := None, None;
      dateFilter, timeFilter, timeOptions := today, "", [];
      statusText, countText, shown := "", "", [];
      new;
      FetchSlots();
    }

    method GetCurrentTime(now: int) returns (t: int)
      requires Valid()
      modifies this
      ensures t == Tick(old(lastTimeUpdate), now)
      ensures State() == old(State()).(currentTime := t, lastTimeUpdate := t)
    {
      if now - lastTimeUpdate > 1000 {
        currentTime := now;
        lastTimeUpdate := now;
      }
      t := currentTime;
    }

    method ClearFilterCache()
      modifies this
      ensures State() == ClearCache(old(State()))
    {
      filteredSlotsCache := None;
      lastFilterState := None;
    }

    /** applyFilters; None when the filter throws. */
    method ApplyFilters(now: int) returns (filtered: Option<seq<Json>>)
      requires Valid()
      modifies this
      ensures Valid()
      ensures var t := Tick(old(lastTimeUpdate), now);
        var fm := MemoFilter(MemoOf(old(State())), allSlots, dateFilter, timeFilter, t);
        && filtered == fm.0 == ApplyFilter(allSlots, dateFilter, timeFilter, t)
        && State() == old(State()).(currentTime := t, lastTimeUpdate := t,
                                    filteredSlotsCache := fm.1.result, lastFilterState := fm.1.key)
    {
      var t := GetCurrentTime(now);
      MemoFilterCorrect(MemoOf(State()), allSlots, dateFilter, timeFilter, t);
      var key := FilterKey(dateFilter, timeFilter, |allSlots|, t);
      if filteredSlotsCache.Some? && lastFilterState == Some(key) {
        filtered := filteredSlotsCache;
      } else {
        filtered := ApplyFilter(allSlots, dateFilter, timeFilter, t);
        if filtered.Some? {
          filteredSlotsCache := filtered;
          lastFilterState := Some(key);
        }
      }
    }

    /** renderSlots; when applyFilters throws nothing is rendered. */
    method RenderSlots(now: int)
      requires Valid()
      modifies this
      ensures Valid() && State() == Render(old(State()), now)
      ensures !AnyThrows(allSlots) ==> shown == FilterSlots(allSlots, dateFilter, timeFilter, currentTime)
      ensures AnyThrows(allSlots) ==> shown == old(shown)
    {
      var filtered := ApplyFilters(now);
      if filtered.None? {
        return;
      }
      countText := CountText(|filtered.value|);
      statusText := StatusAfterRender(|allSlots|, |filtered.value|);
      shown := filtered.value;
    }

    /** renderTimeOptions; `threw` when uniqueTimes throws, before anything
        has changed. */
    method RenderTimeOptions(base: seq<Json>) returns (threw: bool)
      modifies this
      ensures threw <==> JNull in base
      ensures !threw ==> State() == RenderTimes(old(State()), base)
      ensures threw ==> State() == old(State())
    {
      var unique := UniqueTimes(base);
      if unique.None? {
        return true;
      }
      threw := false;
      SetTimeOptions(unique.value);
    }

    /** The options rebuilt from times, and the time filter restored when it
        is among them. */
    method SetTimeOptions(times: seq<Json>)
      modifies this
      ensures State() == old(State()).(timeOptions := times, timeFilter := KeptTimeFilter(old(timeFilter), times))
    {
      var current := timeFilter;
      timeOptions := times;
      if current != "" && JStr(current) in times {
        timeFilter := current;
      } else {
        timeFilter := "";
      }
    }

    /** fetchSlots up to its first await. */
    method FetchSlots()
      modifies this
      ensures State() == StartFetch(old(State()), apiConfigured)
    {
      if loading {
        return;
      }
      if !apiConfigured {
        statusText := MissingUrl;
        return;
      }
      loading := true;
      phase := AwaitingResponse;
      statusText := LoadingText;
      shown := [];
    }

    /** fetchSlots from the settled request to the await of res.json() or
        res.text(), or to its end. */
    method ReceiveResponse(response: Response)
      requires Valid() && phase == AwaitingResponse
      modifies this
      ensures Valid() && State() == Respond(old(State()), response)
    {
      match response
      case NetworkError =>
        loading := false;
        phase := Idle;
      case Http(status, header) =>
        ClearFilterCache();
        if header.Some? && header.value != "" {
          xCache := header;
        } else {
          xCache := Some(NotExposed);
        }
        if IsOk(status) {
          phase := AwaitingBody;
        } else {
          phase := AwaitingText;
        }
    }

    /** fetchSlots from res.text() of a non-OK reply to its end: the Error
        thrown there passes through the finally, which clears loading. */
    method ReceiveErrorText()
      requires Valid() && phase == AwaitingText
      modifies this
      ensures Valid() && State() == ReadText(old(State()))
    {
      EndRefresh();
    }

    /** fetchSlots from res.json() to its end: the slots are replaced and
        sorted in place, the memo is cleared with them, and the time options
        and the list are rendered. */
    method ReceiveBody(body: Option<Json>, now: int)
      requires Valid() && phase == AwaitingBody
      modifies this
      ensures Valid() && State() == ReadBody(old(State()), body, now)
      ensures body.Some? && !AnyThrows(allSlots) ==> shown == FilterSlots(allSlots, dateFilter, timeFilter, currentTime)
      ensures AnyThrows(allSlots) ==> shown == old(shown)
    {
      ghost var s0 := State();
      if body.Some? {
        var threw := StoreSlots(body.value);
        if !threw {
          RenderStored(now);
          ReadBodyOfData(s0, body.value, BodySlots(body.value).value, now);
        }
      }
      EndRefresh();
    }

    /** The finally of fetchSlots: setLoading(false). */
    method EndRefresh()
      requires Valid()
      modifies this
      ensures Valid() && State() == old(State()).(loading := false, phase := Idle)
    {
      loading := false;
      phase := Idle;
    }

    /** The end of fetchSlots once the sorted slots are stored: the time
        options from the chosen date's slots, then renderSlots. */
    method RenderStored(now: int)
      requires Valid() && JNull !in allSlots
      modifies this
      ensures Valid()
      ensures State() == Render(RenderTimes(old(State()), SlotsOnDate(old(allSlots), old(dateFilter))), now)
      ensures !AnyThrows(allSlots) ==> shown == FilterSlots(allSlots, dateFilter, timeFilter, currentTime)
      ensures AnyThrows(allSlots) ==> shown == old(shown)
    {
      var base := SlotsOnDate(allSlots, dateFilter);
      var optionsThrew := RenderTimeOptions(base);
      assert !optionsThrew;
      RenderSlots(now);
    }

    /** Corrected: `state.allSlots = Array.isArray(data) ? data : []` and
        the in-place sort, with the memo cleared together with the slots.
        Clearing it here is the fix; the page itself clears it only when the
        response arrives. `threw` when the array holds a null, which is then
        kept in the order received. */
    method StoreSlots(data: Json) returns (threw: bool)
      requires Valid()
      modifies this
      ensures threw <==> BodySlots(data).None?
      ensures Valid()
      ensures !threw ==> State() == ClearCache(old(State()).(allSlots := BodySlots(data).value))
      ensures threw ==> State() == ClearCache(old(State()).(allSlots := BodyItems(data)))
    {
      allSlots := if data.JArr? then data.items else [];
      ClearFilterCache();
      if JNull in allSlots {
        return true;
      }
      threw := false;
      allSlots := SortSlots(allSlots);
    }

    /** onDateChange; it stops where a null slot is read. */
    method OnDateChange(value: string, now: int)
      requires Valid() && Bar !in value
      modifies this
      ensures Valid() && State() == DateChange(old(State()), value, now)
      ensures !AnyThrows(allSlots) ==> shown == FilterSlots(allSlots, dateFilter, timeFilter, currentTime)
      ensures AnyThrows(allSlots) ==> shown == old(shown)
    {
      dateFilter := value;
      if value != "" && JNull in allSlots {
        return;
      }
      var base := SlotsOnDate(allSlots, value);
      ClearFilterCache();
      var threw := RenderTimeOptions(base);
      if threw {
        return;
      }
      RenderSlots(now);
    }

    method OnTimeChange(value: string, now: int)
      requires Valid()
      modifies this
      ensures Valid() && State() == TimeChange(old(State()), value, now)
      ensures !AnyThrows(allSlots) ==> shown == FilterSlots(allSlots, dateFilter, timeFilter, currentTime)
      ensures AnyThrows(allSlots) ==> shown == old(shown)
    {
      timeFilter := value;
      ClearFilterCache();
      RenderSlots(now);
    }

    method PersistDebug(now: int)
      requires Valid()
      modifies this
      ensures Valid() && State() == DebugChange(old(State()), now)
      ensures !AnyThrows(allSlots) ==> shown == FilterSlots(allSlots, dateFilter, timeFilter, currentTime)
      ensures AnyThrows(allSlots) ==> shown == old(shown)
    {
      ClearFilterCache();
      RenderSlots(now);
    }

    method OnResetFilters()
      requires Valid()
      modifies this
      ensures Valid() && State() == ResetFilters(old(State()), apiConfigured)
    {
      dateFilter := "";
      timeFilter := "";
      FetchSlots();
    }
  }
}
