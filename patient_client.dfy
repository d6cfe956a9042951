/** The patient booking page (patient/app.js): normalising the slot shapes
    the Lambdas return, the date and search filters, the badge and the order
    slots are listed in, and the page state that loading slots, selecting one
    and submitting a booking update. */
module PatientClient {
  import opened Outcomes
  import opened Text
  import opened JsonValues
  import opened Sorting

  // ---------- normalizeSlot ----------

  /** a ?? b ?? ... ?? d: the first value that is neither null nor undefined. */
  function FirstPresent(vs: seq<Option<Json>>, d: Json): (r: Json)
    ensures (forall i :: 0 <= i < |vs| ==> Nullish(vs[i])) ==> r == d
    ensures forall i :: 0 <= i < |vs| && !Nullish(vs[i]) && (forall j :: 0 <= j < i ==> Nullish(vs[j]))
              ==> r == vs[i].value
  {
    if vs == [] then d
    else if !Nullish(vs[0]) then vs[0].value
    else
      var r := FirstPresent(vs[1..], d);
      assert forall i :: 1 <= i < |vs| ==> vs[i] == vs[1..][i - 1];
      r
  }

  /** A slot as the page keeps it; each field holds whatever JSON value the
      source member held. */
  datatype Slot = Slot(appointmentId: Json, appointmentDate: Json, appointmentTime: Json, status: Json)

  /** normalizeSlot: each field from the first of its source members that is
      present, else its default. Reading a member of null throws, so raw may
      not be null. */
  function NormalizeSlot(raw: Json): (r: Slot)
    requires raw != JNull
    ensures !raw.JObj? ==> r == Slot(JStr(""), JStr(""), JStr(""), JStr("UNKNOWN"))
    ensures raw.JObj? && "appointmentId" in raw.fields && !raw.fields["appointmentId"].JNull? ==>
              r.appointmentId == raw.fields["appointmentId"]
    ensures raw.JObj? && "appointmentDate" in raw.fields && !raw.fields["appointmentDate"].JNull? ==>
              r.appointmentDate == raw.fields["appointmentDate"]
    ensures raw.JObj? && "appointmentTime" in raw.fields && !raw.fields["appointmentTime"].JNull? ==>
              r.appointmentTime == raw.fields["appointmentTime"]
    ensures raw.JObj? && "status" in raw.fields && !raw.fields["status"].JNull? ==> r.status == raw.fields["status"]
    ensures Nullish(Member(raw, "status")) && Nullish(Member(raw, "slotStatus")) ==> r.status == JStr("UNKNOWN")
  {
    Slot(
      FirstPresent([Member(raw, "appointmentId"), Member(raw, "id"), Member(raw, "slotId"), Member(raw, "pk")], JStr("")),
      FirstPresent([Member(raw, "appointmentDate"), Member(raw, "date")], JStr("")),
      FirstPresent([Member(raw, "appointmentTime"), Member(raw, "time")], JStr("")),
      FirstPresent([Member(raw, "status"), Member(raw, "slotStatus")], JStr("UNKNOWN")))
  }

  /** A slot written back as an object with the canonical member names. */
  function SlotObject(s: Slot): Json {
    JObj(map["appointmentId" := s.appointmentId, "appointmentDate" := s.appointmentDate,
             "appointmentTime" := s.appointmentTime, "status" := s.status])
  }

  /** Normalising is a left inverse of writing a slot out: a slot whose
      fields are not null comes back unchanged. */
  lemma NormalizeRoundTrip(s: Slot)
    requires !s.appointmentId.JNull? && !s.appointmentDate.JNull? && !s.appointmentTime.JNull? && !s.status.JNull?
    ensures NormalizeSlot(SlotObject(s)) == s
  {
    var raw := SlotObject(s);
    assert Member(raw, "appointmentId") == Some(s.appointmentId);
    assert Member(raw, "appointmentDate") == Some(s.appointmentDate);
    assert Member(raw, "appointmentTime") == Some(s.appointmentTime);
    assert Member(raw, "status") == Some(s.status);
  }

  /** A value with none of the members (an empty object, a number, a string)
      becomes the all-defaults slot. */
  lemma NormalizeDefaults(raw: Json)
    requires raw != JNull && (raw.JObj? ==> raw.fields.Keys * KnownMembers() == {})
    ensures NormalizeSlot(raw) == Slot(JStr(""), JStr(""), JStr(""), JStr("UNKNOWN"))
  {
    if raw.JObj? {
      forall k | k in KnownMembers() ensures Member(raw, k).None? {
        assert k !in raw.fields.Keys * KnownMembers();
      }
      var ids := [Member(raw, "appointmentId"), Member(raw, "id"), Member(raw, "slotId"), Member(raw, "pk")];
      assert Nullish(ids[0]) && Nullish(ids[1]) && Nullish(ids[2]) && Nullish(ids[3]);
      var dates := [Member(raw, "appointmentDate"), Member(raw, "date")];
      assert Nullish(dates[0]) && Nullish(dates[1]);
      var times := [Member(raw, "appointmentTime"), Member(raw, "time")];
      assert Nullish(times[0]) && Nullish(times[1]);
      var statuses := [Member(raw, "status"), Member(raw, "slotStatus")];
      assert Nullish(statuses[0]) && Nullish(statuses[1]);
    }
  }

  /** Every member name normalizeSlot reads. */
  function KnownMembers(): set<string> {
    {"appointmentId", "id", "slotId", "pk", "appointmentDate", "date", "appointmentTime", "time", "status", "slotStatus"}
  }

  /** A present but null member is skipped: {appointmentId: null, id: x}
      takes its id from x. */
  lemma NullMemberSkipped(x: Json)
    requires !x.JNull?
    ensures NormalizeSlot(JObj(map["appointmentId" := JNull, "id" := x])).appointmentId == x
  {
    var raw := JObj(map["appointmentId" := JNull, "id" := x]);
    var vs := [Member(raw, "appointmentId"), Member(raw, "id"), Member(raw, "slotId"), Member(raw, "pk")];
    assert vs[0] == Some(JNull) && Nullish(vs[0]);
    assert vs[1] == Some(x) && !Nullish(vs[1]);
  }

  /** The fallbacks at work on the cached listing's {slotId, date, time}
      shape: the id comes from slotId, and with no status the slot is
      UNKNOWN. */
  lemma NormalizeCachedShape(id: Json, date: Json, time: Json)
    requires !id.JNull? && !date.JNull? && !time.JNull?
    ensures NormalizeSlot(JObj(map["slotId" := id, "date" := date, "time" := time]))
         == Slot(id, date, time, JStr("UNKNOWN"))
  {
    var raw := JObj(map["slotId" := id, "date" := date, "time" := time]);
    var ids := [Member(raw, "appointmentId"), Member(raw, "id"), Member(raw, "slotId"), Member(raw, "pk")];
    assert Nullish(ids[0]) && Nullish(ids[1]) && ids[2] == Some(id);
    var dates := [Member(raw, "appointmentDate"), Member(raw, "date")];
    assert Nullish(dates[0]) && dates[1] == Some(date);
    var times := [Member(raw, "appointmentTime"), Member(raw, "time")];
    assert Nullish(times[0]) && times[1] == Some(time);
    var statuses := [Member(raw, "status"), Member(raw, "slotStatus")];
    assert Nullish(statuses[0]) && Nullish(statuses[1]);
  }

  /** arr.map(normalizeSlot); a null element throws. */
  function NormalizeAll(arr: seq<Json>): (r: Option<seq<Slot>>)
    ensures r.Some? <==> JNull !in arr
    ensures r.Some? ==> |r.value| == |arr| && forall k :: 0 <= k < |arr| ==> r.value[k] == NormalizeSlot(arr[k])
  {
    if arr == [] then Some([])
    else if arr[0] == JNull then None
    else
      match NormalizeAll(arr[1..])
      case None => None
      case Some(rest) =>
        assert forall k :: 1 <= k < |arr| ==> arr[k] == arr[1..][k - 1];
        Some([NormalizeSlot(arr[0])] + rest)
  }

  /** apiGetSlots after res.json(): the body itself when it is an array,
      otherwise data.slots ?? data.items ?? [], which must then be an array;
      None when the page throws (a null body, a non-array list, a null
      element). */
  function AdaptSlots(data: Json): (r: Option<seq<Slot>>)
    ensures data.JArr? ==> r == NormalizeAll(data.items)
    ensures data.JNull? ==> r.None?
    ensures !data.JObj? && !data.JArr? && !data.JNull? ==> r == Some([])
    ensures data.JObj? && !Nullish(Member(data, "slots")) ==> r == ListSlots(data.fields["slots"])
    ensures data.JObj? && Nullish(Member(data, "slots")) && !Nullish(Member(data, "items"))
            ==> r == ListSlots(data.fields["items"])
    ensures data.JObj? && Nullish(Member(data, "slots")) && Nullish(Member(data, "items")) ==> r == Some([])
  {
    if data.JArr? then NormalizeAll(data.items)
    else if data.JNull? then None
    else
      var vs := [Member(data, "slots"), Member(data, "items")];
      assert vs[0] == Member(data, "slots") && vs[1] == Member(data, "items");
      ListSlots(FirstPresent(vs, JArr([])))
  }

  /** arr.map(normalizeSlot) on the list the body names: a value that is not
      an array has no map and throws. */
  function ListSlots(list: Json): (r: Option<seq<Slot>>)
    ensures list.JArr? ==> r == NormalizeAll(list.items)
    ensures !list.JArr? ==> r.None?
  {
    if list.JArr? then NormalizeAll(list.items) else None
  }

  /** The cached listing's {slots: [...]} and a plain array give the same
      slots. */
  lemma AdaptWrapped(items: seq<Json>, rest: map<string, Json>)
    ensures AdaptSlots(JObj(rest["slots" := JArr(items)])) == AdaptSlots(JArr(items))
  {
    assert Member(JObj(rest["slots" := JArr(items)]), "slots") == Some(JArr(items));
  }

  // ---------- matchesFilters and badgeClass ----------

  /** `${date} ${time} ${id} ${status}`, lower-cased. */
  function Haystack(s: Slot): string {
    Lower(JsString(s.appointmentDate) + " " + JsString(s.appointmentTime) + " "
          + JsString(s.appointmentId) + " " + JsString(s.status))
  }

  /** matchesFilters: an exact date when a date is set, and the search text,
      lower-cased, inside the lower-cased haystack when a search is set. */
  function MatchesFilters(s: Slot, dateValue: string, searchValue: string): (r: bool)
    ensures dateValue == "" && searchValue == "" ==> r
    ensures r && dateValue != "" ==> s.appointmentDate == JStr(dateValue)
    ensures r && searchValue != "" ==> |Lower(searchValue)| <= |Haystack(s)|
  {
    && (dateValue == "" || s.appointmentDate == JStr(dateValue))
    && (searchValue == "" || Contains(Haystack(s), Lower(searchValue)))
  }

  /** The search ignores case: searching for the upper-cased text finds the
      same slots, and with no filter set every slot matches. */
  lemma SearchIgnoresCase(s: Slot, dateValue: string, searchValue: string)
    ensures MatchesFilters(s, dateValue, Upper(searchValue)) <==> MatchesFilters(s, dateValue, searchValue)
    ensures MatchesFilters(s, "", "")
  {
    LowerOfUpper(searchValue);
    assert |Upper(searchValue)| == |searchValue|;
  }

  /** The slot's own date and time text is always found by the search. */
  lemma SearchFindsDate(s: Slot)
    requires s.appointmentDate.JStr?
    ensures MatchesFilters(s, s.appointmentDate.s, s.appointmentDate.s)
  {
    var date := s.appointmentDate.s;
    var rest := " " + JsString(s.appointmentTime) + " " + JsString(s.appointmentId) + " " + JsString(s.status);
    assert Haystack(s) == Lower(date + rest);
    LowerConcat(date, rest);
    assert Lower(date) + Lower(rest) == [] + Lower(date) + Lower(rest);
    ContainsInfix([], Lower(date), Lower(rest));
  }

  /** badgeClass: (status || "").toUpperCase() against AVAILABLE and
      PENDING. A truthy status that is not a string has no toUpperCase and
      throws: None. */
  function BadgeClass(status: Json): (r: Option<string>)
    ensures !JsTruthy(Some(status)) ==> r == Some("na")
    ensures r.None? <==> JsTruthy(Some(status)) && !status.JStr?
    ensures status.JStr? && Upper(status.s) != "AVAILABLE" && Upper(status.s) != "PENDING" ==> r == Some("na")
    ensures r == Some("available") <==> status.JStr? && Upper(status.s) == "AVAILABLE"
    ensures r == Some("pending") <==> status.JStr? && Upper(status.s) == "PENDING"
  {
    if !JsTruthy(Some(status)) then Some("na")
    else if !status.JStr? then None
    else
      var u := Upper(status.s);
      if u == "AVAILABLE" then Some("available")
      else if u == "PENDING" then Some("pending")
      else Some("na")
  }

  /** String(status).toUpperCase() === "AVAILABLE": the rank of the sort, the
      enabled Select button and the available count. */
  predicate IsAvailable(s: Slot) {
    Upper(JsString(s.status)) == "AVAILABLE"
  }

  /** For a string status the badge and the Select button agree. */
  lemma BadgeAgreesWithSelect(s: Slot)
    requires s.status.JStr?
    ensures BadgeClass(s.status) == Some("available") <==> IsAvailable(s)
  {
  }

  // ---------- the rendered order ----------

  /** `${appointmentDate} ${appointmentTime}`, the text the sort compares. */
  function DateTime(s: Slot): string {
    JsString(s.appointmentDate) + " " + JsString(s.appointmentTime)
  }

  /** The comparator of renderSlots: AVAILABLE first, then localeCompare of
      the date-time texts. */
  predicate PatientLe(a: Slot, b: Slot) {
    if IsAvailable(a) != IsAvailable(b) then IsAvailable(a)
    else LexLe(DateTime(a), DateTime(b))
  }

  lemma PatientLeTotalPreorder()
    ensures IsTotalPreorder(PatientLe)
  {
    forall a, b ensures PatientLe(a, b) || PatientLe(b, a) {
      LexLeTotal(DateTime(a), DateTime(b));
    }
    forall a, b, c | PatientLe(a, b) && PatientLe(b, c) ensures PatientLe(a, c) {
      if IsAvailable(a) == IsAvailable(b) == IsAvailable(c) {
        LexLeTransitive(DateTime(a), DateTime(b), DateTime(c));
      }
    }
  }

  function FilterMatching(slots: seq<Slot>, dateValue: string, searchValue: string): (r: seq<Slot>)
    ensures forall k :: 0 <= k < |r| ==> MatchesFilters(r[k], dateValue, searchValue)
    ensures forall x :: multiset(r)[x] == (if MatchesFilters(x, dateValue, searchValue) then multiset(slots)[x] else 0)
  {
    if slots == [] then []
    else
      assert slots == [slots[0]] + slots[1..];
      (if MatchesFilters(slots[0], dateValue, searchValue) then [slots[0]] else [])
      + FilterMatching(slots[1..], dateValue, searchValue)
  }

  /** The list renderSlots shows: the matching slots, every available one
      before every other, each group ordered by its date-time text. */
  function Rendered(slots: seq<Slot>, dateValue: string, searchValue: string): (r: seq<Slot>)
    ensures forall x :: multiset(r)[x] == (if MatchesFilters(x, dateValue, searchValue) then multiset(slots)[x] else 0)
    ensures forall i, j :: 0 <= i < j < |r| && IsAvailable(r[j]) ==> IsAvailable(r[i])
    ensures forall i, j :: 0 <= i < j < |r| && IsAvailable(r[i]) == IsAvailable(r[j]) ==> LexLe(DateTime(r[i]), DateTime(r[j]))
  {
    PatientLeTotalPreorder();
    SortBy(FilterMatching(slots, dateValue, searchValue), PatientLe)
  }

  /** allSlots.filter(s => String(s.status).toUpperCase() === "AVAILABLE"):
      the available slots, each as often as it occurs. */
  function AvailableSlots(slots: seq<Slot>): (r: seq<Slot>)
    ensures forall k :: 0 <= k < |r| ==> IsAvailable(r[k])
    ensures forall x :: multiset(r)[x] == (if IsAvailable(x) then multiset(slots)[x] else 0)
  {
    if slots == [] then []
    else
      assert slots == [slots[0]] + slots[1..];
      (if IsAvailable(slots[0]) then [slots[0]] else []) + AvailableSlots(slots[1..])
  }

  /** The rows renderSlots appends, one per listed slot, stopping where
      badgeClass throws: the longest prefix of the list whose badges do not
      throw. */
  predicate AppendedRows(shown: seq<Slot>, rows: seq<Slot>) {
    && shown <= rows
    && (forall k :: 0 <= k < |shown| ==> BadgeClass(shown[k].status).Some?)
    && (|shown| < |rows| ==> BadgeClass(rows[|shown|].status).None?)
  }

  /** renderSlots throws on the list: some listed slot has a badge that
      throws. */
  predicate BadgeThrows(rows: seq<Slot>) {
    exists k :: 0 <= k < |rows| && BadgeClass(rows[k].status).None?
  }

  /** The loop of renderSlots over the listed slots: a row per slot until a
      badge throws. */
  method AppendRows(filtered: seq<Slot>) returns (rows: seq<Slot>, threw: bool)
    ensures AppendedRows(rows, filtered)
    ensures threw <==> BadgeThrows(filtered)
  {
    rows := [];
    var i := 0;
    while i < |filtered|
      invariant 0 <= i <= |filtered| && rows == filtered[..i]
      invariant forall k :: 0 <= k < i ==> BadgeClass(filtered[k].status).Some?
    {
      if BadgeClass(filtered[i].status).None? {
        return rows, true;
      }
      rows := rows + [filtered[i]];
      i := i + 1;
    }
    assert rows == filtered;
    threw := false;
  }

  /** The appended rows are the whole list exactly when no badge throws, and
      they are determined by the list. */
  lemma AppendedRowsOf(shown: seq<Slot>, other: seq<Slot>, rows: seq<Slot>)
    requires AppendedRows(shown, rows) && AppendedRows(other, rows)
    ensures shown == rows <==> !BadgeThrows(rows)
    ensures shown == other
  {
  }

  /** The available count of the status bar, counted slot by slot. */
  function CountAvailable(slots: seq<Slot>): (n: nat)
    ensures n <= |slots|
    ensures n == |slots| <==> forall k :: 0 <= k < |slots| ==> IsAvailable(slots[k])
    ensures n == 0 <==> forall k :: 0 <= k < |slots| ==> !IsAvailable(slots[k])
  {
    if slots == [] then 0
    else
      var rest := CountAvailable(slots[1..]);
      assert forall k :: 1 <= k < |slots| ==> slots[k] == slots[1..][k - 1];
      (if IsAvailable(slots[0]) then 1 else 0) + rest
  }

  /** The count is the length of the available filter: every slot is
      counted once, exactly when it is available. */
  lemma {:induction false} CountIsFilterLength(slots: seq<Slot>)
    ensures CountAvailable(slots) == |AvailableSlots(slots)|
  {
    if slots != [] {
      CountIsFilterLength(slots[1..]);
    }
  }

  // ---------- requests ----------

  /** The outcome of GET /appointment-slot: no response or an unreadable body
      (the browser raises an error), a non-2xx status with its body text, or
      the parsed body. */
  datatype SlotsReply = NoResponse | NotOk(status: int, text: string) | BadJson | Parsed(data: Json)

  /** The outcome of POST /book-appointment; a body that is not JSON is read
      as {}. */
  datatype BookReply = BookNoResponse | BookNotOk(status: int, text: string) | BookReplied(result: Json)

  function ParsedBody(text: Option<Json>): Json {
    if text.None? then JObj(map[]) else text.value
  }

  /** setStatus(el, type, msg). */
  datatype Notice = Notice(kind: string, text: string)

  /** err.message || fallback. */
  function ErrorText(message: string, fallback: string): (r: string)
    ensures r != "" <== fallback != ""
  {
    if message != "" then message else fallback
  }

  const MissingUrl: string := "API base URL not set. Edit config.js and set apiBaseUrl."

  function LoadedText(total: nat, available: nat): string {
    "Loaded " + NatToDecimal(total) + " slots (" + NatToDecimal(available) + " available)."
  }

  /** What loadSlots ends with: the stored slots, or the message it reports,
      for a configured or unconfigured API and the reply; errorMessage is the
      message of an error the browser raises. */
  function LoadOutcome(apiConfigured: bool, reply: SlotsReply, errorMessage: string): (r: Result<seq<Slot>, string>)
    ensures !apiConfigured ==> r == Err(MissingUrl)
    ensures r.Ok? <==> apiConfigured && reply.Parsed? && AdaptSlots(reply.data).Some?
    ensures r.Ok? ==> r.value == AdaptSlots(reply.data).value
  {
    if !apiConfigured then Err(MissingUrl)
    else match reply
      case NoResponse => Err(errorMessage)
      case NotOk(status, text) => Err("GET /appointment-slot failed (" + IntToDecimal(status) + "). " + text)
      case BadJson => Err(errorMessage)
      case Parsed(data) =>
        match AdaptSlots(data)
        case None => Err(errorMessage)
        case Some(slots) => Ok(slots)
  }

  /** bookingStatus: (result.status || result.bookingStatus || "PENDING"),
      upper-cased; None when a member of null is read or the chosen value is
      not a string (both throw). */
  function BookingStatus(result: Json): (r: Option<string>)
    ensures result.JNull? ==> r.None?
    ensures !result.JNull? && JsTruthy(Member(result, "status"))
            ==> (r.Some? <==> Member(result, "status").value.JStr?)
    ensures !result.JNull? && JsTruthy(Member(result, "status")) && Member(result, "status").value.JStr?
            ==> r == Some(Upper(Member(result, "status").value.s))
    ensures !result.JNull? && !JsTruthy(Member(result, "status")) && JsTruthy(Member(result, "bookingStatus"))
            ==> (r.Some? <==> Member(result, "bookingStatus").value.JStr?)
    ensures !result.JNull? && !JsTruthy(Member(result, "status")) && JsTruthy(Member(result, "bookingStatus"))
              && Member(result, "bookingStatus").value.JStr?
            ==> r == Some(Upper(Member(result, "bookingStatus").value.s))
    ensures !result.JNull? && !JsTruthy(Member(result, "status")) && !JsTruthy(Member(result, "bookingStatus"))
            ==> r == Some("PENDING")
    ensures r.Some? ==> Upper(r.value) == r.value
  {
    assert Upper("PENDING") == "PENDING";
    if result.JNull? then None
    else
      var st, bs := Member(result, "status"), Member(result, "bookingStatus");
      var chosen := if JsTruthy(st) then st.value else if JsTruthy(bs) then bs.value else JStr("PENDING");
      if chosen.JStr? then UpperIdempotent(chosen.s); Some(Upper(chosen.s)) else None
  }

  /** What a sent booking ends with: Ok with the message shown on success,
      Err with the message shown on failure. */
  function BookOutcome(reply: BookReply, errorMessage: string): (r: Result<string, string>)
    ensures r.Ok? <==> reply.BookReplied? && BookingStatus(reply.result).Some?
    ensures r.Err? ==> r.error != ""
    ensures reply.BookReplied? && BookingStatus(reply.result).Some? && JsTruthy(Member(reply.result, "message"))
            ==> r == Ok(JsString(Member(reply.result, "message").value))
    ensures reply.BookReplied? && BookingStatus(reply.result).Some? && !JsTruthy(Member(reply.result, "message"))
            ==> r == Ok("Booking submitted. Current status: " + BookingStatus(reply.result).value + ".")
    ensures reply.BookReplied? && reply.result == JObj(map[]) ==> r == Ok("Booking submitted. Current status: PENDING.")
  {
    match reply
    case BookNoResponse => Err(ErrorText(errorMessage, "Booking failed."))
    case BookNotOk(status, text) => Err("POST /book-appointment failed (" + IntToDecimal(status) + "). " + text)
    case BookReplied(result) =>
      match BookingStatus(result)
      case None => Err(ErrorText(errorMessage, "Booking failed."))
      case Some(bookingStatus) =>
        assert result == JObj(map[]) ==> bookingStatus == "PENDING";
        assert "Booking submitted. Current status: " + "PENDING" + "." == "Booking submitted. Current status: PENDING.";
        var message := Member(result, "message");
        if JsTruthy(message) then Ok(JsString(message.value))
        else Ok("Booking submitted. Current status: " + bookingStatus + ".")
  }

  /** A reply whose only member is a non-empty string status shows that
      status upper-cased in the default text. */
  lemma StatusShownUpperCased(s: string, errorMessage: string)
    requires s != ""
    ensures BookingStatus(JObj(map["status" := JStr(s)])) == Some(Upper(s))
    ensures BookOutcome(BookReplied(JObj(map["status" := JStr(s)])), errorMessage)
         == Ok("Booking submitted. Current status: " + Upper(s) + ".")
  {
  }

  /** The Book Lambda's own success reply is shown as its message. */
  lemma BookLambdaReplyShown()
    ensures BookOutcome(BookReplied(JObj(map["status" := JStr("PENDING"), "message" := JStr("Booking submitted.")])), "")
         == Ok("Booking submitted.")
  {
    var result := JObj(map["status" := JStr("PENDING"), "message" := JStr("Booking submitted.")]);
    assert Member(result, "status") == Some(JStr("PENDING"));
    assert Upper("PENDING") == "PENDING";
    assert Member(result, "message") == Some(JStr("Booking submitted."));
  }

  /** The booking body sent for a slot and the trimmed form inputs. */
  function Payload(slot: Slot, patientName: string, patientEmail: string, notes: string): Json {
    JObj(map[
      "appointmentId" := slot.appointmentId,
      "appointmentDate" := slot.appointmentDate,
      "appointmentTime" := slot.appointmentTime,
      "patientName" := JStr(patientName),
      "patientEmail" := JStr(patientEmail),
      "notes" := JStr(notes)])
  }

  // ---------- the page, updated in place ----------

  /** The module-level allSlots and selected, the Book button, the two
      status lines, the two filter inputs and the rendered list. */
  class PatientPage {
    var allSlots: seq<Slot>
    var selected: Option<Slot>
    var bookEnabled: bool
    var statusBar: Notice
    var formMsg: Notice
    var dateFilter: string
    var searchFilter: string
    var shown: seq<Slot>
    const apiConfigured: bool

    constructor(apiConfigured: bool)
      ensures this.apiConfigured == apiConfigured
      ensures allSlots == [] && selected.None? && !bookEnabled && shown == []
    {
      this.apiConfigured := apiConfigured;
      allSlots, selected, bookEnabled := [], None, false;
      statusBar, formMsg := Notice("muted", ""), Notice("muted", "");
      dateFilter, searchFilter, shown := "", "", [];
    }

    /** renderSlots, reading the two inputs (the search trimmed): the list
        is emptied, then one row is appended per listed slot; threw is the
        TypeError of badgeClass on a truthy status that is not a string,
        which ends the loop. */
    method RenderSlots() returns (threw: bool)
      modifies this
      ensures AppendedRows(shown, Rendered(allSlots, dateFilter, Trim(searchFilter)))
      ensures threw <==> BadgeThrows(Rendered(allSlots, dateFilter, Trim(searchFilter)))
      ensures allSlots == old(allSlots) && selected == old(selected) && bookEnabled == old(bookEnabled)
      ensures statusBar == old(statusBar) && formMsg == old(formMsg)
      ensures dateFilter == old(dateFilter) && searchFilter == old(searchFilter)
    {
      var filtered := Rendered(allSlots, dateFilter, Trim(searchFilter));
      shown := [];
      shown, threw := AppendRows(filtered);
    }

    /** The input listeners of the two filters. */
    method OnFilterInput(date: string, search: string)
      modifies this
      ensures dateFilter == date && searchFilter == search
      ensures AppendedRows(shown, Rendered(allSlots, date, Trim(search)))
      ensures allSlots == old(allSlots) && selected == old(selected) && bookEnabled == old(bookEnabled)
      ensures statusBar == old(statusBar) && formMsg == old(formMsg)
    {
      dateFilter, searchFilter := date, search;
      var _ := RenderSlots();
    }

    /** selectSlot, reachable only from the enabled Select button of a shown
        available slot. */
    method SelectSlot(slot: Slot)
      requires slot in shown && IsAvailable(slot)
      modifies this
      ensures selected == Some(slot) && bookEnabled
      ensures formMsg == Notice("muted", "Ready to submit booking.")
      ensures allSlots == old(allSlots) && shown == old(shown) && statusBar == old(statusBar)
      ensures dateFilter == old(dateFilter) && searchFilter == old(searchFilter)
    {
      selected := Some(slot);
      bookEnabled := true;
      formMsg := Notice("muted", "Ready to submit booking.");
    }

    /** loadSlots: the slots the reply carries with the loaded count and
        the whole list rendered; on any failure, a badge that throws while
        rendering included, no slots at all and the error message.
        errorMessage is the message of an error the browser raises. */
    method LoadSlots(reply: SlotsReply, errorMessage: string)
      modifies this
      ensures var outcome := LoadOutcome(apiConfigured, reply, errorMessage);
        var threw := outcome.Ok? && BadgeThrows(Rendered(outcome.value, dateFilter, Trim(searchFilter)));
        && (outcome.Ok? && !threw ==>
              && allSlots == outcome.value
              && statusBar == Notice("ok", LoadedText(|allSlots|, CountAvailable(allSlots)))
              && shown == Rendered(allSlots, dateFilter, Trim(searchFilter)))
        && (threw ==> allSlots == [] && shown == [] && statusBar == Notice("err", ErrorText(errorMessage, "Failed to load slots.")))
        && (outcome.Err? ==>
              allSlots == [] && shown == [] && statusBar == Notice("err", ErrorText(outcome.error, "Failed to load slots.")))
      ensures selected == old(selected) && bookEnabled == old(bookEnabled) && formMsg == old(formMsg)
      ensures dateFilter == old(dateFilter) && searchFilter == old(searchFilter)
    {
      statusBar := Notice("muted", "Loading slots…");
      var outcome := LoadOutcome(apiConfigured, reply, errorMessage);
      var failure: Option<string> := None;
      if outcome.Ok? {
        allSlots := outcome.value;
        var availableCount := CountAvailable(allSlots);
        statusBar := Notice("ok", LoadedText(|allSlots|, availableCount));
        var threw := RenderSlots();
        if threw {
          failure := Some(errorMessage);
        } else {
          AppendedRowsOf(shown, Rendered(allSlots, dateFilter, Trim(searchFilter)), Rendered(allSlots, dateFilter, Trim(searchFilter)));
        }
      } else {
        failure := Some(outcome.error);
      }
      if failure.Some? {
        statusBar := Notice("err", ErrorText(failure.value, "Failed to load slots."));
        allSlots := [];
        var _ := RenderSlots();
        assert Rendered([], dateFilter, Trim(searchFilter)) == [] by {
          assert |multiset(Rendered([], dateFilter, Trim(searchFilter)))| == 0;
        }
      }
    }

    /** submitBooking with the form's (untrimmed) inputs. It sends nothing
        without a selected slot or with a blank name or email. Otherwise the
        payload is sent; on success the selection is dropped, the Book
        button disabled and a reload requested; on failure the selection is
        kept and the button enabled again. */
    method SubmitBooking(nameInput: string, emailInput: string, notesInput: string,
                         reply: BookReply, errorMessage: string)
      returns (sent: Option<Json>, reload: bool)
      modifies this
      ensures old(selected).None? ==> (sent.None? && !reload && selected.None? && bookEnabled == old(bookEnabled)
              && formMsg == Notice("warn", "Please select an AVAILABLE slot first."))
      ensures old(selected).Some? && (Trim(nameInput) == "" || Trim(emailInput) == "")
              ==> sent.None? && !reload && selected == old(selected) && bookEnabled == old(bookEnabled)
                  && formMsg == Notice("warn", "Name and Email are required.")
      ensures old(selected).Some? && Trim(nameInput) != "" && Trim(emailInput) != ""
              ==> sent == Some(Payload(old(selected).value, Trim(nameInput), Trim(emailInput), Trim(notesInput)))
                  && var outcome := BookOutcome(reply, errorMessage);
                  && (outcome.Ok? ==> reload && selected.None? && !bookEnabled && formMsg == Notice("ok", outcome.value))
                  && (outcome.Err? ==> !reload && selected == old(selected) && bookEnabled && formMsg == Notice("err", outcome.error))
      ensures allSlots == old(allSlots) && shown == old(shown) && statusBar == old(statusBar)
      ensures dateFilter == old(dateFilter) && searchFilter == old(searchFilter)
    {
      sent, reload := None, false;
      if selected.None? {
        formMsg := Notice("warn", "Please select an AVAILABLE slot first.");
        return;
      }
      var patientName := Trim(nameInput);
      var patientEmail := Trim(emailInput);
      var notes := Trim(notesInput);
      if patientName == "" || patientEmail == "" {
        formMsg := Notice("warn", "Name and Email are required.");
        return;
      }
      sent := Some(Payload(selected.value, patientName, patientEmail, notes));
      formMsg := Notice("muted", "Submitting booking…");
      bookEnabled := false;
      var outcome := BookOutcome(reply, errorMessage);
      if outcome.Ok? {
        formMsg := Notice("ok", outcome.value);
        selected := None;
        bookEnabled := false;
        reload := true;
      } else {
        formMsg := Notice("err", outcome.error);
        bookEnabled := true;
      }
    }
  }
}
