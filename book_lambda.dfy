/** The booking Lambda (phase_1/lambda/BookAppointmentLambda): it validates
    the request, builds a DynamoDB update expression and moves the slot from
    AVAILABLE to PENDING with a conditional update. */
module BookLambda {
  import opened Outcomes
  import opened Text
  import opened JsonValues
  import opened Appointments

  const Headers: map<string, string> := map[
    "Content-Type" := "application/json",
    "Access-Control-Allow-Origin" := "*",
    "Access-Control-Allow-Methods" := "POST,OPTIONS",
    "Access-Control-Allow-Headers" := "Content-Type"]

  /** resp(status_code, body). */
  function Resp(statusCode: int, body: map<string, Json>): Response {
    Response(statusCode, Headers, JObj(body))
  }

  // ---------- reading the request ----------

  /** event.get("body") or "{}", passed through json.loads when it is a
      string; loads is the JSON parser, None when it raises. */
  function RequestBody(event: map<string, Json>, loads: string -> Option<Json>): (r: Option<Json>)
    ensures !PyTruthy(Member(JObj(event), "body")) ==> r == loads("{}")
    ensures "body" in event && PyTruthy(Some(event["body"])) && !event["body"].JStr? ==> r == Some(event["body"])
    ensures "body" in event && event["body"].JStr? && event["body"].s != "" ==> r == loads(event["body"].s)
  {
    var given := Member(JObj(event), "body");
    var raw := if PyTruthy(given) then given.value else JStr("{}");
    if raw.JStr? then loads(raw.s) else Some(raw)
  }

  /** The fields the update uses: id and email are required, name and notes
      default to "". */
  datatype Booking = Booking(appointmentId: string, patientEmail: string, patientName: string, notes: string)

  /** Why a request is refused before the table is touched: a missing id or
      email (400), or an exception the outer handler turns into 500 (a body
      that is not an object has no .get; a value that is not a string fails
      boto3's parameter validation). */
  datatype Refusal = MissingField | Crashed

  /** body.get(key, "") with Python truthiness: a falsy value adds nothing,
      a truthy string is the value, any other truthy value fails. */
  function OptionalText(body: Json, key: string): Result<string, Refusal> {
    var v := Member(body, key);
    if !PyTruthy(v) then Ok("")
    else if v.value.JStr? then Ok(v.value.s)
    else Err(Crashed)
  }

  /** An optional field a request may carry: absent or falsy, or a truthy
      string. */
  predicate OptionalOk(body: Json, key: string) {
    !PyTruthy(Member(body, key)) || Member(body, key).value.JStr?
  }

  /** The value an accepted request has for an optional field: its string
      when truthy, "" otherwise. */
  predicate OptionalIs(body: Json, key: string, v: string) {
    if PyTruthy(Member(body, key)) then Member(body, key) == Some(JStr(v)) else v == ""
  }

  /** The request read off the body: 400 for a missing or falsy id or email;
      500 for a body that is not an object, or a truthy field that is not a
      string; otherwise the id and email strings, with the name and notes or
      "" where they are falsy. */
  function Validate(body: Json): (r: Result<Booking, Refusal>)
    ensures r.Ok? ==> r.value.appointmentId != "" && r.value.patientEmail != ""
    ensures body.JObj? && (!PyTruthy(Member(body, "appointmentId")) || !PyTruthy(Member(body, "patientEmail")))
            ==> r == Err(MissingField)
    ensures !body.JObj? ==> r == Err(Crashed)
    ensures r.Ok? ==>
              && Member(body, "appointmentId") == Some(JStr(r.value.appointmentId))
              && Member(body, "patientEmail") == Some(JStr(r.value.patientEmail))
              && OptionalIs(body, "patientName", r.value.patientName)
              && OptionalIs(body, "notes", r.value.notes)
    ensures r.Ok? <==>
              && body.JObj? && PyTruthy(Member(body, "appointmentId")) && PyTruthy(Member(body, "patientEmail"))
              && Member(body, "appointmentId").value.JStr? && Member(body, "patientEmail").value.JStr?
              && OptionalOk(body, "patientName") && OptionalOk(body, "notes")
    ensures r.Err? && body.JObj? && PyTruthy(Member(body, "appointmentId")) && PyTruthy(Member(body, "patientEmail"))
            ==> r == Err(Crashed)
  {
    if !body.JObj? then Err(Crashed)
    else
      var id, email := Member(body, "appointmentId"), Member(body, "patientEmail");
      if !PyTruthy(id) || !PyTruthy(email) then Err(MissingField)
      else if !id.value.JStr? || !email.value.JStr? then Err(Crashed)
      else
        match (OptionalText(body, "patientName"), OptionalText(body, "notes"))
        case (Ok(name), Ok(notes)) => Ok(Booking(id.value.s, email.value.s, name, notes))
        case _ => Err(Crashed)
  }

  /** A well-formed request is read back field for field. */
  lemma ValidateRequest(b: Booking)
    requires b.appointmentId != "" && b.patientEmail != ""
    ensures Validate(JObj(map["appointmentId" := JStr(b.appointmentId), "patientEmail" := JStr(b.patientEmail),
                              "patientName" := JStr(b.patientName), "notes" := JStr(b.notes)])) == Ok(b)
  {
    var body := JObj(map["appointmentId" := JStr(b.appointmentId), "patientEmail" := JStr(b.patientEmail),
                         "patientName" := JStr(b.patientName), "notes" := JStr(b.notes)]);
    assert Member(body, "appointmentId") == Some(JStr(b.appointmentId));
    assert Member(body, "patientEmail") == Some(JStr(b.patientEmail));
    assert Member(body, "patientName") == Some(JStr(b.patientName));
    assert Member(body, "notes") == Some(JStr(b.notes));
  }

  // ---------- the update expression ----------

  /** The value placeholders of the request, :pending to :notes. */
  datatype Placeholder = Pending | AvailableValue | EmailValue | NameValue | NotesValue

  function PlaceholderText(p: Placeholder): string {
    match p
    case Pending => ":pending"
    case AvailableValue => ":available"
    case EmailValue => ":email"
    case NameValue => ":name"
    case NotesValue => ":notes"
  }

  /** The attributes the update sets; the status is written through the
      name placeholder "#s". */
  datatype Attribute = StatusName | EmailAttr | NameAttr | NotesAttr

  function AttributeText(a: Attribute): string {
    match a
    case StatusName => "#s"
    case EmailAttr => "patientEmail"
    case NameAttr => "patientName"
    case NotesAttr => "notes"
  }

  /** The item attribute an expression name stands for (ExpressionAttributeNames
      maps "#s" to status). */
  function Resolve(a: Attribute): string {
    match a
    case StatusName => "status"
    case EmailAttr => "patientEmail"
    case NameAttr => "patientName"
    case NotesAttr => "notes"
  }

  /** One `attribute = :placeholder` clause of a SET expression. */
  datatype Clause = Clause(attribute: Attribute, placeholder: Placeholder)

  /** The clauses the handler writes, in order: status and email always,
      name and notes only when given. */
  function Clauses(hasName: bool, hasNotes: bool): seq<Clause> {
    [Clause(StatusName, Pending), Clause(EmailAttr, EmailValue)]
    + (if hasName then [Clause(NameAttr, NameValue)] else [])
    + (if hasNotes then [Clause(NotesAttr, NotesValue)] else [])
  }

  function ClauseText(c: Clause): string {
    AttributeText(c.attribute) + " = " + PlaceholderText(c.placeholder)
  }

  function ClauseTexts(cs: seq<Clause>): (r: seq<string>)
    ensures |r| == |cs| && forall k :: 0 <= k < |cs| ==> r[k] == ClauseText(cs[k])
  {
    seq(|cs|, k requires 0 <= k < |cs| => ClauseText(cs[k]))
  }

  /** The DynamoDB text of a SET expression. */
  function SetExpression(cs: seq<Clause>): string {
    "SET " + Join(ClauseTexts(cs), ", ")
  }

  function Placeholders(cs: seq<Clause>): set<Placeholder> {
    set c | c in cs :: c.placeholder
  }

  lemma {:induction false} JoinSnoc(ps: seq<string>, p: string, sep: string)
    requires ps != []
    ensures Join(ps + [p], sep) == Join(ps, sep) + sep + p
  {
    if |ps| == 1 {
      assert ps + [p] == [ps[0], p];
      assert [ps[0], p][1..] == [p];
    } else {
      assert (ps + [p])[1..] == ps[1..] + [p];
      JoinSnoc(ps[1..], p, sep);
    }
  }

  /** Appending a clause appends its text, after ", ", to the expression. */
  lemma SetExpressionSnoc(cs: seq<Clause>, c: Clause, suffix: string)
    requires cs != [] && suffix == ", " + ClauseText(c)
    ensures SetExpression(cs + [c]) == SetExpression(cs) + suffix
  {
    assert ClauseTexts(cs + [c]) == ClauseTexts(cs) + [ClauseText(c)];
    JoinSnoc(ClauseTexts(cs), ClauseText(c), ", ");
  }

  const BaseExpression: string := "SET #s = :pending, patientEmail = :email"

  lemma StatusClauseText()
    ensures ClauseText(Clause(StatusName, Pending)) == "#s = :pending"
  {
  }

  lemma EmailClauseText()
    ensures ClauseText(Clause(EmailAttr, EmailValue)) == "patientEmail = :email"
  {
  }

  lemma BaseConcat()
    ensures "SET " + "#s = :pending" + ", " + "patientEmail = :email" == BaseExpression
  {
    StatusHalf();
    EmailHalf();
    BaseHalves();
    assert "SET " + "#s = :pending" + ", " + "patientEmail = :email"
        == ("SET " + "#s = :pending") + (", " + "patientEmail = :email");
  }

  lemma StatusHalf()
    ensures "SET " + "#s = :pending" == "SET #s = :pending"
  {
  }

  lemma EmailHalf()
    ensures ", " + "patientEmail = :email" == ", patientEmail = :email"
  {
  }

  lemma BaseHalves()
    ensures "SET #s = :pending" + ", patientEmail = :email" == BaseExpression
  {
  }

  lemma BaseClauses()
    ensures SetExpression(Clauses(false, false))
         == "SET " + ClauseText(Clause(StatusName, Pending)) + ", " + ClauseText(Clause(EmailAttr, EmailValue))
  {
    assert Clauses(false, false) == [Clause(StatusName, Pending), Clause(EmailAttr, EmailValue)];
    TwoClauses(Clause(StatusName, Pending), Clause(EmailAttr, EmailValue));
  }

  lemma TwoClauses(c1: Clause, c2: Clause)
    ensures SetExpression([c1, c2]) == "SET " + ClauseText(c1) + ", " + ClauseText(c2)
  {
    var ts := ClauseTexts([c1, c2]);
    var t1, t2 := ClauseText(c1), ClauseText(c2);
    assert ts == [t1, t2];
    assert ts[1..] == [t2];
    assert Join(ts, ", ") == t1 + ", " + t2;
    assert "SET " + (t1 + ", " + t2) == "SET " + t1 + ", " + t2;
  }

  lemma OptionalClauseTexts()
    ensures ", " + ClauseText(Clause(NameAttr, NameValue)) == ", patientName = :name"
    ensures ", " + ClauseText(Clause(NotesAttr, NotesValue)) == ", notes = :notes"
  {
  }

  /** The handler's initial text is the SET expression of the two fixed
      clauses. */
  lemma BaseExpressionText()
    ensures SetExpression(Clauses(false, false)) == BaseExpression
  {
    StatusClauseText();
    EmailClauseText();
    BaseClauses();
    BaseConcat();
  }

  /** The update expression and the attribute values the handler builds:
      each optional field appends its clause (the `+=` on the expression
      text) and adds its value. */
  method BuildUpdate(b: Booking) returns (updateExpr: string, values: map<Placeholder, string>)
    ensures updateExpr == SetExpression(Clauses(b.patientName != "", b.notes != ""))
    ensures values.Keys == {Pending, AvailableValue, EmailValue}
                           + (if b.patientName != "" then {NameValue} else {})
                           + (if b.notes != "" then {NotesValue} else {})
    ensures values[Pending] == "PENDING" && values[AvailableValue] == "AVAILABLE" && values[EmailValue] == b.patientEmail
    ensures b.patientName != "" ==> values[NameValue] == b.patientName
    ensures b.notes != "" ==> values[NotesValue] == b.notes
  {
    var clauses := [Clause(StatusName, Pending), Clause(EmailAttr, EmailValue)];
    values := map[Pending := "PENDING", AvailableValue := "AVAILABLE", EmailValue := b.patientEmail];
    if b.patientName != "" {
      clauses := clauses + [Clause(NameAttr, NameValue)];
      values := values[NameValue := b.patientName];
    }
    if b.notes != "" {
      clauses := clauses + [Clause(NotesAttr, NotesValue)];
      values := values[NotesValue := b.notes];
    }
    assert clauses == Clauses(b.patientName != "", b.notes != "");
    updateExpr := SetExpression(clauses);
  }

  /** The text of the expression: the base text, then ", patientName = :name"
      when a name is given, then ", notes = :notes" when notes are. */
  lemma ExpressionText(hasName: bool, hasNotes: bool)
    ensures SetExpression(Clauses(hasName, hasNotes))
         == BaseExpression + (if hasName then ", patientName = :name" else "") + (if hasNotes then ", notes = :notes" else "")
  {
    BaseExpressionText();
    OptionalClauseTexts();
    ExpressionFromParts(hasName, hasNotes, BaseExpression, ", patientName = :name", ", notes = :notes");
  }

  /** The same, with the three texts named. */
  lemma ExpressionFromParts(hasName: bool, hasNotes: bool, baseText: string, nameText: string, notesText: string)
    requires SetExpression(Clauses(false, false)) == baseText
    requires ", " + ClauseText(Clause(NameAttr, NameValue)) == nameText
    requires ", " + ClauseText(Clause(NotesAttr, NotesValue)) == notesText
    ensures SetExpression(Clauses(hasName, hasNotes))
         == baseText + (if hasName then nameText else "") + (if hasNotes then notesText else "")
  {
    var base := Clauses(false, false);
    var name, notes := Clause(NameAttr, NameValue), Clause(NotesAttr, NotesValue);
    if hasName {
      SetExpressionSnoc(base, name, nameText);
      assert Clauses(true, false) == base + [name];
      if hasNotes {
        SetExpressionSnoc(base + [name], notes, notesText);
        assert Clauses(true, true) == base + [name] + [notes];
      }
    } else if hasNotes {
      SetExpressionSnoc(base, notes, notesText);
      assert Clauses(false, true) == base + [notes];
    }
  }

  /** Every value the request supplies is used, by the update expression or,
      for :available, by the condition `#s = :available`, and every
      placeholder the expression uses has a value. */
  lemma ValuesMatchExpression(hasName: bool, hasNotes: bool)
    ensures Placeholders(Clauses(hasName, hasNotes)) + {AvailableValue}
         == {Pending, AvailableValue, EmailValue} + (if hasName then {NameValue} else {}) + (if hasNotes then {NotesValue} else {})
  {
    var cs := Clauses(hasName, hasNotes);
    assert Clause(StatusName, Pending) in cs && Clause(EmailAttr, EmailValue) in cs;
    if hasName { assert Clause(NameAttr, NameValue) in cs; }
    if hasNotes { assert cs[|cs| - 1] == Clause(NotesAttr, NotesValue); }
  }

  /** What DynamoDB does with a SET expression: each clause assigns its
      placeholder's value to the attribute it names. */
  function ApplyClauses(item: Item, cs: seq<Clause>, values: map<Placeholder, string>): Item
    requires forall c :: c in cs ==> c.placeholder in values
    decreases |cs|
  {
    if cs == [] then item
    else ApplyClauses(item[Resolve(cs[0].attribute) := values[cs[0].placeholder]], cs[1..], values)
  }

  /** The booked item: PENDING with the patient's email, and their name and
      notes when given; every other attribute is kept. */
  function Booked(item: Item, b: Booking): (r: Item)
    ensures "status" in r && r["status"] == "PENDING" && "patientEmail" in r && r["patientEmail"] == b.patientEmail
    ensures b.patientName != "" ==> "patientName" in r && r["patientName"] == b.patientName
    ensures b.notes != "" ==> "notes" in r && r["notes"] == b.notes
    ensures forall k :: k in item && k !in {"status", "patientEmail", "patientName", "notes"} ==> k in r && r[k] == item[k]
    ensures r.Keys == item.Keys + {"status", "patientEmail"}
                      + (if b.patientName != "" then {"patientName"} else {})
                      + (if b.notes != "" then {"notes"} else {})
  {
    var r := item["status" := "PENDING"]["patientEmail" := b.patientEmail];
    var r := if b.patientName != "" then r["patientName" := b.patientName] else r;
    if b.notes != "" then r["notes" := b.notes] else r
  }

  /** The expression the handler builds sets exactly the booked item. */
  lemma UpdateEffect(item: Item, b: Booking, values: map<Placeholder, string>)
    requires values.Keys == {Pending, AvailableValue, EmailValue}
                            + (if b.patientName != "" then {NameValue} else {})
                            + (if b.notes != "" then {NotesValue} else {})
    requires values[Pending] == "PENDING" && values[EmailValue] == b.patientEmail
    requires b.patientName != "" ==> values[NameValue] == b.patientName
    requires b.notes != "" ==> values[NotesValue] == b.notes
    ensures ApplyClauses(item, Clauses(b.patientName != "", b.notes != ""), values) == Booked(item, b)
  {
    var cs := Clauses(b.patientName != "", b.notes != "");
    var i2 := item["status" := "PENDING"]["patientEmail" := b.patientEmail];
    assert ApplyClauses(item, cs, values) == ApplyClauses(i2, cs[2..], values);
    if b.patientName != "" {
      var i3 := i2["patientName" := b.patientName];
      assert ApplyClauses(i2, cs[2..], values) == ApplyClauses(i3, cs[3..], values);
      if b.notes != "" {
        assert cs[3..] == [Clause(NotesAttr, NotesValue)];
        assert ApplyClauses(i3, cs[3..], values) == ApplyClauses(i3["notes" := b.notes], cs[4..], values);
      } else {
        assert cs[3..] == [];
      }
    } else if b.notes != "" {
      assert cs[2..] == [Clause(NotesAttr, NotesValue)];
      assert ApplyClauses(i2, cs[2..], values) == ApplyClauses(i2["notes" := b.notes], cs[3..], values);
    } else {
      assert cs[2..] == [];
    }
  }

  // ---------- the handler ----------

  /** The conditional update's condition on the stored item. */
  predicate IsAvailable(items: map<string, Item>, id: string) {
    id in items && "status" in items[id] && items[id]["status"] == "AVAILABLE"
  }

  const NotAvailable: string := "Slot is not AVAILABLE (already booked or pending)."

  /** handler on the table: the new table and the response. fault is a
      DynamoDB error other than the failed condition and its text;
      errorText is str(e) of an exception that reaches the outer handler. */
  function Handle(items: map<string, Item>, event: map<string, Json>, loads: string -> Option<Json>,
                  fault: Option<string>, errorText: string): (r: (map<string, Item>, Response))
    ensures r.1.headers == Headers && r.1.body.JObj?
    ensures r.1.statusCode in {200, 400, 409, 500}
    ensures r.1.statusCode != 200 ==> r.0 == items
  {
    match RequestBody(event, loads)
    case None => (items, Resp(500, map["error" := JStr(errorText)]))
    case Some(body) =>
      match Validate(body)
      case Err(MissingField) => (items, Resp(400, map["error" := JStr(MissingText)]))
      case Err(Crashed) => (items, Resp(500, map["error" := JStr(errorText)]))
      case Ok(b) =>
        if fault.Some? then (items, Resp(500, map["error" := JStr("DynamoDB error: " + fault.value)]))
        else if !IsAvailable(items, b.appointmentId) then (items, Resp(409, map["error" := JStr(NotAvailable)]))
        else (items[b.appointmentId := Booked(items[b.appointmentId], b)],
              Resp(200, map["status" := JStr("PENDING"), "message" := JStr("Booking submitted.")]))
  }

  const MissingText: string := "appointmentId and patientEmail are required"

  /** The response for every request: 500 with str(e) for a body that cannot
      be parsed or read; 400 for a missing id or email; 500 with the
      DynamoDB error's text for a failed update; 409 for a slot that is
      missing or not AVAILABLE; otherwise 200 with the PENDING status. Only
      the 200 case changes the table. */
  lemma ResponseMapping(items: map<string, Item>, event: map<string, Json>, loads: string -> Option<Json>,
                        fault: Option<string>, errorText: string)
    ensures var r := Handle(items, event, loads, fault, errorText);
      var body := RequestBody(event, loads);
      var request := if body.Some? then Validate(body.value) else Err(Crashed);
      && (request == Err(Crashed) ==> r == (items, Resp(500, map["error" := JStr(errorText)])))
      && (request == Err(MissingField) ==> r == (items, Resp(400, map["error" := JStr(MissingText)])))
      && (request.Ok? && fault.Some? ==> r == (items, Resp(500, map["error" := JStr("DynamoDB error: " + fault.value)])))
      && (request.Ok? && fault.None? && !IsAvailable(items, request.value.appointmentId) ==>
            r == (items, Resp(409, map["error" := JStr(NotAvailable)])))
      && (request.Ok? && fault.None? && IsAvailable(items, request.value.appointmentId) ==>
            r.1 == Resp(200, map["status" := JStr("PENDING"), "message" := JStr("Booking submitted.")]))
  {
  }

  /** A booking succeeds exactly for a valid request on an AVAILABLE slot,
      and then changes that one item to its booked form. */
  lemma BookingIsConditional(items: map<string, Item>, event: map<string, Json>, loads: string -> Option<Json>,
                             fault: Option<string>, errorText: string)
    ensures var r := Handle(items, event, loads, fault, errorText);
      r.1.statusCode == 200 <==>
        (&& RequestBody(event, loads).Some? && Validate(RequestBody(event, loads).value).Ok?
         && fault.None? && IsAvailable(items, Validate(RequestBody(event, loads).value).value.appointmentId))
    ensures var r := Handle(items, event, loads, fault, errorText);
      r.1.statusCode == 200 ==>
        var b := Validate(RequestBody(event, loads).value).value;
        && r.0 == items[b.appointmentId := Booked(items[b.appointmentId], b)]
        && r.0[b.appointmentId]["status"] == "PENDING"
        && !IsAvailable(r.0, b.appointmentId)
  {
  }

  /** A second booking of the same slot is refused with 409. */
  lemma NoDoubleBooking(items: map<string, Item>, event: map<string, Json>, loads: string -> Option<Json>,
                        errorText: string)
    requires Handle(items, event, loads, None, errorText).1.statusCode == 200
    ensures Handle(Handle(items, event, loads, None, errorText).0, event, loads, None, errorText).1.statusCode == 409
  {
  }

  /** A request without a body is read as {} and refused with 400. */
  lemma EmptyBodyRefused(event: map<string, Json>, loads: string -> Option<Json>,
                         items: map<string, Item>, fault: Option<string>, errorText: string)
    requires "body" !in event && loads("{}") == Some(JObj(map[]))
    ensures Handle(items, event, loads, fault, errorText).1.statusCode == 400
  {
    assert Member(JObj(map[]), "appointmentId").None?;
  }

  /** The handler on the table, updated in place. */
  method Handler(table: Table, event: map<string, Json>, loads: string -> Option<Json>,
                 fault: Option<string>, errorText: string) returns (response: Response)
    modifies table
    ensures (table.items, response) == Handle(old(table.items), event, loads, fault, errorText)
  {
    var body := RequestBody(event, loads);
    if body.None? {
      return Resp(500, map["error" := JStr(errorText)]);
    }
    var request := Validate(body.value);
    if request.Err? {
      if request.error == MissingField {
        return Resp(400, map["error" := JStr(MissingText)]);
      }
      return Resp(500, map["error" := JStr(errorText)]);
    }
    var b := request.value;
    var updateExpr, values := BuildUpdate(b);
    if fault.Some? {
      return Resp(500, map["error" := JStr("DynamoDB error: " + fault.value)]);
    }
    if !IsAvailable(table.items, b.appointmentId) {
      return Resp(409, map["error" := JStr(NotAvailable)]);
    }
    ValuesMatchExpression(b.patientName != "", b.notes != "");
    UpdateEffect(table.items[b.appointmentId], b, values);
    var cs := Clauses(b.patientName != "", b.notes != "");
    table.items := table.items[b.appointmentId := ApplyClauses(table.items[b.appointmentId], cs, values)];
    response := Resp(200, map["status" := JStr("PENDING"), "message" := JStr("Booking submitted.")]);
  }
}
