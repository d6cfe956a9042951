/** The admin status Lambda (phase_2/lambda/UpdateAppointmentStatus.py): it
    sets the status of an existing appointment and, for ACCEPTED and
    DECLINED, starts the notification workflow. */
module StatusLambda {
  import opened Outcomes
  import opened Text
  import opened JsonValues
  import opened Appointments

  const Headers: map<string, string> := map[
    "Content-Type" := "application/json",
    "Access-Control-Allow-Origin" := "*"]

  /** A started Step Functions execution: the state machine and its input. */
  datatype Execution = Execution(stateMachineArn: string, input: Json)

  /** The executions started so far, in order. */
  class Workflows {
    var started: seq<Execution>

    constructor()
      ensures started == []
    {
      started := [];
    }
  }

  /** The request body: a string body is parsed (loads is the JSON parser,
      None when it raises), any other body is used as it is, and with no
      body member the event itself is the request. */
  function RequestBody(event: map<string, Json>, loads: string -> Option<Json>): (r: Option<Json>)
    ensures "body" !in event ==> r == Some(JObj(event))
    ensures "body" in event && !event["body"].JStr? ==> r == Some(event["body"])
    ensures "body" in event && event["body"].JStr? ==> r == loads(event["body"].s)
  {
    if "body" in event && event["body"].JStr? then loads(event["body"].s)
    else if "body" in event then Some(event["body"])
    else Some(JObj(event))
  }

  /** body['appointmentId'] and body['status']: None when either key is
      missing or the body is not an object (KeyError, TypeError). */
  function RequiredFields(body: Json): (r: Option<(Json, Json)>)
    ensures r.Some? <==> body.JObj? && "appointmentId" in body.fields && "status" in body.fields
  {
    if body.JObj? && "appointmentId" in body.fields && "status" in body.fields
    then Some((body.fields["appointmentId"], body.fields["status"]))
    else None
  }

  /** The workflow is started for ACCEPTED and DECLINED when a state machine
      is configured (a non-empty STATE_MACHINE_ARN). */
  function Triggers(newStatus: string, stateMachineArn: Option<string>): (r: bool)
    ensures r ==> stateMachineArn.Some? && stateMachineArn.value != ""
    ensures newStatus != "ACCEPTED" && newStatus != "DECLINED" ==> !r
    ensures stateMachineArn.Some? && stateMachineArn.value != "" && newStatus in {"ACCEPTED", "DECLINED"} ==> r
  {
    (newStatus == "ACCEPTED" || newStatus == "DECLINED") && stateMachineArn.Some? && stateMachineArn.value != ""
  }

  function Reply(statusCode: int, body: map<string, Json>): Response {
    Response(statusCode, Headers, JObj(body))
  }

  /** The except branch: 404 when the error's text names the failed
      condition, 500 otherwise. */
  function ErrorReply(errorText: string): (r: Response)
    ensures r.statusCode == 404 <==> Contains(errorText, "ConditionalCheckFailedException")
    ensures r.statusCode in {404, 500}
  {
    if Contains(errorText, "ConditionalCheckFailedException")
    then Reply(404, map["message" := JStr("Appointment not found")])
    else Reply(500, map["message" := JStr("Error updating status")])
  }

  function Success(appointmentId: string, newStatus: string): Response {
    Reply(200, map["message" := JStr("Status updated"), "appointmentId" := JStr(appointmentId),
                   "newStatus" := JStr(newStatus)])
  }

  /** The state the handler leaves and how it ends. */
  datatype Outcome = Outcome(items: map<string, Item>, started: seq<Execution>, result: Invocation)

  /** lambda_handler. updateFault and startFault are the texts of errors the
      two AWS calls raise other than the failed condition; validationText is
      the text of boto3's error for an id or status that is not a string; the
      failed condition's own text names ConditionalCheckFailedException. */
  function Handle(items: map<string, Item>, started: seq<Execution>, event: map<string, Json>,
                  loads: string -> Option<Json>, stateMachineArn: Option<string>,
                  updateFault: Option<string>, startFault: Option<string>, validationText: string): (r: Outcome)
    ensures r.result.Returned? ==> r.result.response.headers == Headers
    ensures r.result.Raised? ==> r.items == items && r.started == started
  {
    match RequestBody(event, loads)
    case None => Outcome(items, started, Raised)
    case Some(body) =>
      match RequiredFields(body)
      case None => Outcome(items, started, Raised)
      case Some((id, status)) =>
        if !id.JStr? || !status.JStr? then Outcome(items, started, Returned(ErrorReply(validationText)))
        else if updateFault.Some? then Outcome(items, started, Returned(ErrorReply(updateFault.value)))
        else if id.s !in items then Outcome(items, started, Returned(ErrorReply("ConditionalCheckFailedException")))
        else
          var updated := items[id.s := items[id.s]["status" := status.s]];
          if !Triggers(status.s, stateMachineArn) then Outcome(updated, started, Returned(Success(id.s, status.s)))
          else if startFault.Some? then Outcome(updated, started, Returned(ErrorReply(startFault.value)))
          else
            var input := JObj(map["appointmentId" := JStr(id.s), "status" := JStr(status.s)]);
            Outcome(updated, started + [Execution(stateMachineArn.value, input)], Returned(Success(id.s, status.s)))
  }

  lemma ConditionText()
    ensures Contains("ConditionalCheckFailedException", "ConditionalCheckFailedException")
  {
    assert OccursAt("ConditionalCheckFailedException", "ConditionalCheckFailedException", 0);
  }

  /** A well-formed request for an appointment that exists sets its status,
      whatever the value, and touches nothing else; one for an appointment
      that does not exist is answered 404 and changes nothing. */
  lemma StatusSetOnlyIfExists(items: map<string, Item>, started: seq<Execution>, id: string, status: string,
                              loads: string -> Option<Json>, stateMachineArn: Option<string>,
                              startFault: Option<string>, validationText: string)
    ensures var event := map["appointmentId" := JStr(id), "status" := JStr(status)];
      var r := Handle(items, started, event, loads, stateMachineArn, None, startFault, validationText);
      && (id in items ==> r.items == items[id := items[id]["status" := status]])
      && (id in items && (!Triggers(status, stateMachineArn) || startFault.None?) ==>
            r.result == Returned(Success(id, status)) && r.result.response.statusCode == 200)
      && (id !in items ==> (r.items == items && r.started == started
                            && r.result == Returned(ErrorReply("ConditionalCheckFailedException"))
                            && r.result.response.statusCode == 404))
  {
    ConditionText();
    var event := map["appointmentId" := JStr(id), "status" := JStr(status)];
    assert RequestBody(event, loads) == Some(JObj(event));
    assert RequiredFields(JObj(event)) == Some((JStr(id), JStr(status)));
  }

  /** Every request that reads both fields ends in a reply. Ids or statuses
      that are not strings, and a failed update, leave the table and the log
      as they were and answer with the error's reply. A successful update
      answers 200 with the id and the new status, unless starting the
      workflow fails. */
  lemma ReplyMapping(items: map<string, Item>, started: seq<Execution>, event: map<string, Json>,
                     loads: string -> Option<Json>, stateMachineArn: Option<string>,
                     updateFault: Option<string>, startFault: Option<string>, validationText: string)
    requires RequestBody(event, loads).Some? && RequiredFields(RequestBody(event, loads).value).Some?
    ensures var r := Handle(items, started, event, loads, stateMachineArn, updateFault, startFault, validationText);
      var (id, status) := RequiredFields(RequestBody(event, loads).value).value;
      && r.result.Returned?
      && (!id.JStr? || !status.JStr? ==>
            r == Outcome(items, started, Returned(ErrorReply(validationText))))
      && (id.JStr? && status.JStr? && updateFault.Some? ==>
            r == Outcome(items, started, Returned(ErrorReply(updateFault.value))))
      && (id.JStr? && status.JStr? && updateFault.None? && id.s in items ==>
            && r.items == items[id.s := items[id.s]["status" := status.s]]
            && (if Triggers(status.s, stateMachineArn) && startFault.Some?
                then r.result == Returned(ErrorReply(startFault.value))
                else r.result == Returned(Success(id.s, status.s)) && r.result.response.statusCode == 200))
      && (r.result.response.statusCode == 200 <==>
            id.JStr? && status.JStr? && updateFault.None? && id.s in items
            && (!Triggers(status.s, stateMachineArn) || startFault.None?))
  {
    var r := Handle(items, started, event, loads, stateMachineArn, updateFault, startFault, validationText);
    var (id, status) := RequiredFields(RequestBody(event, loads).value).value;
    ConditionText();
    if !id.JStr? || !status.JStr? {
      assert r.result == Returned(ErrorReply(validationText));
    } else if updateFault.Some? {
      assert r.result == Returned(ErrorReply(updateFault.value));
    } else if id.s !in items {
      assert r.result == Returned(ErrorReply("ConditionalCheckFailedException"));
    }
  }

  /** The workflow log grows by exactly one execution, carrying the id and
      the status, when the update succeeded and the rule fires; otherwise it
      is unchanged. */
  lemma WorkflowRule(items: map<string, Item>, started: seq<Execution>, event: map<string, Json>,
                     loads: string -> Option<Json>, stateMachineArn: Option<string>,
                     updateFault: Option<string>, startFault: Option<string>, validationText: string)
    ensures var r := Handle(items, started, event, loads, stateMachineArn, updateFault, startFault, validationText);
      && (r.started == started || |r.started| == |started| + 1)
      && (|r.started| == |started| + 1 <==>
           (&& RequestBody(event, loads).Some? && RequiredFields(RequestBody(event, loads).value).Some?
            && var (id, status) := RequiredFields(RequestBody(event, loads).value).value;
            && id.JStr? && status.JStr? && updateFault.None? && id.s in items
            && Triggers(status.s, stateMachineArn) && startFault.None?))
      && (|r.started| == |started| + 1 ==>
           && r.started[..|started|] == started
           && var (id, status) := RequiredFields(RequestBody(event, loads).value).value;
           && r.started[|started|] == Execution(stateMachineArn.value,
                JObj(map["appointmentId" := JStr(id.s), "status" := JStr(status.s)]))
           && r.result == Returned(Success(id.s, status.s)))
  {
    var r := Handle(items, started, event, loads, stateMachineArn, updateFault, startFault, validationText);
    if |r.started| == |started| + 1 {
      assert r.started[..|started|] == started;
    }
  }

  /** When starting the workflow fails the reply is an error although the
      status was already written. */
  lemma StartFailureAfterUpdate(items: map<string, Item>, id: string, loads: string -> Option<Json>,
                                arn: string, fault: string, validationText: string)
    requires id in items && arn != "" && !Contains(fault, "ConditionalCheckFailedException")
    ensures var event := map["appointmentId" := JStr(id), "status" := JStr("ACCEPTED")];
      var r := Handle(items, [], event, loads, Some(arn), None, Some(fault), validationText);
      && r.result.Returned? && r.result.response.statusCode == 500
      && r.items[id]["status"] == "ACCEPTED" && r.started == []
  {
    var event := map["appointmentId" := JStr(id), "status" := JStr("ACCEPTED")];
    assert RequestBody(event, loads) == Some(JObj(event));
    assert RequiredFields(JObj(event)) == Some((JStr(id), JStr("ACCEPTED")));
  }

  /** A request without appointmentId or status raises out of the handler. */
  lemma MissingKeyRaises(items: map<string, Item>, started: seq<Execution>, event: map<string, Json>,
                         loads: string -> Option<Json>, stateMachineArn: Option<string>,
                         updateFault: Option<string>, startFault: Option<string>, validationText: string)
    requires "body" !in event && ("appointmentId" !in event || "status" !in event)
    ensures Handle(items, started, event, loads, stateMachineArn, updateFault, startFault, validationText).result == Raised
  {
  }

  /** The handler on the table and the workflow log, updated in place. */
  method Handler(table: Table, flows: Workflows, event: map<string, Json>, loads: string -> Option<Json>,
                 stateMachineArn: Option<string>, updateFault: Option<string>, startFault: Option<string>,
                 validationText: string) returns (result: Invocation)
    modifies table, flows
    ensures Outcome(table.items, flows.started, result)
         == Handle(old(table.items), old(flows.started), event, loads, stateMachineArn, updateFault, startFault, validationText)
  {
    var body := RequestBody(event, loads);
    if body.None? {
      return Raised;
    }
    var fields := RequiredFields(body.value);
    if fields.None? {
      return Raised;
    }
    var (id, newStatus) := fields.value;
    if !id.JStr? || !newStatus.JStr? {
      return Returned(ErrorReply(validationText));
    }
    if updateFault.Some? {
      return Returned(ErrorReply(updateFault.value));
    }
    if id.s !in table.items {
      return Returned(ErrorReply("ConditionalCheckFailedException"));
    }
    table.items := table.items[id.s := table.items[id.s]["status" := newStatus.s]];
    if Triggers(newStatus.s, stateMachineArn) {
      if startFault.Some? {
        return Returned(ErrorReply(startFault.value));
      }
      var input := JObj(map["appointmentId" := JStr(id.s), "status" := JStr(newStatus.s)]);
      flows.started := flows.started + [Execution(stateMachineArn.value, input)];
    }
    result := Returned(Success(id.s, newStatus.s));
  }
}
