/** The HTTP gateway: each route checks its body for the keys it needs,
    builds a request envelope, hands it to the dispatcher and returns the
    dispatcher's reply as it came. The message channel between the two is
    modelled as a direct call. */
module Api {
  import opened Values
  import opened Database
  import opened Scheduler

  /** What `request.get_json()` returns to the schedule and cancel routes:
      the decoded JSON object, or None when the JSON body is `null`. For a
      request Flask cannot decode as JSON the call raises instead, and the
      route's own checks never run. */
  type Body = Option<Object>

  datatype Route = ScheduleRoute | CancelRoute | ViewTodayRoute | ViewAllRoute

  /** The request envelopes the gateway sends. */
  datatype Envelope =
    | ScheduleEnvelope(pId: Value, patient: Value, date: Value, time: Value)
    | CancelEnvelope(appointmentId: Value)
    | ViewTodayEnvelope
    | ViewAllEnvelope

  /** What a route does with its body before anything is sent. */
  datatype Gate =
    | Rejected(reply: Reply)     // returned with status 400
    | Forwarded(envelope: Envelope)
    | Raised(fault: Fault)       // an exception inside the route

  /** The envelope as the dict that goes over the channel. */
  function Encode(e: Envelope): Object
  {
    match e
    case ScheduleEnvelope(p, n, d, h) =>
      map["action" := Str("schedule"), "p_id" := p, "patient" := n, "date" := d, "time" := h]
    case CancelEnvelope(k) => map["action" := Str("cancel"), "appointment_id" := k]
    case ViewTodayEnvelope => map["action" := Str("view_today")]
    case ViewAllEnvelope => map["action" := Str("view_all")]
  }

  /** The action each envelope stands for. */
  function ActionOf(e: Envelope): Action
  {
    match e
    case ScheduleEnvelope(p, n, d, h) => ScheduleAction(p, n, d, h)
    case CancelEnvelope(k) => CancelAction(k)
    case ViewTodayEnvelope => ViewTodayAction
    case ViewAllEnvelope => ViewAllAction
  }

  predicate HasScheduleFields(body: Body)
  {
    body.Some? && "patient" in body.value && "date" in body.value && "time" in body.value
  }

  /** `POST /schedule`: only patient, date and time are checked; p_id is then
      read with `data['p_id']`. */
  function ScheduleGate(body: Body): (g: Gate)
    ensures g.Rejected? <==> !HasScheduleFields(body)
    ensures g.Rejected? ==> g.reply == Failed("Missing required fields.")
    ensures g.Raised? <==> HasScheduleFields(body) && "p_id" !in body.value
    ensures g.Raised? ==> g.fault == MissingKey("p_id")
    ensures g.Forwarded? ==>
              && g.envelope.ScheduleEnvelope?
              && Encode(g.envelope).Keys == {"action", "p_id", "patient", "date", "time"}
              && forall key :: key in Encode(g.envelope) && key != "action" ==> Encode(g.envelope)[key] == body.value[key]
  {
    if body.None? || body.value == map[] || !HasScheduleFields(body) then
      Rejected(Failed("Missing required fields."))
    else if "p_id" !in body.value then
      Raised(MissingKey("p_id"))
    else
      var data := body.value;
      Forwarded(ScheduleEnvelope(data["p_id"], data["patient"], data["date"], data["time"]))
  }

  /** `POST /cancel`. */
  function CancelGate(body: Body): (g: Gate)
    ensures g.Rejected? <==> body.None? || "appointment_id" !in body.value
    ensures g.Rejected? ==> g.reply == Failed("Missing appointment ID.")
    ensures !g.Raised?
    ensures g.Forwarded? ==> Encode(g.envelope) == map["action" := Str("cancel"), "appointment_id" := body.value["appointment_id"]]
  {
    if body.None? || body.value == map[] || "appointment_id" !in body.value then
      Rejected(Failed("Missing appointment ID."))
    else
      Forwarded(CancelEnvelope(body.value["appointment_id"]))
  }

  function RouteGate(route: Route, body: Body): Gate
  {
    match route
    case ScheduleRoute => ScheduleGate(body)
    case CancelRoute => CancelGate(body)
    case ViewTodayRoute => Forwarded(ViewTodayEnvelope)
    case ViewAllRoute => Forwarded(ViewAllEnvelope)
  }

  /** What the HTTP client ends up with. */
  datatype ClientResult =
    | Http(status: int, reply: Reply) // a JSON reply with its status code
    | ServerError                     // an exception in the route: status 500
    | Hang                            // the dispatcher died; the route waits for a reply forever

  function Relay(o: Outcome): ClientResult
  {
    match o
    case Replied(r) => Http(200, r)
    case Crashed(_) => Hang
  }

  /** One client call through the gateway and a dispatcher (`Step` for the
      system as written, `IntendedStep` for the intended one). */
  function Serve(route: Route, body: Body, t: Table, today: string,
                 dispatch: (Table, Object, string) -> (Outcome, Table)): (ClientResult, Table)
  {
    match RouteGate(route, body)
    case Rejected(r) => (Http(400, r), t)
    case Raised(_) => (ServerError, t)
    case Forwarded(e) =>
      var (o, t') := dispatch(t, Encode(e), today);
      (Relay(o), t')
  }

  /** The dispatcher reads back from every envelope the action it was built for. */
  lemma EnvelopeRoundTrip(e: Envelope)
    ensures Parse(Encode(e)) == ActionOf(e)
  {
  }

  /** The view routes ignore any body and send an envelope whose only key is `action`. */
  lemma ViewEnvelopesCarryOnlyAction(body: Body)
    ensures RouteGate(ViewTodayRoute, body).Forwarded?
    ensures RouteGate(ViewAllRoute, body).Forwarded?
    ensures Encode(RouteGate(ViewTodayRoute, body).envelope).Keys == {"action"}
    ensures Encode(RouteGate(ViewAllRoute, body).envelope).Keys == {"action"}
  {
  }

  /** A rejected or failing route never reaches the table; a forwarded one
      returns the dispatcher's reply unchanged. */
  lemma ForwardedReplyIsVerbatim(route: Route, body: Body, t: Table, today: string,
                                 dispatch: (Table, Object, string) -> (Outcome, Table))
    ensures !RouteGate(route, body).Forwarded? ==> Serve(route, body, t, today, dispatch).1 == t
    ensures RouteGate(route, body).Forwarded? ==>
              var (o, t') := dispatch(t, Encode(RouteGate(route, body).envelope), today);
              && Serve(route, body, t, today, dispatch).1 == t'
              && (o.Replied? ==> Serve(route, body, t, today, dispatch).0 == Http(200, o.reply))
              && (o.Crashed? ==> Serve(route, body, t, today, dispatch).0 == Hang)
  {
  }

  /** As written, a complete schedule body leaves the client waiting forever
      and the table unchanged. */
  lemma ScheduleRouteHangs(body: Body, t: Table, today: string)
    requires HasScheduleFields(body) && "p_id" in body.value
    ensures Serve(ScheduleRoute, body, t, today, Step) == (Hang, t)
  {
  }

  /** The demo client's booking (test_client.py:85) with `p_id` 7 added, run
      against the intended dispatcher: booking John Doe into an empty table
      returns id 1 ... */
  lemma ScenarioSchedule(today: string)
    ensures Serve(ScheduleRoute, Some(map["p_id" := Int(7), "patient" := Str("John Doe"),
                                          "date" := Str("2025-02-25"), "time" := Str("10:00")]),
                  Empty(), today, IntendedStep)
            == (Http(200, Scheduled(1)), Table([Appointment(1, 7, "John Doe", "2025-02-25", "10:00")], 2))
  {
    var row := Appointment(1, 7, "John Doe", "2025-02-25", "10:00");
    var e := ScheduleEnvelope(Int(7), Str("John Doe"), Str("2025-02-25"), Str("10:00"));
    EnvelopeRoundTrip(e);
    ColumnsKeepTypedFields(7, "John Doe", "2025-02-25", "10:00");
    assert Empty().rows + [row] == [row];
    assert Insert(Empty(), 7, "John Doe", "2025-02-25", "10:00") == Success((Table([row], 2), 1));
  }

  /** ... listing all then shows that one row with the submitted fields ... */
  lemma ScenarioViewAll(today: string)
    ensures var t := Table([Appointment(1, 7, "John Doe", "2025-02-25", "10:00")], 2);
            Serve(ViewAllRoute, None, t, today, IntendedStep) == (Http(200, Listing(t.rows)), t)
  {
    EnvelopeRoundTrip(ViewAllEnvelope);
  }

  /** ... cancelling id 1 reports it canceled and empties the table, keeping the counter ... */
  lemma ScenarioCancel(today: string)
    ensures Serve(CancelRoute, Some(map["appointment_id" := Int(1)]),
                  Table([Appointment(1, 7, "John Doe", "2025-02-25", "10:00")], 2), today, IntendedStep)
            == (Http(200, Succeeded("Appointment 1 canceled.")), Table([], 2))
  {
    var row := Appointment(1, 7, "John Doe", "2025-02-25", "10:00");
    var t1, t2 := Table([row], 2), Table([], 2);
    var e := CancelEnvelope(Int(1));
    EnvelopeRoundTrip(e);
    assert Without([row], 1) == [];
    assert Delete(t1, 1) == (t2, true);
    assert Cancel(t1, Int(1)) == Success((t2, true));
    assert DigitChar(1) == '1';
    assert Show(Int(1)) == "1";
    assert CancelReply(Int(1), true) == Succeeded("Appointment 1 canceled.");
    assert CancelStep(t1, Int(1)) == (Replied(Succeeded("Appointment 1 canceled.")), t2);
    assert Step(t1, Encode(e), today) == CancelStep(t1, Int(1));
  }

  /** ... after which the listing is empty and an unknown id is not found. */
  lemma ScenarioAfterCancel(today: string)
    ensures Serve(ViewAllRoute, None, Table([], 2), today, IntendedStep) == (Http(200, Listing([])), Table([], 2))
    ensures Serve(CancelRoute, Some(map["appointment_id" := Int(999)]), Table([], 2), today, IntendedStep)
            == (Http(200, Failed("Appointment not found.")), Table([], 2))
  {
    EnvelopeRoundTrip(ViewAllEnvelope);
    EnvelopeRoundTrip(CancelEnvelope(Int(999)));
  }

  /** The gateway's own answers, against the dispatcher as written, which none
      of these requests reaches: a body without p_id fails inside the route,
      one without patient is refused with 400, a `null` cancel body is refused
      with 400, and none of them reaches the table. */
  lemma GatewayScenario(t: Table, today: string)
    ensures Serve(ScheduleRoute, Some(map["patient" := Str("John Doe"), "date" := Str("2025-02-25"),
                                          "time" := Str("10:00")]), t, today, Step) == (ServerError, t)
    ensures Serve(ScheduleRoute, Some(map["p_id" := Int(7), "date" := Str("2025-02-25"),
                                          "time" := Str("10:00")]), t, today, Step)
            == (Http(400, Failed("Missing required fields.")), t)
    ensures Serve(CancelRoute, None, t, today, Step) == (Http(400, Failed("Missing appointment ID.")), t)
  {
  }
}
