/** The dispatcher: one pass of the service loop takes a decoded request,
    branches on its `action` and produces one reply, or dies with an
    exception. `Step` is the loop body as written, whose `schedule` branch
    calls the insert with one argument too few; `IntendedStep` is the branch
    its doc comment describes. */
module Scheduler {
  import opened Values
  import opened Database

  /** The reply envelope. */
  datatype Reply =
    | Scheduled(appointmentId: int)            // {"status": "success", "appointment_id": id}
    | Succeeded(message: string)               // {"status": "success", "message": message}
    | Failed(message: string)                  // {"status": "error", "message": message}
    | Listing(appointments: seq<Appointment>)  // {"appointments": [...]}

  /** The request as the branches read it, every field through `.get`. */
  datatype Action =
    | ScheduleAction(pId: Value, patient: Value, date: Value, time: Value)
    | CancelAction(appointmentId: Value)
    | ViewTodayAction
    | ViewAllAction
    | InvalidAction

  function Parse(request: Object): Action
  {
    var action := Get(request, "action");
    if action == Str("schedule") then
      ScheduleAction(Get(request, "p_id"), Get(request, "patient"), Get(request, "date"), Get(request, "time"))
    else if action == Str("cancel") then CancelAction(Get(request, "appointment_id"))
    else if action == Str("view_today") then ViewTodayAction
    else if action == Str("view_all") then ViewAllAction
    else InvalidAction
  }

  /** One pass ends with a reply sent, or with an exception that ends the process. */
  datatype Outcome = Replied(reply: Reply) | Crashed(fault: Fault)

  function CancelReply(key: Value, canceled: bool): Reply
    requires !key.Compound?
  {
    if canceled then Succeeded("Appointment " + Show(key) + " canceled.")
    else Failed("Appointment not found.")
  }

  function CancelStep(t: Table, key: Value): (Outcome, Table)
  {
    match Cancel(t, key)
    case Failure(f) => (Crashed(f), t)
    case Success((t', ok)) => (Replied(CancelReply(key, ok)), t')
  }

  /** One pass of the loop as written. A pass that raises has committed nothing. */
  function Step(t: Table, request: Object, today: string): (r: (Outcome, Table))
    ensures r.0.Crashed? ==> r.1 == t
  {
    match Parse(request)
    case ScheduleAction(_, _, _, _) => (Crashed(ArityMismatch), t)
    case CancelAction(key) => CancelStep(t, key)
    case ViewTodayAction => (Replied(Listing(OnDate(t.rows, today))), t)
    case ViewAllAction => (Replied(Listing(t.rows)), t)
    case InvalidAction => (Replied(Failed("Invalid action.")), t)
  }

  /** The INTEGER affinity of the `p_id` column: an integer text is stored as
      that integer; any other text would be stored as text, which a row here
      cannot hold. */
  function IntegerColumn(p: SqlValue): Result<int, Fault>
    requires !p.SqlNull?
  {
    match p
    case SqlInt(n) => Success(n)
    case SqlText(s) =>
      match IntegerText(s)
      case Some(n) => if MinInt64 <= n <= MaxRowId then Success(n) else Failure(TextInIntegerColumn)
      case None => Failure(TextInIntegerColumn)
  }

  /** The TEXT affinity of the other columns: an integer is stored as its decimal text. */
  function TextColumn(p: SqlValue): string
    requires !p.SqlNull?
  {
    match p
    case SqlInt(n) => DecimalString(n)
    case SqlText(s) => s
  }

  /** The column values an INSERT stores for four request fields: every
      parameter is bound first, then the NOT NULL constraints are checked,
      then column affinity applies. */
  function Columns(pId: Value, patient: Value, date: Value, time: Value): (r: Result<(int, string, string, string), Fault>)
    ensures r.Success? ==> MinInt64 <= r.value.0 <= MaxRowId
    ensures r.Success? ==> pId != Null && patient != Null && date != Null && time != Null
  {
    if Bind(pId).Failure? then Failure(Bind(pId).error)
    else if Bind(patient).Failure? then Failure(Bind(patient).error)
    else if Bind(date).Failure? then Failure(Bind(date).error)
    else if Bind(time).Failure? then Failure(Bind(time).error)
    else
      var p, n, d, h := Bind(pId).value, Bind(patient).value, Bind(date).value, Bind(time).value;
      if p.SqlNull? then Failure(NotNull("p_id"))
      else if n.SqlNull? then Failure(NotNull("patient"))
      else if d.SqlNull? then Failure(NotNull("date"))
      else if h.SqlNull? then Failure(NotNull("time"))
      else
        match IntegerColumn(p)
        case Failure(f) => Failure(f)
        case Success(id) => Success((id, TextColumn(n), TextColumn(d), TextColumn(h)))
  }

  /** One pass of the loop with `schedule` passing all four fields, as the
      branch's doc comment describes; every other branch is `Step`. A pass
      that raises has committed nothing. */
  function IntendedStep(t: Table, request: Object, today: string): (r: (Outcome, Table))
    ensures r.0.Crashed? ==> r.1 == t
  {
    match Parse(request)
    case ScheduleAction(pId, patient, date, time) =>
      (match Columns(pId, patient, date, time)
       case Failure(f) => (Crashed(f), t)
       case Success((p, n, d, h)) =>
         match Insert(t, p, n, d, h)
         case Failure(f) => (Crashed(f), t)
         case Success((t', k)) => (Replied(Scheduled(k)), t'))
    case _ => Step(t, request, today)
  }

  /** The loop body run against the live table. */
  method HandleRequest(db: AppointmentTable, request: Object, today: string) returns (outcome: Outcome)
    requires db.Valid()
    modifies db
    ensures db.Valid() && db.issued == old(db.issued)
    ensures (outcome, db.State()) == Step(old(db.State()), request, today)
  {
    var action := Get(request, "action");
    if action == Str("schedule") {
      // The insert is called with (patient, date, time) for the parameters
      // (p_id, patient, date, time): Python raises before it runs.
      outcome := Crashed(ArityMismatch);
    } else if action == Str("cancel") {
      var key := Get(request, "appointment_id");
      var r := db.CancelAppointment(key);
      match r
      case Failure(f) =>
        outcome := Crashed(f);
      case Success(ok) =>
        outcome := Replied(CancelReply(key, ok));
    } else if action == Str("view_today") {
      outcome := Replied(Listing(db.TodaysAppointments(today)));
    } else if action == Str("view_all") {
      outcome := Replied(Listing(db.AllAppointments()));
    } else {
      outcome := Replied(Failed("Invalid action."));
    }
  }

  /** A missing or unknown action gets the invalid-action reply and touches no row. */
  lemma InvalidActionReply(t: Table, request: Object, today: string)
    requires Get(request, "action") !in [Str("schedule"), Str("cancel"), Str("view_today"), Str("view_all")]
    ensures Step(t, request, today) == (Replied(Failed("Invalid action.")), t)
    ensures IntendedStep(t, request, today) == Step(t, request, today)
  {
  }

  /** Cancelling an existing id reports it canceled and removes exactly that row. */
  lemma CancelExisting(t: Table, request: Object, today: string, k: int)
    requires WellFormed(t)
    requires Get(request, "action") == Str("cancel") && Get(request, "appointment_id") == Int(k)
    requires HasId(t.rows, k)
    ensures var (o, t') := Step(t, request, today);
            && o == Replied(Succeeded("Appointment " + DecimalString(k) + " canceled."))
            && !HasId(t'.rows, k)
            && |t'.rows| == |t.rows| - 1
            && (forall a :: a in t'.rows <==> a in t.rows && a.id != k)
            && t'.nextId == t.nextId
  {
    var a :| a in t.rows && a.id == k;
    assert Bind(Int(k)) == Success(SqlInt(k));
    DeleteReportsPresence(t, k);
    DeleteRemovesAtMostOne(t, k);
  }

  /** A cancel whose key selects no row (absent, None, unknown id) reports
      not found and leaves the table as it was. */
  lemma CancelMissing(t: Table, request: Object, today: string)
    requires Get(request, "action") == Str("cancel")
    requires Bind(Get(request, "appointment_id")).Success?
    requires var key := KeyOf(Get(request, "appointment_id")); key.None? || !HasId(t.rows, key.value)
    ensures Step(t, request, today) == (Replied(Failed("Appointment not found.")), t)
  {
    CancelAbsentIsNoOp(t, Get(request, "appointment_id"));
  }

  /** The two views reply with today's rows or all rows and change nothing, so
      asking twice in a row gets the same answer. */
  lemma ViewsAreReadOnly(t: Table, request: Object, today: string)
    requires Get(request, "action") in [Str("view_today"), Str("view_all")]
    ensures var (o, t') := Step(t, request, today);
            && t' == t
            && o.Replied? && o.reply.Listing?
            && (Get(request, "action") == Str("view_all") ==> o.reply.appointments == t.rows)
            && (Get(request, "action") == Str("view_today") ==>
                  forall a :: a in o.reply.appointments <==> a in t.rows && a.date == today)
            && Step(t', request, today) == (o, t')
  {
  }

  /** As written, `schedule` raises before it inserts: no reply, no row. */
  lemma ScheduleAsWrittenCrashes(t: Table, request: Object, today: string)
    requires Get(request, "action") == Str("schedule")
    ensures Step(t, request, today) == (Crashed(ArityMismatch), t)
  {
  }

  /** Values of the documented kinds reach the columns unchanged. */
  lemma ColumnsKeepTypedFields(pId: int, patient: string, date: string, time: string)
    requires MinInt64 <= pId <= MaxRowId
    ensures Columns(Int(pId), Str(patient), Str(date), Str(time)) == Success((pId, patient, date, time))
  {
  }

  /** As intended, `schedule` replies with a fresh id, larger than every id in
      the table, and the new row holds the submitted values. */
  lemma IntendedScheduleIssuesFreshId(t: Table, request: Object, today: string,
                                      pId: int, patient: string, date: string, time: string)
    requires WellFormed(t) && t.nextId <= MaxRowId
    requires Get(request, "action") == Str("schedule")
    requires Get(request, "p_id") == Int(pId) && MinInt64 <= pId <= MaxRowId
    requires Get(request, "patient") == Str(patient)
    requires Get(request, "date") == Str(date)
    requires Get(request, "time") == Str(time)
    ensures var (o, t') := IntendedStep(t, request, today);
            && o.Replied? && o.reply.Scheduled?
            && var k := o.reply.appointmentId;
            && (forall a :: a in t.rows ==> a.id < k)
            && (forall a :: a in t'.rows <==> a in t.rows || a == Appointment(k, pId, patient, date, time))
            && WellFormed(t')
  {
    ColumnsKeepTypedFields(pId, patient, date, time);
    InsertFresh(t, pId, patient, date, time);
    InsertRoundTrip(t, pId, patient, date, time);
  }

  /** In both passes, every pass that does not crash sends one reply whose
      kind follows from the action alone (as written, `schedule` never
      replies); only `schedule` and `cancel` can crash or change the table,
      and the table stays well formed. */
  lemma ReplyShape(t: Table, request: Object, today: string)
    requires WellFormed(t)
    ensures var (o, t') := IntendedStep(t, request, today);
            && WellFormed(t')
            && (o.Replied? ==>
                  && (Parse(request).ScheduleAction? <==> o.reply.Scheduled?)
                  && (Parse(request).ViewTodayAction? || Parse(request).ViewAllAction? <==> o.reply.Listing?)
                  && (Parse(request).CancelAction? || Parse(request).InvalidAction? <==> o.reply.Succeeded? || o.reply.Failed?)
                  && (Parse(request).InvalidAction? ==> o.reply == Failed("Invalid action.")))
            && (o.Crashed? || t' != t ==> Parse(request).ScheduleAction? || Parse(request).CancelAction?)
    ensures var (o, t') := Step(t, request, today);
            && WellFormed(t')
            && (o.Replied? ==>
                  && !Parse(request).ScheduleAction?
                  && (Parse(request).ViewTodayAction? || Parse(request).ViewAllAction? <==> o.reply.Listing?)
                  && (Parse(request).CancelAction? || Parse(request).InvalidAction? <==> o.reply.Succeeded? || o.reply.Failed?)
                  && (Parse(request).InvalidAction? ==> o.reply == Failed("Invalid action.")))
            && (o.Crashed? || t' != t ==> Parse(request).ScheduleAction? || Parse(request).CancelAction?)
  {
    match Parse(request)
    case ScheduleAction(pId, patient, date, time) =>
      if Columns(pId, patient, date, time).Success? {
        var (p, n, d, h) := Columns(pId, patient, date, time).value;
        InsertFresh(t, p, n, d, h);
      }
    case CancelAction(key) =>
      CancelReportsPresence(t, key);
    case _ =>
  }
}
