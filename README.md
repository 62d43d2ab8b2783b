# Stellar appointment system, modelled in Dafny

The service keeps one table of appointments. Each row has an id, a patient
id, a patient name, a date and a time. An HTTP gateway (`api.py`) has four
routes: schedule, cancel, view today and view all. Each route checks its
JSON body for the keys it needs, builds a request envelope and sends it over
a request-reply channel to a worker (`scheduler.py`). The worker runs one
loop. On each pass it reads the `action` of one request, calls the matching
table operation (`database.py`) and sends back one reply envelope.

The model has four modules:

- `values.dfy` (`Values`): Python values as `json.loads` yields them, their
  `str()` rendering, how a text reads as an integer, and the exceptions that
  end a request (`Fault`).
- `database.dfy` (`Database`): the table as a value `Table(rows, nextId)`.
  `nextId` is the AUTOINCREMENT counter. Insert, delete, cancel-by-value and
  the date filter are functions on that value, with lemmas about them. The
  class `AppointmentTable` is the live table. Its two mutating methods are
  proved against those functions.
- `scheduler.dfy` (`Scheduler`): one pass of the loop.
  `Step` is the pure function and `HandleRequest` is the method that runs it
  against an `AppointmentTable`. The reply datatype has one constructor per
  envelope shape. `IntendedStep` is the pass as the schedule branch's doc
  comment describes it (see Findings).
- `api.dfy` (`Api`): the route checks and envelope construction as pure
  functions. `Serve` composes a route with a dispatcher and returns what the
  HTTP client sees.

Inputs the code takes from outside are parameters. The current date, which
the code reads from the clock, is the `today` argument. Each request body is
an argument too.

Two behaviours of the code around a missing `p_id`, which the model follows:

- The schedule route checks only `patient`, `date` and `time` (api.py:36)
  and then reads `data['p_id']` (api.py:41). A body without `p_id` raises
  KeyError there, and Flask answers 500 (`ServerError`), not 400.
- The worker loop has no check of its own for a missing `p_id`; it answers
  no "Missing patient ID." message. In the intended pass, a missing `p_id`
  binds as NULL and the NOT NULL constraint fails (`NotNull("p_id")`).

## Model

| member | source | states |
|---|---|---|
| Database.Without | database.py:63 | DELETE ... WHERE id = k keeps exactly the rows whose id is not k. The row count is unchanged exactly when no row had id k. |
| Database.OnDate | database.py:75-80 | The today listing holds exactly the rows whose date equals `today`. Each is reported with `date = today`. It is never longer than the table. |
| Database.OnDateKeepsOrder | database.py:78 | The today listing keeps the rowid order of the table. |
| Database.Insert | database.py:45-47 | Reference definition of the INSERT: binding `p_id`, then the AUTOINCREMENT id. `InsertFresh` and `InsertRoundTrip` state its properties. |
| Database.InsertFresh | database.py:45-51 | An insert fails exactly when `p_id` is an int outside 64 bits (IntegerOverflow, raised while binding, so checked first) or the 64-bit rowid space is used up (RowIdExhausted). Otherwise its id is larger than every id in the table, no row had it before, and the table stays well formed. |
| Database.InsertRoundTrip | database.py:45-47 | After an insert returns k, the table holds the old rows plus exactly one new row. That row carries k and the four submitted values, and it is the only row with id k. |
| Database.DeleteReportsPresence | database.py:63-67 | `rowcount > 0` holds exactly when a row with that id existed. Afterwards no row has that id. |
| Database.DeleteRemovesAtMostOne | database.py:63-64 | A delete by primary key removes at most one row. The other rows keep their order, the counter is unchanged, and an absent id leaves the table identical. |
| Database.Cancel | database.py:53-67 | Reference definition of `cancel_appointment` for any key value. `CancelReportsPresence` and `CancelAbsentIsNoOp` state its properties. |
| Database.CancelReportsPresence | database.py:53-67 | For the values the model has, `cancel_appointment` raises exactly when sqlite3 cannot bind the key: a list or dict, or an int outside 64 bits. Otherwise it returns true exactly when the key selected an existing row, and afterwards that id is gone. |
| Database.CancelAbsentIsNoOp | database.py:63-67 | A key that selects no row returns false and leaves the table unchanged. Such keys are None (`id = NULL` matches nothing), a non-integer text and an unused id. |
| Database.TextKeySelectsLikeInteger | database.py:63 | The id column has INTEGER affinity, so a text key written as `str(k)` selects the same row as the integer k. |
| Values.DecimalRoundTrip | scheduler.py:61 | The decimal text `str()` writes for an id reads back as that id. |
| Database.IdsNeverReused | database.py:20 | AUTOINCREMENT never reuses an id. Across any series of inserts and cancels, the returned ids strictly increase and never fall below the counter at the start. |
| Database.AppointmentTable.constructor | database.py:10-28 | `init_db` on a fresh database leaves an empty table with counter 1. |
| Database.AppointmentTable.ScheduleAppointment | database.py:30-51 | The live table changes as `Insert` says, so an out-of-range `p_id` or an exhausted counter leaves it unchanged. The returned id is larger than every id ever issued, and the table invariant holds. |
| Database.AppointmentTable.CancelAppointment | database.py:53-67 | The live table changes as `Cancel` says. It returns `rowcount > 0` and keeps the table invariant. |
| Database.AppointmentTable.TodaysAppointments | database.py:69-83 | `get_todays_appointments` returns exactly the live rows dated `today`, in rowid order. |
| Database.AppointmentTable.AllAppointments | database.py:85-98 | `get_all_appointments` returns exactly the live rows, in rowid order, each with an id an insert returned. |
| Scheduler.Step | scheduler.py:20-92 | One pass of the loop as written. A pass that raises has changed no row. The lemma rows below state its replies. |
| Scheduler.HandleRequest | scheduler.py:20-92 | One pass of the loop against the live table. The reply or crash and the new table are those of `Step`, the table invariant holds, and the set of issued ids is unchanged. |
| Scheduler.InvalidActionReply | scheduler.py:82-88 | A missing or unrecognised action gets `Failed("Invalid action.")` and leaves the table unchanged. |
| Scheduler.CancelExisting | scheduler.py:57-62 | Cancelling an existing id k replies "Appointment k canceled.". It removes exactly that row and leaves the counter unchanged. |
| Scheduler.CancelMissing | scheduler.py:57-65 | A cancel that selects no row replies "Appointment not found." and leaves the table unchanged. This includes a missing `appointment_id`. |
| Scheduler.ViewsAreReadOnly | scheduler.py:66-81 | `view_all` lists every row and `view_today` lists exactly today's rows. Neither changes the table, so a repeated view gets the same reply. |
| Scheduler.ScheduleAsWrittenCrashes | scheduler.py:40-46 | As written, `schedule` raises TypeError before inserting. No reply is sent and the table is unchanged. |
| Scheduler.Columns | database.py:19-25 | The column values the INSERT at database.py:45 stores for four request fields. On success `p_id` fits in 64 bits and none of the four fields was None. |
| Scheduler.ColumnsKeepTypedFields | database.py:19-25 | An int p_id and text patient, date and time are stored in the columns unchanged. |
| Scheduler.IntendedStep | scheduler.py:29-46 | One pass with the schedule branch passing all four fields, as its doc comment describes. A pass that raises has changed no row. |
| Scheduler.IntendedScheduleIssuesFreshId | scheduler.py:29-46 | In the intended pass, `schedule` replies with an id larger than every existing id. The table gains exactly the row with the submitted fields and stays well formed. |
| Scheduler.ReplyShape | scheduler.py:24-92 | In the pass as written and in the intended one, a pass that does not crash sends one reply whose kind depends only on the action; as written, schedule never replies. Only schedule and cancel can crash or change the table, and the table stays well formed. |
| Api.ScheduleGate | api.py:34-45 | The route answers 400 "Missing required fields." exactly when `get_json()` returned None (a `null` body) or an object lacking patient, date or time. It raises KeyError exactly when those are present but p_id is not. Otherwise the envelope holds the action and the four values verbatim, and other keys are dropped. |
| Api.CancelGate | api.py:69-76 | The route answers 400 "Missing appointment ID." exactly when `get_json()` returned None (a `null` body) or an object lacking `appointment_id`. Otherwise the envelope is the action plus that value unchanged. |
| Api.EnvelopeRoundTrip | api.py:39-102 | From every envelope the gateway builds, the dispatcher reads back the action and fields it was built from. |
| Api.ViewEnvelopesCarryOnlyAction | api.py:90-102 | Both view routes forward whatever the body is. Their envelope's only key is `action`. |
| Api.Serve | api.py:46-105 | Reference definition of one client call: the route's check, then the dispatcher, then the reply as the client gets it. `ForwardedReplyIsVerbatim` states its properties. |
| Api.ForwardedReplyIsVerbatim | api.py:46-53 | A rejected or failing route never reaches the table. For a forwarded request the client gets the dispatcher's reply unchanged with status 200, or waits forever if the dispatcher crashed. |
| Api.ScheduleRouteHangs | api.py:48-52 | As written, a complete schedule body leaves the client waiting forever and the table unchanged. |
| Api.ScenarioSchedule | scheduler.py:38-46 | Intended system: booking John Doe into an empty table returns id 1 and adds that one row. |
| Api.ScenarioViewAll | scheduler.py:74-81 | Intended system: listing all then shows the row with the submitted fields. |
| Api.ScenarioCancel | scheduler.py:57-62 | Intended system: cancelling id 1 replies "Appointment 1 canceled.", empties the table and keeps the counter at 2. |
| Api.ScenarioAfterCancel | scheduler.py:57-81 | Intended system: the listing is then empty, and cancelling id 999 replies "Appointment not found.". |
| Api.GatewayScenario | test_client.py:22-41 | The demo client's schedule body has patient, date and time but no p_id, so it fails inside the route (500). The other two cases are the route checks at api.py:36-37 and api.py:70-71: a schedule body without patient gets 400, and a cancel whose body is `null` gets 400. None of them reaches the table. |

## Findings

| source | as written | input that shows it | evidently intended | confidence | as-written member | corrected member |
|---|---|---|---|---|---|---|
| scheduler.py:45 | The schedule branch passes patient, date and time to a function with four parameters, `(p_id, patient, date, time)` (database.py:30). Python raises TypeError before the insert runs. The loop does not catch it, so the worker dies and the gateway waits for a reply forever. | Any request with action "schedule", for example the body `{"p_id": 7, "patient": "John Doe", "date": "2025-02-25", "time": "10:00"}` sent to `/schedule` | Pass `p_id` read from the request as the first argument. Reply with success and the new appointment id (scheduler.py:38). | high; not executed | Scheduler.ScheduleAsWrittenCrashes | Scheduler.IntendedScheduleIssuesFreshId |

`Step`, `HandleRequest` and `Serve(..., Step)` are the system as written.
`IntendedStep` and `Serve(..., IntendedStep)` are the corrected system. The
four `Scenario...` lemmas use the corrected system. `GatewayScenario` uses
`Step`, but none of its requests reaches the dispatcher.

## Left out

- Transport: the ZeroMQ context, sockets, bind/connect and send/recv. The gateway hands the envelope to the dispatcher by a direct call, and a dispatcher crash appears as `Hang`.
- JSON text: `json.dumps`, `json.loads` and Flask's `jsonify`. Envelopes are datatypes and requests are maps. Key order in the reply dicts is not modelled.
- Flask routing, `app.run`, port numbers and the debug `print` of the body (api.py:35). They have no effect on any reply.
- SQLite mechanics: connections, cursors, commits and SQL text. Only their effect on the table is modelled. Durability across restarts is left out, so `init_db` is modelled only on a fresh database.
- The clock: `datetime.now().strftime('%Y-%m-%d')` is the `today` parameter. Dates and times are never parsed.
- JSON numbers with a fraction (Python floats) are not values of the model. A JSON list or dict is one value, `Compound`.
- A request body that is JSON but not an object (a list, a string, a number). `Body` is an object or None, where None stands for a `null` body.
- Requests without a JSON body: a missing body, a content type other than JSON, or text that does not parse as JSON. For those `request.get_json()` raises at api.py:34 and api.py:69, Flask answers 400 or 415, and the schedule and cancel routes' own "Missing ..." checks never run. The view routes never read the body.
- Texts holding a lone surrogate such as `"\ud800"`, which `json.loads` accepts and sqlite3 refuses to bind. A Dafny string cannot hold them, so they are not values of the model. The fault cases `CancelReportsPresence` lists are complete only for the values the model has; the same texts in the schedule fields would also make the intended pass raise.
- Transport state across requests: a socket left waiting after a dispatcher crash, the errors later sends on it raise, and several Flask threads sharing one socket. Each call is modelled on its own.
- The process lifetime: the infinite loop and its end after an uncaught exception. Only single passes are modelled, plus the id sequence across a series of calls (`IdsNeverReused`).
- Database.KeyId: SQLite's numeric conversion of a text key is modelled for an optional minus sign followed by digits. Texts with spaces, a plus sign, a decimal point or an exponent, which SQLite would also convert, are treated as matching nothing.
- Scheduler.Columns: in the intended pass, any text for `p_id` other than an in-range integer written as an optional minus sign and digits would be stored by SQLite, as text or as a converted number. A row here cannot hold that, so the pass ends with `TextInIntegerColumn`. NOT NULL is checked after all four parameters bind, in column order.
- Database.OnDate: the SELECT has no ORDER BY, so SQLite does not promise an order. The model returns rows in rowid order, as a plain table scan does, and `OnDateKeepsOrder` states that order.
