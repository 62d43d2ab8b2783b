/** The appointments table: its rows, the AUTOINCREMENT counter behind its
    `id` column, and the four operations the dispatcher calls on it. The
    module-level functions describe each operation on a `Table` value; the
    class `AppointmentTable` is the table the dispatcher changes in place and
    is proved against them. */
module Database {
  import opened Values

  /** The largest rowid SQLite can assign (2^63 - 1). */
  const MaxRowId: int := 0x7FFF_FFFF_FFFF_FFFF
  /** The smallest 64-bit integer an SQL parameter can carry. */
  const MinInt64: int := -0x8000_0000_0000_0000

  /** One row, as the SELECT statements report it. */
  datatype Appointment = Appointment(id: int, pId: int, patient: string, date: string, time: string)

  /** The rows in rowid order, and the id the next insert receives: one more
      than the largest id ever assigned, deleted rows included. */
  datatype Table = Table(rows: seq<Appointment>, nextId: int)

  /** The table `init_db` leaves behind in a fresh database. */
  function Empty(): Table
  {
    Table([], 1)
  }

  predicate Increasing(rows: seq<Appointment>)
  {
    forall i, j :: 0 <= i < j < |rows| ==> rows[i].id < rows[j].id
  }

  /** Ids are positive, below the counter and in rowid order (so unique). */
  predicate WellFormed(t: Table)
  {
    && 1 <= t.nextId <= MaxRowId + 1
    && (forall a :: a in t.rows ==> 1 <= a.id < t.nextId)
    && Increasing(t.rows)
  }

  predicate HasId(rows: seq<Appointment>, k: int)
  {
    exists a :: a in rows && a.id == k
  }

  /** A statement parameter once sqlite3 has bound it. */
  datatype SqlValue = SqlNull | SqlInt(n: int) | SqlText(s: string)

  /** How sqlite3 binds a Python value: a bool as 0 or 1, an int only within
      64 bits, and a list or dict not at all. */
  function Bind(v: Value): Result<SqlValue, Fault>
  {
    match v
    case Null => Success(SqlNull)
    case Bool(b) => Success(SqlInt(if b then 1 else 0))
    case Int(n) => if MinInt64 <= n <= MaxRowId then Success(SqlInt(n)) else Failure(IntegerOverflow)
    case Str(s) => Success(SqlText(s))
    case Compound => Failure(UnsupportedParameter)
  }

  /** The id that `id = ?` can match for a bound parameter: the column has
      INTEGER affinity, so a text is compared as the integer it reads as, and
      NULL equals nothing. */
  function KeyId(p: SqlValue): Option<int>
  {
    match p
    case SqlNull => None
    case SqlInt(n) => Some(n)
    case SqlText(s) => IntegerText(s)
  }

  /** The rows `DELETE ... WHERE id = k` leaves. */
  function Without(rows: seq<Appointment>, k: int): (r: seq<Appointment>)
    ensures forall a :: a in r <==> a in rows && a.id != k
    ensures |r| <= |rows|
    ensures |r| == |rows| <==> !HasId(rows, k)
  {
    if rows == [] then []
    else
      var rest := Without(rows[1..], k);
      assert HasId(rows, k) <==> rows[0].id == k || HasId(rows[1..], k) by {
        assert forall a :: a in rows <==> a == rows[0] || a in rows[1..];
      }
      if rows[0].id == k then rest else [rows[0]] + rest
  }

  /** The rows `SELECT ... WHERE date = today` returns, each reported with
      `date` set to `today`. */
  function OnDate(rows: seq<Appointment>, today: string): (r: seq<Appointment>)
    ensures forall a :: a in r <==> a in rows && a.date == today
    ensures |r| <= |rows|
  {
    if rows == [] then []
    else
      var rest := OnDate(rows[1..], today);
      assert forall a :: a in rows <==> a == rows[0] || a in rows[1..];
      if rows[0].date == today then [rows[0].(date := today)] + rest else rest
  }

  /** The today listing keeps the rows' rowid order. */
  lemma {:induction false} OnDateKeepsOrder(rows: seq<Appointment>, today: string)
    ensures Increasing(rows) ==> Increasing(OnDate(rows, today))
  {
    if rows != [] && Increasing(rows) {
      IncreasingTail(rows);
      OnDateKeepsOrder(rows[1..], today);
      if rows[0].date == today {
        ConsIncreasing(rows[0].(date := today), OnDate(rows[1..], today));
      }
    }
  }

  lemma ConsIncreasing(h: Appointment, rest: seq<Appointment>)
    requires Increasing(rest) && forall a :: a in rest ==> h.id < a.id
    ensures Increasing([h] + rest)
  {
    var r := [h] + rest;
    forall x, y | 0 <= x < y < |r| ensures r[x].id < r[y].id {
      assert r[y] == rest[y - 1];
      if x > 0 {
        assert r[x] == rest[x - 1];
      }
    }
  }

  /** `INSERT` with AUTOINCREMENT: sqlite3 first binds `p_id`, refusing an int
      outside 64 bits; the new row then takes the counter's id and goes last
      in rowid order; once the largest rowid is used up SQLite refuses. */
  function Insert(t: Table, pId: int, patient: string, date: string, time: string): Result<(Table, int), Fault>
  {
    if !(MinInt64 <= pId <= MaxRowId) then Failure(IntegerOverflow)
    else if t.nextId > MaxRowId then Failure(RowIdExhausted)
    else
      var k := t.nextId;
      Success((Table(t.rows + [Appointment(k, pId, patient, date, time)], k + 1), k))
  }

  /** `DELETE ... WHERE id = k`, reporting whether `rowcount` is positive. */
  function Delete(t: Table, k: int): (Table, bool)
  {
    var rest := Without(t.rows, k);
    (Table(rest, t.nextId), |t.rows| - |rest| > 0)
  }

  /** `cancel_appointment(key)` for whatever Python value the key is. */
  function Cancel(t: Table, key: Value): Result<(Table, bool), Fault>
  {
    match Bind(key)
    case Failure(f) => Failure(f)
    case Success(p) =>
      match KeyId(p)
      case None => Success((t, false))
      case Some(k) => Success(Delete(t, k))
  }

  /** The id a cancel key selects, when it binds and reads as an integer. */
  function KeyOf(key: Value): Option<int>
  {
    match Bind(key)
    case Failure(_) => None
    case Success(p) => KeyId(p)
  }

  /** An insert fails exactly when `p_id` does not fit in 64 bits or the
      rowids are used up; otherwise the new id is larger than every id in the
      table, and the table stays well formed. */
  lemma InsertFresh(t: Table, pId: int, patient: string, date: string, time: string)
    requires WellFormed(t)
    ensures Insert(t, pId, patient, date, time).Success? <==> MinInt64 <= pId <= MaxRowId && t.nextId <= MaxRowId
    ensures Insert(t, pId, patient, date, time).Failure? ==>
              Insert(t, pId, patient, date, time).error ==
                (if !(MinInt64 <= pId <= MaxRowId) then IntegerOverflow else RowIdExhausted)
    ensures Insert(t, pId, patient, date, time).Success? ==>
              var (t', k) := Insert(t, pId, patient, date, time).value;
              && (forall a :: a in t.rows ==> a.id < k)
              && !HasId(t.rows, k)
              && k < t'.nextId
              && WellFormed(t')
  {
    if Insert(t, pId, patient, date, time).Success? {
      var (t', k) := Insert(t, pId, patient, date, time).value;
      var n := |t.rows|;
      forall i, j | 0 <= i < j < |t'.rows| ensures t'.rows[i].id < t'.rows[j].id {
        if j == n {
          assert t'.rows[i] == t.rows[i];
          assert t.rows[i] in t.rows;
        }
      }
    }
  }

  /** After an insert returns k, the table holds exactly the old rows plus one
      row carrying k and the four submitted values. */
  lemma InsertRoundTrip(t: Table, pId: int, patient: string, date: string, time: string)
    requires WellFormed(t)
    ensures Insert(t, pId, patient, date, time).Success? ==>
              var (t', k) := Insert(t, pId, patient, date, time).value;
              && Appointment(k, pId, patient, date, time) in t'.rows
              && (forall a :: a in t'.rows && a.id == k ==> a == Appointment(k, pId, patient, date, time))
              && (forall a :: a in t'.rows <==> a in t.rows || a == Appointment(k, pId, patient, date, time))
              && |t'.rows| == |t.rows| + 1
  {
    if Insert(t, pId, patient, date, time).Success? {
      InsertFresh(t, pId, patient, date, time);
    }
  }

  lemma {:induction false} WithoutAbsent(rows: seq<Appointment>, k: int)
    requires forall a :: a in rows ==> a.id != k
    ensures Without(rows, k) == rows
  {
    if rows != [] {
      assert rows[0] in rows;
      WithoutAbsent(rows[1..], k);
      assert [rows[0]] + rows[1..] == rows;
    }
  }

  /** One step of `Without`: the first row is kept unless it has id k. */
  lemma WithoutCons(rows: seq<Appointment>, k: int)
    requires rows != []
    ensures Without(rows, k) == (if rows[0].id == k then [] else [rows[0]]) + Without(rows[1..], k)
  {
  }

  lemma IncreasingTail(rows: seq<Appointment>)
    requires Increasing(rows) && rows != []
    ensures Increasing(rows[1..])
    ensures forall a :: a in rows[1..] ==> rows[0].id < a.id
  {
    var tail := rows[1..];
    forall x, y | 0 <= x < y < |tail| ensures tail[x].id < tail[y].id {
      assert tail[x] == rows[x + 1] && tail[y] == rows[y + 1];
    }
    forall a | a in tail ensures rows[0].id < a.id {
      var j :| 0 <= j < |tail| && tail[j] == a;
      assert tail[j] == rows[j + 1];
    }
  }

  /** Removing the element at i > 0 from a sequence keeps its head. */
  lemma SpliceCons<T>(s: seq<T>, i: nat)
    requires 0 < i < |s|
    ensures [s[0]] + (s[1..][..i - 1] + s[1..][i..]) == s[..i] + s[i + 1..]
  {
    assert [s[0]] + s[1..][..i - 1] == s[..i];
    assert s[1..][i..] == s[i + 1..];
  }

  lemma {:induction false} WithoutPresent(rows: seq<Appointment>, k: int, i: nat)
    requires Increasing(rows) && i < |rows| && rows[i].id == k
    ensures Without(rows, k) == rows[..i] + rows[i + 1..]
  {
    IncreasingTail(rows);
    WithoutCons(rows, k);
    if i == 0 {
      WithoutAbsent(rows[1..], k);
    } else {
      assert rows[0].id < rows[i].id;
      WithoutPresent(rows[1..], k, i - 1);
      SpliceCons(rows, i);
    }
  }

  lemma {:induction false} RemoveKeepsIncreasing(rows: seq<Appointment>, i: nat)
    requires Increasing(rows) && i < |rows|
    ensures Increasing(rows[..i] + rows[i + 1..])
  {
    var r := rows[..i] + rows[i + 1..];
    forall x, y | 0 <= x < y < |r| ensures r[x].id < r[y].id {
      var x' := if x < i then x else x + 1;
      var y' := if y < i then y else y + 1;
      assert r[x] == rows[x'] && r[y] == rows[y'];
    }
  }

  /** `rowcount > 0` exactly when a row with id k was there, and none is left. */
  lemma DeleteReportsPresence(t: Table, k: int)
    ensures Delete(t, k).1 <==> HasId(t.rows, k)
    ensures !HasId(Delete(t, k).0.rows, k)
  {
  }

  /** Since id is the primary key, a delete removes at most one row; every
      other row, their order and the counter stay as they were. */
  lemma DeleteRemovesAtMostOne(t: Table, k: int)
    requires WellFormed(t)
    ensures var (t', removed) := Delete(t, k);
            && t'.nextId == t.nextId
            && WellFormed(t')
            && (!removed ==> t' == t)
            && (removed ==> exists i :: 0 <= i < |t.rows| && t.rows[i].id == k && t'.rows == t.rows[..i] + t.rows[i + 1..])
  {
    var (t', removed) := Delete(t, k);
    if removed {
      var a :| a in t.rows && a.id == k;
      var i :| 0 <= i < |t.rows| && t.rows[i] == a;
      WithoutPresent(t.rows, k, i);
      RemoveKeepsIncreasing(t.rows, i);
    } else {
      WithoutAbsent(t.rows, k);
    }
  }

  /** A cancel fails only for a key sqlite3 cannot bind; otherwise it reports
      whether the key selected a row, and afterwards no row has that id. */
  lemma CancelReportsPresence(t: Table, key: Value)
    requires WellFormed(t)
    ensures Cancel(t, key).Failure? <==> key.Compound? || (key.Int? && !(MinInt64 <= key.n <= MaxRowId))
    ensures Cancel(t, key).Success? ==>
              var (t', ok) := Cancel(t, key).value;
              && (ok <==> KeyOf(key).Some? && HasId(t.rows, KeyOf(key).value))
              && (KeyOf(key).Some? ==> !HasId(t'.rows, KeyOf(key).value))
              && t'.nextId == t.nextId
              && WellFormed(t')
  {
    if KeyOf(key).Some? {
      DeleteReportsPresence(t, KeyOf(key).value);
      DeleteRemovesAtMostOne(t, KeyOf(key).value);
    }
  }

  /** A key that selects no row (None, a text that is not an integer, an
      unused id) reports false and leaves the table as it was. */
  lemma CancelAbsentIsNoOp(t: Table, key: Value)
    requires Bind(key).Success?
    requires KeyOf(key).None? || !HasId(t.rows, KeyOf(key).value)
    ensures Cancel(t, key) == Success((t, false))
  {
    if KeyOf(key).Some? {
      WithoutAbsent(t.rows, KeyOf(key).value);
    }
  }

  /** A text key written the way `str()` writes an id selects that id. */
  lemma TextKeySelectsLikeInteger(k: int)
    requires MinInt64 <= k <= MaxRowId
    ensures KeyOf(Str(DecimalString(k))) == KeyOf(Int(k)) == Some(k)
  {
    DecimalRoundTrip(k);
  }

  /** One call into the database module, for reasoning about a series of them. */
  datatype Call =
    | ScheduleCall(pId: int, patient: string, date: string, time: string)
    | CancelCall(key: Value)

  /** One call's effect: the new table and the id it returned, if any. */
  function Apply(t: Table, c: Call): (Table, seq<int>)
  {
    match c
    case ScheduleCall(p, n, d, h) =>
      (match Insert(t, p, n, d, h)
       case Success((t', k)) => (t', [k])
       case Failure(_) => (t, []))
    case CancelCall(key) =>
      (match Cancel(t, key)
       case Success((t', _)) => (t', [])
       case Failure(_) => (t, []))
  }

  /** Runs the calls in order and collects the ids the inserts returned. */
  function Replay(t: Table, calls: seq<Call>): (Table, seq<int>)
    decreases |calls|
  {
    if calls == [] then (t, [])
    else
      var (t1, ids1) := Apply(t, calls[0]);
      var (t2, ids2) := Replay(t1, calls[1..]);
      (t2, ids1 + ids2)
  }

  lemma ApplyStep(t: Table, c: Call)
    requires WellFormed(t)
    ensures var (t', ids) := Apply(t, c);
            && WellFormed(t')
            && t.nextId <= t'.nextId
            && |ids| <= 1
            && (forall i :: 0 <= i < |ids| ==> t.nextId <= ids[i] < t'.nextId)
  {
    match c
    case ScheduleCall(p, n, d, h) => InsertFresh(t, p, n, d, h);
    case CancelCall(key) => CancelReportsPresence(t, key);
  }

  /** Ids are never reused: over any series of calls, deletes included, the
      ids returned strictly increase and lie between the counter before and
      the counter after. */
  lemma {:induction false} IdsNeverReused(t: Table, calls: seq<Call>)
    requires WellFormed(t)
    ensures var (t', ids) := Replay(t, calls);
            && WellFormed(t')
            && t.nextId <= t'.nextId
            && (forall i :: 0 <= i < |ids| ==> t.nextId <= ids[i] < t'.nextId)
            && (forall i, j :: 0 <= i < j < |ids| ==> ids[i] < ids[j])
    decreases |calls|
  {
    if calls != [] {
      var (t1, ids1) := Apply(t, calls[0]);
      ApplyStep(t, calls[0]);
      IdsNeverReused(t1, calls[1..]);
      var (t2, ids2) := Replay(t1, calls[1..]);
      var ids := ids1 + ids2;
      forall i, j | 0 <= i < j < |ids| ensures ids[i] < ids[j] {
        if j >= |ids1| && i < |ids1| {
          assert ids[i] == ids1[i] && ids[j] == ids2[j - |ids1|];
        }
      }
    }
  }

  /** The table as the running service holds it. */
  class AppointmentTable {
    var rows: seq<Appointment>
    var nextId: int
    /** Every id an insert has returned so far. */
    ghost var issued: set<int>

    function State(): Table
      reads this
    {
      Table(rows, nextId)
    }

    ghost predicate Valid()
      reads this
    {
      && WellFormed(State())
      && (forall k :: k in issued ==> k < nextId)
      && (forall a :: a in rows ==> a.id in issued)
    }

    /** `init_db` on a fresh database: the table exists and is empty. */
    constructor ()
      ensures Valid() && State() == Empty() && issued == {}
    {
      rows := [];
      nextId := 1;
      issued := {};
    }

    /** `schedule_appointment(p_id, patient, date, time)`. */
    method ScheduleAppointment(pId: int, patient: string, date: string, time: string) returns (r: Result<int, Fault>)
      requires Valid()
      modifies this
      ensures Valid()
      ensures r.Success? ==> forall k :: k in old(issued) ==> k < r.value
      ensures match Insert(old(State()), pId, patient, date, time)
              case Success((t, k)) => r == Success(k) && State() == t && issued == old(issued) + {k}
              case Failure(f) => r == Failure(f) && State() == old(State()) && issued == old(issued)
    {
      if !(MinInt64 <= pId <= MaxRowId) {
        return Failure(IntegerOverflow);
      }
      if nextId > MaxRowId {
        return Failure(RowIdExhausted);
      }
      InsertFresh(State(), pId, patient, date, time);
      var id := nextId;
      rows := rows + [Appointment(id, pId, patient, date, time)];
      nextId := nextId + 1;
      issued := issued + {id};
      r := Success(id);
    }

    /** `cancel_appointment(key)`. */
    method CancelAppointment(key: Value) returns (r: Result<bool, Fault>)
      requires Valid()
      modifies this
      ensures Valid() && issued == old(issued)
      ensures match Cancel(old(State()), key)
              case Success((t, ok)) => r == Success(ok) && State() == t
              case Failure(f) => r == Failure(f) && State() == old(State())
    {
      match Bind(key)
      case Failure(f) =>
        r := Failure(f);
      case Success(p) =>
        match KeyId(p)
        case None =>
          r := Success(false);
        case Some(k) =>
          DeleteRemovesAtMostOne(State(), k);
          var remaining := Without(rows, k);
          var rowCount := |rows| - |remaining|;
          rows := remaining;
          r := Success(rowCount > 0);
    }

    /** `get_todays_appointments()`, with the clock's date passed in: the
        rows dated today, in rowid order. */
    function TodaysAppointments(today: string): (r: seq<Appointment>)
      reads this
      ensures forall a :: a in r <==> a in rows && a.date == today
      ensures Valid() ==> Increasing(r)
    {
      OnDateKeepsOrder(rows, today);
      OnDate(rows, today)
    }

    /** `get_all_appointments()`: every live row once, each with an id an
        insert returned, in rowid order. */
    function AllAppointments(): (r: seq<Appointment>)
      reads this
      ensures forall a :: a in r <==> a in State().rows
      ensures Valid() ==> Increasing(r) && forall a :: a in r ==> a.id in issued
    {
      rows
    }
  }
}
