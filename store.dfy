/**
 * The database session the route handlers share: the employees table, the attendance
 * table, the next surrogate keys, the integrity invariants, and the lookups the routes run.
 */
module Store {
  import opened Models

  // ----- Lookups -----

  /** Some employee row has this business id. */
  predicate HasEmployee(es: seq<Employee>, employeeId: string)
  {
    exists i :: 0 <= i < |es| && es[i].employeeId == employeeId
  }

  /** Some employee row has this email. */
  predicate HasEmail(es: seq<Employee>, email: string)
  {
    exists i :: 0 <= i < |es| && es[i].email == email
  }

  /** Some attendance row is for this employee on this date. */
  predicate HasRecord(rs: seq<Attendance>, employeeId: string, date: Date)
  {
    exists i :: 0 <= i < |rs| && rs[i].employeeId == employeeId && rs[i].date == date
  }

  /** The position of the first employee row with this business id (a query's `.first()`). */
  function IndexOfEmployee(es: seq<Employee>, employeeId: string): (r: Option<nat>)
    ensures r.Some? <==> HasEmployee(es, employeeId)
    ensures r.Some? ==> r.value < |es| && es[r.value].employeeId == employeeId
    ensures r.Some? ==> forall i :: 0 <= i < r.value ==> es[i].employeeId != employeeId
  {
    if |es| == 0 then None
    else if es[0].employeeId == employeeId then Some(0)
    else
      match IndexOfEmployee(es[1..], employeeId)
      case None => None
      case Some(k) => Some(k + 1)
  }

  /** The first employee row with this business id, if any. */
  function FindEmployee(es: seq<Employee>, employeeId: string): (r: Option<Employee>)
    ensures r.Some? <==> HasEmployee(es, employeeId)
    ensures r.Some? ==> exists k :: 0 <= k < |es| && es[k] == r.value && r.value.employeeId == employeeId &&
                                   forall i :: 0 <= i < k ==> es[i].employeeId != employeeId
  {
    match IndexOfEmployee(es, employeeId)
    case None => None
    case Some(k) => Some(es[k])
  }

  /** The first employee row with this email, if any. */
  function FindEmail(es: seq<Employee>, email: string): (r: Option<Employee>)
    ensures r.Some? <==> HasEmail(es, email)
    ensures r.Some? ==> r.value in es && r.value.email == email
  {
    if |es| == 0 then None
    else if es[0].email == email then Some(es[0])
    else FindEmail(es[1..], email)
  }

  /** The position of the first attendance row for this employee and date. */
  function IndexOfRecord(rs: seq<Attendance>, employeeId: string, date: Date): (r: Option<nat>)
    ensures r.Some? <==> HasRecord(rs, employeeId, date)
    ensures r.Some? ==> r.value < |rs| && rs[r.value].employeeId == employeeId && rs[r.value].date == date
  {
    if |rs| == 0 then None
    else if rs[0].employeeId == employeeId && rs[0].date == date then Some(0)
    else
      match IndexOfRecord(rs[1..], employeeId, date)
      case None => None
      case Some(k) => Some(k + 1)
  }

  /** The attendance rows of one employee, in table order. */
  function RecordsOf(rs: seq<Attendance>, employeeId: string): seq<Attendance>
  {
    if |rs| == 0 then []
    else if rs[0].employeeId == employeeId then [rs[0]] + RecordsOf(rs[1..], employeeId)
    else RecordsOf(rs[1..], employeeId)
  }

  /** The attendance rows of every other employee, in table order. */
  function RecordsNotOf(rs: seq<Attendance>, employeeId: string): seq<Attendance>
  {
    if |rs| == 0 then []
    else if rs[0].employeeId != employeeId then [rs[0]] + RecordsNotOf(rs[1..], employeeId)
    else RecordsNotOf(rs[1..], employeeId)
  }

  /** The filter keeps exactly the table's rows of the employee. */
  lemma {:induction false} RecordsOfMembers(rs: seq<Attendance>, employeeId: string)
    ensures forall a :: a in RecordsOf(rs, employeeId) <==> a in rs && a.employeeId == employeeId
  {
    if |rs| > 0 {
      RecordsOfMembers(rs[1..], employeeId);
      assert rs == [rs[0]] + rs[1..];
    }
  }

  /** The cascade's filter keeps exactly the table's rows of every other employee. */
  lemma {:induction false} RecordsNotOfMembers(rs: seq<Attendance>, employeeId: string)
    ensures forall a :: a in RecordsNotOf(rs, employeeId) <==> a in rs && a.employeeId != employeeId
  {
    if |rs| > 0 {
      RecordsNotOfMembers(rs[1..], employeeId);
      assert rs == [rs[0]] + rs[1..];
    }
  }

  /** One employee's rows and everybody else's rows together are exactly the table. */
  lemma {:induction false} RecordsPartition(rs: seq<Attendance>, employeeId: string)
    ensures multiset(RecordsOf(rs, employeeId)) + multiset(RecordsNotOf(rs, employeeId)) == multiset(rs)
  {
    if |rs| > 0 {
      RecordsPartition(rs[1..], employeeId);
      assert rs == [rs[0]] + rs[1..];
    }
  }

  // ----- Integrity invariants -----

  /** `employee_id` is a unique column. */
  predicate EmployeeIdsUnique(es: seq<Employee>)
  {
    forall i, j :: 0 <= i < j < |es| ==> es[i].employeeId != es[j].employeeId
  }

  /** `email` is a unique column. */
  predicate EmailsUnique(es: seq<Employee>)
  {
    forall i, j :: 0 <= i < j < |es| ==> es[i].email != es[j].email
  }

  /** At most one attendance row per employee and date. */
  predicate OneRecordPerDay(rs: seq<Attendance>)
  {
    forall i, j :: 0 <= i < j < |rs| ==> rs[i].employeeId != rs[j].employeeId || rs[i].date != rs[j].date
  }

  /** Every attendance row names an existing employee. */
  predicate RecordsReferenceEmployees(es: seq<Employee>, rs: seq<Attendance>)
  {
    forall i :: 0 <= i < |rs| ==> HasEmployee(es, rs[i].employeeId)
  }

  /** Surrogate keys of the employees table are distinct. */
  predicate EmployeeKeysDistinct(es: seq<Employee>)
  {
    forall i, j :: 0 <= i < j < |es| ==> es[i].id != es[j].id
  }

  /**
   * The key SQLite gives a new employee row: the employees table has a plain integer primary
   * key (no autoincrement), so a new row gets one more than the largest key present, and 1 in
   * an empty table. The key of a deleted newest row is therefore handed out again.
   */
  function NextEmployeeKey(es: seq<Employee>): (r: nat)
    ensures r >= 1
    ensures forall i :: 0 <= i < |es| ==> es[i].id < r
    ensures r == 1 || exists i :: 0 <= i < |es| && es[i].id == r - 1
  {
    if |es| == 0 then 1
    else
      var rest := NextEmployeeKey(es[1..]);
      assert forall i :: 0 < i < |es| ==> es[i] == es[1..][i - 1];
      if es[0].id + 1 > rest then es[0].id + 1
      else
        assert rest == 1 || exists i :: 0 < i < |es| && es[i].id == rest - 1 by {
          if rest != 1 {
            var m :| 0 <= m < |es[1..]| && es[1..][m].id == rest - 1;
            assert es[m + 1].id == rest - 1;
          }
        }
        rest
  }

  /** Surrogate keys of the attendance table are distinct and below the next one to hand out. */
  predicate RecordKeysFresh(rs: seq<Attendance>, next: nat)
  {
    && (forall i :: 0 <= i < |rs| ==> rs[i].id < next)
    && (forall i, j :: 0 <= i < j < |rs| ==> rs[i].id != rs[j].id)
  }

  predicate Consistent(es: seq<Employee>, rs: seq<Attendance>, nextRecordKey: nat)
  {
    && EmployeeIdsUnique(es)
    && EmailsUnique(es)
    && OneRecordPerDay(rs)
    && RecordsReferenceEmployees(es, rs)
    && EmployeeKeysDistinct(es)
    && RecordKeysFresh(rs, nextRecordKey)
  }

  /**
   * The schema declares unique keys and unique `employee_id` and `email` columns, but nothing
   * over (employee_id, date): a table state can meet every other invariant and still hold two
   * rows for one employee on one day. One row per day is kept by the mark route alone.
   */
  lemma OneRecordPerDayIsNotImplied()
    ensures exists es: seq<Employee>, rs: seq<Attendance> ::
              && EmployeeIdsUnique(es) && EmailsUnique(es) && EmployeeKeysDistinct(es)
              && RecordKeysFresh(rs, 3) && RecordsReferenceEmployees(es, rs)
              && !OneRecordPerDay(rs)
  {
    var es := [Employee(1, "E1", "Ann", "ann@hr", "Ops")];
    var rs := [Attendance(1, "E1", 0, Present), Attendance(2, "E1", 0, Absent)];
    assert es[0].employeeId == rs[0].employeeId == rs[1].employeeId;
    assert HasEmployee(es, rs[0].employeeId) && HasEmployee(es, rs[1].employeeId);
    assert RecordsReferenceEmployees(es, rs);
    assert !OneRecordPerDay(rs);
  }

  /**
   * The database: both tables in row order, and the attendance table's autoincrement counter
   * (that table is declared with `sqlite_autoincrement`, so its keys are never reused).
   */
  class Database {
    var employees: seq<Employee>
    var attendance: seq<Attendance>
    var nextRecordKey: nat

    ghost predicate Valid()
      reads this
    {
      Consistent(employees, attendance, nextRecordKey)
    }

    constructor ()
      ensures Valid()
      ensures employees == [] && attendance == [] && nextRecordKey == 1
    {
      employees, attendance := [], [];
      nextRecordKey := 1;
    }
  }
}
