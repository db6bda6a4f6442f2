/** The `/employees` routes: create, list, look up and delete (with its cascade). */
module EmployeeRoutes {
  import opened Models
  import opened Responses
  import opened Store
  import AttendanceRoutes

  /** The row a successful create inserts. */
  function NewRow(key: nat, req: NewEmployee): Employee
  {
    Employee(key, req.employeeId, req.fullName, req.email, req.department)
  }

  /** Appending an employee whose id and email are both new keeps the store consistent. */
  lemma {:induction false} InsertKeepsConsistent(es: seq<Employee>, rs: seq<Attendance>, nextRecordKey: nat,
                                                  req: NewEmployee)
    requires Consistent(es, rs, nextRecordKey)
    requires !HasEmployee(es, req.employeeId) && !HasEmail(es, req.email)
    ensures Consistent(es + [NewRow(NextEmployeeKey(es), req)], rs, nextRecordKey)
  {
    var es' := es + [NewRow(NextEmployeeKey(es), req)];
    forall i | 0 <= i < |rs|
      ensures HasEmployee(es', rs[i].employeeId)
    {
      var j :| 0 <= j < |es| && es[j].employeeId == rs[i].employeeId;
      assert es'[j] == es[j];
    }
  }

  /**
   * POST /employees/: a duplicate business id is rejected first, then a duplicate email;
   * otherwise exactly one row with the four given fields is appended.
   */
  method CreateEmployee(db: Database, req: NewEmployee) returns (r: Result<Message>)
    requires db.Valid()
    modifies db
    ensures db.Valid()
    ensures HasEmployee(old(db.employees), req.employeeId) ==>
              r == Err(DuplicateEmployeeId(req.employeeId)) && unchanged(db)
    ensures !HasEmployee(old(db.employees), req.employeeId) && HasEmail(old(db.employees), req.email) ==>
              r == Err(DuplicateEmail(req.email)) && unchanged(db)
    ensures !HasEmployee(old(db.employees), req.employeeId) && !HasEmail(old(db.employees), req.email) ==>
              && r == Ok(EmployeeCreated(req.employeeId))
              && db.employees == old(db.employees) + [NewRow(NextEmployeeKey(old(db.employees)), req)]
              && db.attendance == old(db.attendance)
              && db.nextRecordKey == old(db.nextRecordKey)
    ensures r.Ok? ==> GetEmployee(db.employees, req.employeeId) == Ok(NewRow(NextEmployeeKey(old(db.employees)), req))
  {
    var existingEmployee := FindEmployee(db.employees, req.employeeId);
    if existingEmployee.Some? {
      return Err(DuplicateEmployeeId(req.employeeId));
    }
    var existingEmail := FindEmail(db.employees, req.email);
    if existingEmail.Some? {
      return Err(DuplicateEmail(req.email));
    }
    InsertKeepsConsistent(db.employees, db.attendance, db.nextRecordKey, req);
    var row := NewRow(NextEmployeeKey(db.employees), req);
    db.employees := db.employees + [row];
    r := Ok(EmployeeCreated(req.employeeId));
    UniqueLookup(db.employees, |db.employees| - 1);
  }

  /**
   * Deleting the most recently created employee makes its key the next one handed out again:
   * create A, create B, delete B, create C gives C the key B had. The row removed is the one
   * `DeleteEmployee` removes for B's id: the first, and only, row with that id.
   */
  lemma NewestKeyIsReused(es: seq<Employee>, req: NewEmployee)
    requires EmployeeIdsUnique(es) && !HasEmployee(es, req.employeeId)
    ensures var row := NewRow(NextEmployeeKey(es), req);
            var es' := es + [row];
            && EmployeeIdsUnique(es')
            && IndexOfEmployee(es', req.employeeId) == Some(|es|)
            && NextEmployeeKey(es'[..|es|] + es'[|es| + 1..]) == row.id
  {
    var row := NewRow(NextEmployeeKey(es), req);
    AppendedRowIsFound(es, row);
    var es' := es + [row];
    assert es'[..|es|] + es'[|es| + 1..] == es;
  }

  /** A row appended under an id no row has is the only row with it, and the lookup finds it last. */
  lemma AppendedRowIsFound(es: seq<Employee>, row: Employee)
    requires EmployeeIdsUnique(es) && !HasEmployee(es, row.employeeId)
    ensures EmployeeIdsUnique(es + [row])
    ensures IndexOfEmployee(es + [row], row.employeeId) == Some(|es|)
  {
    var es' := es + [row];
    forall i, j | 0 <= i < j < |es'|
      ensures es'[i].employeeId != es'[j].employeeId
    {
      assert es'[i] == es[i];
      if j < |es| {
        assert es'[j] == es[j];
      }
    }
    assert es'[|es|].employeeId == row.employeeId;
  }

  /** GET /employees/{employee_id}: the employee with that id, or 404. */
  function GetEmployee(es: seq<Employee>, employeeId: string): (r: Result<Employee>)
    ensures r.Ok? <==> HasEmployee(es, employeeId)
    ensures r.Ok? ==> r.value in es && r.value.employeeId == employeeId
    ensures r.Err? ==> r.failure == EmployeeNotFound(employeeId)
    ensures r.Ok? && EmployeeIdsUnique(es) ==>
              forall i :: 0 <= i < |es| && es[i].employeeId == employeeId ==> es[i] == r.value
  {
    match FindEmployee(es, employeeId)
    case None => Err(EmployeeNotFound(employeeId))
    case Some(e) => Ok(e)
  }

  /** With unique ids, looking up the id of row `k` finds row `k`. */
  lemma UniqueLookup(es: seq<Employee>, k: nat)
    requires EmployeeIdsUnique(es) && k < |es|
    ensures GetEmployee(es, es[k].employeeId) == Ok(es[k])
  {
  }

  /** Removing row `k`, the only row with its id, together with all of its attendance, keeps the store consistent. */
  lemma CascadeKeepsConsistent(es: seq<Employee>, rs: seq<Attendance>, nextRecordKey: nat, k: nat)
    requires Consistent(es, rs, nextRecordKey)
    requires k < |es|
    ensures Consistent(es[..k] + es[k + 1..], RecordsNotOf(rs, es[k].employeeId), nextRecordKey)
  {
    var id := es[k].employeeId;
    RemoveRowKeepsUnique(es, k);
    RecordsNotOfKeepsOneRecordPerDay(rs, id);
    RecordsNotOfKeepsKeys(rs, id, nextRecordKey);
    CascadeKeepsReferences(es, rs, k);
  }

  /** Dropping one employee row keeps ids, emails and surrogate keys unique. */
  lemma RemoveRowKeepsUnique(es: seq<Employee>, k: nat)
    requires EmployeeIdsUnique(es) && EmailsUnique(es) && EmployeeKeysDistinct(es)
    requires k < |es|
    ensures var es' := es[..k] + es[k + 1..];
            EmployeeIdsUnique(es') && EmailsUnique(es') && EmployeeKeysDistinct(es')
  {
    var es' := es[..k] + es[k + 1..];
    assert forall i :: 0 <= i < |es'| ==> es'[i] == es[if i < k then i else i + 1];
  }

  /** The rows left by the cascade all name an employee other than the removed one, which is still there. */
  lemma CascadeKeepsReferences(es: seq<Employee>, rs: seq<Attendance>, k: nat)
    requires RecordsReferenceEmployees(es, rs)
    requires k < |es|
    ensures RecordsReferenceEmployees(es[..k] + es[k + 1..], RecordsNotOf(rs, es[k].employeeId))
  {
    var id := es[k].employeeId;
    var es' := es[..k] + es[k + 1..];
    var rs' := RecordsNotOf(rs, id);
    forall i | 0 <= i < |rs'|
      ensures HasEmployee(es', rs'[i].employeeId)
    {
      var m := RecordsNotOfFrom(rs, id, i);
      var j :| 0 <= j < |es| && es[j].employeeId == rs[m].employeeId;
      if j < k {
        assert es'[j] == es[j];
      } else {
        assert j != k;
        assert es'[j - 1] == es[j];
      }
    }
  }

  /** Every row the cascade keeps sits somewhere in the table. */
  lemma {:induction false} RecordsNotOfFrom(rs: seq<Attendance>, employeeId: string, k: nat) returns (n: nat)
    requires k < |RecordsNotOf(rs, employeeId)|
    ensures n < |rs| && rs[n] == RecordsNotOf(rs, employeeId)[k]
    ensures rs[n].employeeId != employeeId
  {
    var r := RecordsNotOf(rs, employeeId);
    var tail := RecordsNotOf(rs[1..], employeeId);
    if rs[0].employeeId != employeeId {
      assert r == [rs[0]] + tail;
      if k == 0 {
        n := 0;
      } else {
        var n' := RecordsNotOfFrom(rs[1..], employeeId, k - 1);
        n := n' + 1;
      }
    } else {
      assert r == tail;
      var n' := RecordsNotOfFrom(rs[1..], employeeId, k);
      n := n' + 1;
    }
  }

  /** Filtering out one employee's rows keeps the others in their relative order. */
  lemma {:induction false} RecordsNotOfInOrder(rs: seq<Attendance>, employeeId: string, i: nat, j: nat)
      returns (m: nat, n: nat)
    requires i < j < |RecordsNotOf(rs, employeeId)|
    ensures m < n < |rs| && rs[m] == RecordsNotOf(rs, employeeId)[i] && rs[n] == RecordsNotOf(rs, employeeId)[j]
  {
    var r := RecordsNotOf(rs, employeeId);
    var tail := RecordsNotOf(rs[1..], employeeId);
    if rs[0].employeeId != employeeId {
      assert r == [rs[0]] + tail;
      if i == 0 {
        var n' := RecordsNotOfFrom(rs[1..], employeeId, j - 1);
        m, n := 0, n' + 1;
      } else {
        var m', n' := RecordsNotOfInOrder(rs[1..], employeeId, i - 1, j - 1);
        m, n := m' + 1, n' + 1;
      }
    } else {
      assert r == tail;
      var m', n' := RecordsNotOfInOrder(rs[1..], employeeId, i, j);
      m, n := m' + 1, n' + 1;
    }
  }

  /** The cascade creates no clashing pair: at most one row per employee and day remains. */
  lemma RecordsNotOfKeepsOneRecordPerDay(rs: seq<Attendance>, employeeId: string)
    requires OneRecordPerDay(rs)
    ensures OneRecordPerDay(RecordsNotOf(rs, employeeId))
  {
    var r := RecordsNotOf(rs, employeeId);
    forall i, j | 0 <= i < j < |r|
      ensures r[i].employeeId != r[j].employeeId || r[i].date != r[j].date
    {
      var m, n := RecordsNotOfInOrder(rs, employeeId, i, j);
    }
  }

  /** Every row the cascade keeps has a key below the counter. */
  lemma RecordsNotOfKeepsBound(rs: seq<Attendance>, employeeId: string, next: nat)
    requires forall i :: 0 <= i < |rs| ==> rs[i].id < next
    ensures var r := RecordsNotOf(rs, employeeId); forall i :: 0 <= i < |r| ==> r[i].id < next
  {
    var r := RecordsNotOf(rs, employeeId);
    forall i | 0 <= i < |r|
      ensures r[i].id < next
    {
      var m := RecordsNotOfFrom(rs, employeeId, i);
    }
  }

  /** The cascade keeps the surrogate keys distinct and below the counter. */
  lemma RecordsNotOfKeepsKeys(rs: seq<Attendance>, employeeId: string, next: nat)
    requires RecordKeysFresh(rs, next)
    ensures RecordKeysFresh(RecordsNotOf(rs, employeeId), next)
  {
    RecordsNotOfKeepsBound(rs, employeeId, next);
    var r := RecordsNotOf(rs, employeeId);
    forall i, j | 0 <= i < j < |r|
      ensures r[i].id != r[j].id
    {
      var m, n := RecordsNotOfInOrder(rs, employeeId, i, j);
    }
  }

  /**
   * DELETE /employees/{employee_id}: 404 if there is no such employee; otherwise every attendance
   * row of the employee is removed, and then the employee row itself.
   */
  method DeleteEmployee(db: Database, employeeId: string) returns (r: Result<Message>)
    requires db.Valid()
    modifies db
    ensures db.Valid()
    ensures !HasEmployee(old(db.employees), employeeId) ==>
              r == Err(EmployeeNotFound(employeeId)) && unchanged(db)
    ensures HasEmployee(old(db.employees), employeeId) ==>
              var k := IndexOfEmployee(old(db.employees), employeeId).value;
              && r == Ok(EmployeeDeleted(employeeId))
              && db.employees == old(db.employees)[..k] + old(db.employees)[k + 1..]
              && db.attendance == RecordsNotOf(old(db.attendance), employeeId)
              && db.nextRecordKey == old(db.nextRecordKey)
    ensures r.Ok? ==>
              && |db.employees| == |old(db.employees)| - 1
              && GetEmployee(db.employees, employeeId) == Err(EmployeeNotFound(employeeId))
              && AttendanceRoutes.GetEmployeeAttendance(db.employees, db.attendance, employeeId)
                 == Err(EmployeeNotFound(employeeId))
  {
    var found := IndexOfEmployee(db.employees, employeeId);
    if found.None? {
      return Err(EmployeeNotFound(employeeId));
    }
    var k := found.value;
    CascadeKeepsConsistent(db.employees, db.attendance, db.nextRecordKey, k);
    db.attendance := RecordsNotOf(db.attendance, employeeId);
    db.employees := db.employees[..k] + db.employees[k + 1..];
    r := Ok(EmployeeDeleted(employeeId));
    assert forall i :: 0 <= i < |db.employees| ==> db.employees[i] == old(db.employees)[if i < k then i else i + 1];
  }
}
