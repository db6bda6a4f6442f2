/** The `/attendance` routes: mark (an upsert), one employee's history, and the joined listing. */
module AttendanceRoutes {
  import opened Models
  import opened Responses
  import opened Store

  // ----- Newest-first ordering (`order_by(Attendance.date.desc())`) -----

  /** Dates never increase along the sequence. */
  predicate NewestFirst(rs: seq<Attendance>)
  {
    forall i, j :: 0 <= i < j < |rs| ==> rs[i].date >= rs[j].date
  }

  function InsertNewestFirst(a: Attendance, rs: seq<Attendance>): (r: seq<Attendance>)
    requires NewestFirst(rs)
    ensures NewestFirst(r)
    ensures multiset(r) == multiset(rs) + multiset{a}
  {
    if |rs| == 0 then [a]
    else if a.date >= rs[0].date then [a] + rs
    else
      var rest := InsertNewestFirst(a, rs[1..]);
      assert rs == [rs[0]] + rs[1..];
      RestBelowHead(a, rs, rest);
      var r := [rs[0]] + rest;
      assert forall j :: 0 < j < |r| ==> r[j] == rest[j - 1];
      r
  }

  /** Inserting a row dated before the head into the tail leaves every row no newer than the head. */
  lemma RestBelowHead(a: Attendance, rs: seq<Attendance>, rest: seq<Attendance>)
    requires NewestFirst(rs) && |rs| > 0 && a.date < rs[0].date
    requires multiset(rest) == multiset(rs[1..]) + multiset{a}
    ensures forall x :: x in rest ==> x.date <= rs[0].date
  {
    forall x | x in rest
      ensures x.date <= rs[0].date
    {
      assert x in multiset(rest);
      if x != a {
        assert x in multiset(rs[1..]);
        var m :| 0 <= m < |rs[1..]| && rs[1..][m] == x;
        assert rs[m + 1] == x;
      }
    }
  }

  /**
   * Orders rows newest first. The database leaves the order of rows with equal dates open;
   * this ordering keeps them in table order.
   */
  function SortNewestFirst(rs: seq<Attendance>): (r: seq<Attendance>)
    ensures NewestFirst(r)
    ensures multiset(r) == multiset(rs)
  {
    if |rs| == 0 then []
    else
      assert rs == [rs[0]] + rs[1..];
      InsertNewestFirst(rs[0], SortNewestFirst(rs[1..]))
  }

  /** No two different rows share a date. */
  predicate OnePerDate(rs: seq<Attendance>)
  {
    forall i, j :: 0 <= i < |rs| && 0 <= j < |rs| && rs[i].date == rs[j].date ==> rs[i] == rs[j]
  }

  /**
   * When no two different rows share a date, there is only one newest-first arrangement of
   * them: any two agree element for element.
   */
  lemma {:induction false} NewestFirstUnique(a: seq<Attendance>, b: seq<Attendance>)
    requires multiset(a) == multiset(b)
    requires NewestFirst(a) && NewestFirst(b) && OnePerDate(a)
    ensures a == b
  {
    if |a| == 0 {
      assert |b| == |multiset(b)| == 0;
    } else {
      SameHead(a, b);
      SameTail(a, b);
      NewestFirstUnique(a[1..], b[1..]);
      assert a == [a[0]] + a[1..] && b == [b[0]] + b[1..];
    }
  }

  /** The newest row comes first in both arrangements, and it is the same row. */
  lemma SameHead(a: seq<Attendance>, b: seq<Attendance>)
    requires multiset(a) == multiset(b) && |a| > 0
    requires NewestFirst(a) && NewestFirst(b) && OnePerDate(a)
    ensures |b| > 0 && b[0] == a[0]
  {
    assert a[0] in multiset(b);
    assert b[0] in multiset(a);
    var k :| 0 <= k < |b| && b[k] == a[0];
    var m :| 0 <= m < |a| && a[m] == b[0];
    assert a[0].date >= a[m].date;
    assert b[0].date >= b[k].date;
  }

  /** Removing the common first row leaves the same rows, still ordered and still one per date. */
  lemma SameTail(a: seq<Attendance>, b: seq<Attendance>)
    requires multiset(a) == multiset(b) && |a| > 0 && |b| > 0 && a[0] == b[0]
    requires NewestFirst(a) && NewestFirst(b) && OnePerDate(a)
    ensures multiset(a[1..]) == multiset(b[1..])
    ensures NewestFirst(a[1..]) && NewestFirst(b[1..]) && OnePerDate(a[1..])
  {
    TailMultiset(a);
    TailMultiset(b);
    TailOrdered(a);
    TailOrdered(b);
  }

  lemma TailMultiset(a: seq<Attendance>)
    requires |a| > 0
    ensures multiset(a[1..]) == multiset(a) - multiset{a[0]}
  {
    assert a == [a[0]] + a[1..];
  }

  lemma TailOrdered(a: seq<Attendance>)
    requires |a| > 0
    ensures NewestFirst(a) ==> NewestFirst(a[1..])
    ensures OnePerDate(a) ==> OnePerDate(a[1..])
  {
    assert forall i :: 0 <= i < |a[1..]| ==> a[1..][i] == a[i + 1];
  }

  /** One employee's rows never share a date when the table holds one row per employee and date. */
  lemma OneEmployeeOnePerDate(rs: seq<Attendance>, employeeId: string)
    requires OneRecordPerDay(rs)
    ensures OnePerDate(RecordsOf(rs, employeeId))
  {
    var mine := RecordsOf(rs, employeeId);
    RecordsOfMembers(rs, employeeId);
    forall i, j | 0 <= i < |mine| && 0 <= j < |mine| && mine[i].date == mine[j].date
      ensures mine[i] == mine[j]
    {
      assert mine[i] in rs && mine[j] in rs;
      var p :| 0 <= p < |rs| && rs[p] == mine[i];
      var q :| 0 <= q < |rs| && rs[q] == mine[j];
      assert p == q;
    }
  }

  // ----- Routes -----

  /** Marking over an existing row changes its status only, so every invariant survives. */
  lemma UpdateKeepsConsistent(es: seq<Employee>, rs: seq<Attendance>, nextRecordKey: nat,
                              k: nat, status: Status)
    requires Consistent(es, rs, nextRecordKey) && k < |rs|
    ensures Consistent(es, rs[k := rs[k].(status := status)], nextRecordKey)
  {
  }

  /** Adding a row for an existing employee on a date with no row keeps every invariant. */
  lemma AppendKeepsConsistent(es: seq<Employee>, rs: seq<Attendance>, nextRecordKey: nat,
                              req: AttendanceRequest, status: Status)
    requires Consistent(es, rs, nextRecordKey)
    requires HasEmployee(es, req.employeeId) && !HasRecord(rs, req.employeeId, req.date)
    ensures Consistent(es, rs + [Attendance(nextRecordKey, req.employeeId, req.date, status)],
                       nextRecordKey + 1)
  {
  }

  /**
   * POST /attendance/: the status text is checked before the employee is looked up; for an
   * existing employee the (employee, date) row has its status replaced if it exists, and a
   * new row is appended otherwise.
   */
  method MarkAttendance(db: Database, req: AttendanceRequest) returns (r: Result<Message>)
    requires db.Valid()
    modifies db
    ensures db.Valid()
    ensures ParseStatus(req.status).None? ==> r == Err(InvalidStatus) && unchanged(db)
    ensures ParseStatus(req.status).Some? && !HasEmployee(old(db.employees), req.employeeId) ==>
              r == Err(EmployeeNotFound(req.employeeId)) && unchanged(db)
    ensures ParseStatus(req.status).Some? && HasEmployee(old(db.employees), req.employeeId) &&
            HasRecord(old(db.attendance), req.employeeId, req.date) ==>
              var k := IndexOfRecord(old(db.attendance), req.employeeId, req.date).value;
              && r == Ok(AttendanceMarked(Updated, req.employeeId, req.date, req.status))
              && db.attendance == old(db.attendance)[k := old(db.attendance)[k].(status := ParseStatus(req.status).value)]
              && db.employees == old(db.employees)
              && db.nextRecordKey == old(db.nextRecordKey)
    ensures ParseStatus(req.status).Some? && HasEmployee(old(db.employees), req.employeeId) &&
            !HasRecord(old(db.attendance), req.employeeId, req.date) ==>
              && r == Ok(AttendanceMarked(Created, req.employeeId, req.date, req.status))
              && db.attendance == old(db.attendance) +
                 [Attendance(old(db.nextRecordKey), req.employeeId, req.date, ParseStatus(req.status).value)]
              && db.employees == old(db.employees)
              && db.nextRecordKey == old(db.nextRecordKey) + 1
  {
    var status := ParseStatus(req.status);
    if status.None? {
      return Err(InvalidStatus);
    }
    var employee := FindEmployee(db.employees, req.employeeId);
    if employee.None? {
      return Err(EmployeeNotFound(req.employeeId));
    }
    var existing := IndexOfRecord(db.attendance, req.employeeId, req.date);
    if existing.Some? {
      var k := existing.value;
      UpdateKeepsConsistent(db.employees, db.attendance, db.nextRecordKey, k, status.value);
      db.attendance := db.attendance[k := db.attendance[k].(status := status.value)];
      r := Ok(AttendanceMarked(Updated, req.employeeId, req.date, req.status));
    } else {
      AppendKeepsConsistent(db.employees, db.attendance, db.nextRecordKey, req, status.value);
      db.attendance := db.attendance + [Attendance(db.nextRecordKey, req.employeeId, req.date, status.value)];
      db.nextRecordKey := db.nextRecordKey + 1;
      r := Ok(AttendanceMarked(Created, req.employeeId, req.date, req.status));
    }
  }

  /**
   * GET /attendance/{employee_id}: 404 for an unknown employee; otherwise exactly that
   * employee's rows, newest first (possibly none, which is not an error).
   */
  function GetEmployeeAttendance(es: seq<Employee>, rs: seq<Attendance>, employeeId: string)
    : (r: Result<seq<Attendance>>)
    ensures r.Err? <==> !HasEmployee(es, employeeId)
    ensures r.Err? ==> r.failure == EmployeeNotFound(employeeId)
    ensures r.Ok? ==> NewestFirst(r.value) && multiset(r.value) == multiset(RecordsOf(rs, employeeId))
  {
    if FindEmployee(es, employeeId).None? then Err(EmployeeNotFound(employeeId))
    else Ok(SortNewestFirst(RecordsOf(rs, employeeId)))
  }

  /**
   * In a consistent store the history of an employee is fully determined: it is the one
   * newest-first arrangement of that employee's rows.
   */
  lemma EmployeeAttendanceDetermined(es: seq<Employee>, rs: seq<Attendance>, employeeId: string,
                                     history: seq<Attendance>)
    requires OneRecordPerDay(rs) && HasEmployee(es, employeeId)
    requires multiset(history) == multiset(RecordsOf(rs, employeeId)) && NewestFirst(history)
    ensures GetEmployeeAttendance(es, rs, employeeId) == Ok(history)
  {
    var r := GetEmployeeAttendance(es, rs, employeeId).value;
    OneEmployeeOnePerDate(rs, employeeId);
    var mine := RecordsOf(rs, employeeId);
    RecordsOfMembers(rs, employeeId);
    forall i, j | 0 <= i < |r| && 0 <= j < |r| && r[i].date == r[j].date
      ensures r[i] == r[j]
    {
      assert r[i] in multiset(mine) && r[j] in multiset(mine);
      var p :| 0 <= p < |mine| && mine[p] == r[i];
      var q :| 0 <= q < |mine| && mine[q] == r[j];
    }
    NewestFirstUnique(r, history);
  }

  // ----- GET /attendance/: inner join with the employees table -----

  /** A row of the joined listing: the attendance row with its employee's full name. */
  datatype JoinedRecord = JoinedRecord(record: Attendance, fullName: string)

  /**
   * The inner join on `employee_id`: each row whose employee exists, with that employee's
   * full name, in the order of `rs`; rows of unknown employees are dropped.
   */
  function JoinEmployees(es: seq<Employee>, rs: seq<Attendance>): (r: seq<JoinedRecord>)
    ensures |r| <= |rs|
  {
    if |rs| == 0 then []
    else
      var rest := JoinEmployees(es, rs[1..]);
      match FindEmployee(es, rs[0].employeeId)
      case None => rest
      case Some(e) => [JoinedRecord(rs[0], e.fullName)] + rest
  }

  /** Every joined row has an employee, and carries the full name of the employee with that id. */
  lemma {:induction false} JoinNames(es: seq<Employee>, rs: seq<Attendance>)
    ensures forall k :: 0 <= k < |JoinEmployees(es, rs)| ==>
              && HasEmployee(es, JoinEmployees(es, rs)[k].record.employeeId)
              && JoinEmployees(es, rs)[k].fullName == FindEmployee(es, JoinEmployees(es, rs)[k].record.employeeId).value.fullName
  {
    if |rs| > 0 {
      JoinNames(es, rs[1..]);
      var rest := JoinEmployees(es, rs[1..]);
      match FindEmployee(es, rs[0].employeeId) {
        case None =>
          assert JoinEmployees(es, rs) == rest;
        case Some(e) =>
          var r := [JoinedRecord(rs[0], e.fullName)] + rest;
          assert JoinEmployees(es, rs) == r;
          assert forall k :: 0 < k < |r| ==> r[k] == rest[k - 1];
      }
    }
  }

  /** Every joined row is an attendance row of the table: the position it came from. */
  lemma {:induction false} JoinFrom(es: seq<Employee>, rs: seq<Attendance>, k: nat) returns (m: nat)
    requires k < |JoinEmployees(es, rs)|
    ensures m < |rs| && rs[m] == JoinEmployees(es, rs)[k].record
  {
    var rest := JoinEmployees(es, rs[1..]);
    match FindEmployee(es, rs[0].employeeId) {
      case None =>
        assert JoinEmployees(es, rs) == rest;
        var m' := JoinFrom(es, rs[1..], k);
        m := m' + 1;
      case Some(e) =>
        assert JoinEmployees(es, rs) == [JoinedRecord(rs[0], e.fullName)] + rest;
        if k == 0 {
          m := 0;
        } else {
          var m' := JoinFrom(es, rs[1..], k - 1);
          m := m' + 1;
        }
    }
  }

  /** The inner join keeps every row whose employee exists: the position it lands at. */
  lemma {:induction false} JoinCovers(es: seq<Employee>, rs: seq<Attendance>, m: nat) returns (k: nat)
    requires m < |rs| && HasEmployee(es, rs[m].employeeId)
    ensures k < |JoinEmployees(es, rs)| && JoinEmployees(es, rs)[k].record == rs[m]
  {
    if m == 0 {
      k := 0;
    } else {
      assert rs[1..][m - 1] == rs[m];
      var k' := JoinCovers(es, rs[1..], m - 1);
      k := if HasEmployee(es, rs[0].employeeId) then k' + 1 else k';
    }
  }

  /** The inner join keeps the relative order of the rows it keeps. */
  lemma {:induction false} JoinKeepsOrder(es: seq<Employee>, rs: seq<Attendance>)
    requires NewestFirst(rs)
    ensures forall i, j :: 0 <= i < j < |JoinEmployees(es, rs)| ==>
              JoinEmployees(es, rs)[i].record.date >= JoinEmployees(es, rs)[j].record.date
  {
    if |rs| > 0 {
      TailOrdered(rs);
      JoinKeepsOrder(es, rs[1..]);
      var rest := JoinEmployees(es, rs[1..]);
      match FindEmployee(es, rs[0].employeeId) {
        case None =>
          assert JoinEmployees(es, rs) == rest;
        case Some(e) =>
          var r := [JoinedRecord(rs[0], e.fullName)] + rest;
          assert JoinEmployees(es, rs) == r;
          JoinedTailNoNewer(es, rs);
          forall i, j | 0 <= i < j < |r|
            ensures r[i].record.date >= r[j].record.date
          {
            assert r[j] == rest[j - 1];
            if i > 0 {
              assert r[i] == rest[i - 1];
            }
          }
      }
    }
  }

  /** No joined row of the tail is newer than the head of a newest-first table. */
  lemma JoinedTailNoNewer(es: seq<Employee>, rs: seq<Attendance>)
    requires NewestFirst(rs) && |rs| > 0
    ensures forall k :: 0 <= k < |JoinEmployees(es, rs[1..])| ==> JoinEmployees(es, rs[1..])[k].record.date <= rs[0].date
  {
    var rest := JoinEmployees(es, rs[1..]);
    forall k | 0 <= k < |rest|
      ensures rest[k].record.date <= rs[0].date
    {
      var m := JoinFrom(es, rs[1..], k);
      assert rs[m + 1] == rest[k].record;
    }
  }

  /** GET /attendance/: every joinable row with its employee's name, newest first. */
  function GetAllAttendance(es: seq<Employee>, rs: seq<Attendance>): (r: seq<JoinedRecord>)
    ensures forall i, j :: 0 <= i < j < |r| ==> r[i].record.date >= r[j].record.date
    ensures forall k :: 0 <= k < |r| ==> r[k].record in rs && HasEmployee(es, r[k].record.employeeId)
    ensures forall k :: 0 <= k < |r| && HasEmployee(es, r[k].record.employeeId) ==>
              r[k].fullName == FindEmployee(es, r[k].record.employeeId).value.fullName
    ensures forall a :: a in rs && HasEmployee(es, a.employeeId) ==> exists k :: 0 <= k < |r| && r[k].record == a
  {
    var sorted := SortNewestFirst(rs);
    assert forall a :: a in rs <==> a in sorted by {
      forall a ensures a in rs <==> a in sorted {
        assert a in rs <==> a in multiset(rs);
        assert a in sorted <==> a in multiset(sorted);
      }
    }
    JoinKeepsOrder(es, sorted);
    JoinNames(es, sorted);
    var r := JoinEmployees(es, sorted);
    forall k | 0 <= k < |r|
      ensures r[k].record in rs
    {
      var m := JoinFrom(es, sorted, k);
      assert sorted[m] in sorted;
    }
    forall a | a in rs && HasEmployee(es, a.employeeId)
      ensures exists k :: 0 <= k < |r| && r[k].record == a
    {
      var m :| 0 <= m < |sorted| && sorted[m] == a;
      var k := JoinCovers(es, sorted, m);
    }
    r
  }

  /** Because every row references an employee, the inner join drops nothing. */
  lemma {:induction false} JoinKeepsEveryRecord(es: seq<Employee>, rs: seq<Attendance>)
    requires forall a :: a in rs ==> HasEmployee(es, a.employeeId)
    ensures |JoinEmployees(es, rs)| == |rs|
  {
    if |rs| > 0 {
      assert rs[0] in rs;
      JoinKeepsEveryRecord(es, rs[1..]);
    }
  }

  /** In a consistent store the listing has exactly one row per attendance row. */
  lemma AllAttendanceIsComplete(es: seq<Employee>, rs: seq<Attendance>)
    requires RecordsReferenceEmployees(es, rs)
    ensures |GetAllAttendance(es, rs)| == |rs|
  {
    var sorted := SortNewestFirst(rs);
    forall a | a in sorted
      ensures HasEmployee(es, a.employeeId)
    {
      assert a in multiset(rs);
      var i :| 0 <= i < |rs| && rs[i] == a;
    }
    JoinKeepsEveryRecord(es, sorted);
    assert |sorted| == |multiset(sorted)| == |rs|;
  }
}
