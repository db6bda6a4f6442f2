/** How the server's answers reach the record view through the gateway. */
module Integration {
  import opened Models
  import opened Responses
  import opened Store
  import opened Gateway
  import AttendanceRoutes
  import AttendanceRecords

  /** The JSON row the server sends for an attendance row: the status as its enumeration name. */
  function ToRow(a: Attendance): AttendanceRecords.RecordRow
  {
    AttendanceRecords.RecordRow(a.id, a.employeeId, a.date, StatusName(a.status))
  }

  function ToRows(rs: seq<Attendance>): (r: seq<AttendanceRecords.RecordRow>)
    ensures |r| == |rs|
    ensures forall i :: 0 <= i < |rs| ==> r[i] == ToRow(rs[i])
  {
    if |rs| == 0 then [] else [ToRow(rs[0])] + ToRows(rs[1..])
  }

  /**
   * What the view's history request resolves to: the server's rows, or the server's 404
   * detail as the thrown message (the detail text is never empty, so it is shown verbatim).
   * The rows delivered are exactly the employee's records, newest first, sent as served rows.
   * The id is taken to reach the route as it is; the gateway does not encode it into the path.
   */
  function HistoryOutcome(es: seq<Employee>, rs: seq<Attendance>, employeeId: string)
    : (o: Outcome<seq<AttendanceRecords.RecordRow>>)
    ensures o.Err? <==> !HasEmployee(es, employeeId)
    ensures o.Err? ==> o.message == "Employee with ID '" + employeeId + "' not found"
    ensures o.Ok? ==> exists h :: && AttendanceRoutes.NewestFirst(h)
                                  && multiset(h) == multiset(RecordsOf(rs, employeeId))
                                  && o.value == ToRows(h)
    ensures o.Ok? ==> |o.value| == |RecordsOf(rs, employeeId)|
    ensures o.Ok? ==> forall i :: 0 <= i < |o.value| ==>
                        && o.value[i].employeeId == employeeId
                        && (o.value[i].status == "Present" || o.value[i].status == "Absent")
    ensures o.Ok? ==> forall i, j :: 0 <= i < j < |o.value| ==> o.value[i].date >= o.value[j].date
  {
    match AttendanceRoutes.GetEmployeeAttendance(es, rs, employeeId)
    case Ok(history) =>
      assert |history| == |multiset(history)| == |RecordsOf(rs, employeeId)|;
      HistoryRowsAreTheEmployees(rs, employeeId, history);
      Outcome.Ok(ToRows(history))
    case Err(failure) => Outcome.Err(ThrownMessage(GetHistory(employeeId), Some(Text(DetailText(failure)))))
  }

  /** Every row of a permutation of one employee's records belongs to that employee. */
  lemma HistoryRowsAreTheEmployees(rs: seq<Attendance>, employeeId: string, history: seq<Attendance>)
    requires multiset(history) == multiset(RecordsOf(rs, employeeId))
    ensures forall i :: 0 <= i < |history| ==> history[i].employeeId == employeeId
  {
    RecordsOfMembers(rs, employeeId);
    forall i | 0 <= i < |history|
      ensures history[i].employeeId == employeeId
    {
      assert history[i] in multiset(history);
      assert history[i] in RecordsOf(rs, employeeId);
    }
  }

  /**
   * What the view receives for an existing employee always adds up: Present plus Absent is the
   * total, which is the number of that employee's records.
   */
  lemma ServedHistoryAddsUp(es: seq<Employee>, rs: seq<Attendance>, employeeId: string)
    requires HasEmployee(es, employeeId)
    ensures var o := HistoryOutcome(es, rs, employeeId);
            && o.Ok?
            && var s := AttendanceRecords.Summarize(o.value);
               s.present + s.absent == s.total == |RecordsOf(rs, employeeId)|
  {
    var o := HistoryOutcome(es, rs, employeeId);
    AttendanceRecords.CountsPartition(o.value, "Present", "Absent");
  }

  /** Rows served by the server only carry the two enumeration names, so the summary adds up. */
  lemma ServedSummaryAddsUp(rs: seq<Attendance>)
    ensures var s := AttendanceRecords.Summarize(ToRows(rs)); s.present + s.absent == s.total == |rs|
  {
    var rows := ToRows(rs);
    forall i | 0 <= i < |rows|
      ensures rows[i].status == "Present" || rows[i].status == "Absent"
    {
      assert rows[i].status == StatusName(rs[i].status);
    }
    AttendanceRecords.CountsPartition(rows, "Present", "Absent");
  }
}
