/** The attendance record view: a selected employee, that employee's history and its summary. */
module AttendanceRecords {
  import opened Models
  import opened Gateway
  import Store

  /** An attendance row as the client receives it: the status is whatever text the server sent. */
  datatype RecordRow = RecordRow(id: nat, employeeId: string, date: Date, status: string)

  function Statuses(rows: seq<RecordRow>): (r: seq<string>)
    ensures |r| == |rows|
    ensures forall i :: 0 <= i < |rows| ==> r[i] == rows[i].status
  {
    if |rows| == 0 then [] else [rows[0].status] + Statuses(rows[1..])
  }

  /** `rows.filter(r => r.status === status).length`: how many rows carry this status. */
  function CountStatus(rows: seq<RecordRow>, status: string): (n: nat)
    ensures n == multiset(Statuses(rows))[status]
  {
    if |rows| == 0 then 0
    else
      assert Statuses(rows) == [rows[0].status] + Statuses(rows[1..]);
      (if rows[0].status == status then 1 else 0) + CountStatus(rows[1..], status)
  }

  /** How many rows carry neither of the two statuses. */
  function CountOthers(rows: seq<RecordRow>, a: string, b: string): nat
  {
    if |rows| == 0 then 0
    else (if rows[0].status == a || rows[0].status == b then 0 else 1) + CountOthers(rows[1..], a, b)
  }

  /** Every row is counted once: as the first status, the second, or neither. */
  lemma {:induction false} CountsAddUp(rows: seq<RecordRow>, a: string, b: string)
    requires a != b
    ensures CountStatus(rows, a) + CountStatus(rows, b) + CountOthers(rows, a, b) == |rows|
  {
    if |rows| > 0 {
      CountsAddUp(rows[1..], a, b);
    }
  }

  /** No row carries another status exactly when every row carries one of the two. */
  lemma {:induction false} NoOthers(rows: seq<RecordRow>, a: string, b: string)
    ensures CountOthers(rows, a, b) == 0 <==> forall i :: 0 <= i < |rows| ==> rows[i].status == a || rows[i].status == b
  {
    if |rows| > 0 {
      NoOthers(rows[1..], a, b);
      assert forall i :: 0 < i < |rows| ==> rows[i] == rows[1..][i - 1];
    }
  }

  /**
   * The counts of two different statuses never exceed the number of rows, and add up to it
   * exactly when every row has one of the two.
   */
  lemma CountsPartition(rows: seq<RecordRow>, a: string, b: string)
    requires a != b
    ensures CountStatus(rows, a) + CountStatus(rows, b) <= |rows|
    ensures CountStatus(rows, a) + CountStatus(rows, b) == |rows| <==>
            forall i :: 0 <= i < |rows| ==> rows[i].status == a || rows[i].status == b
  {
    CountsAddUp(rows, a, b);
    NoOthers(rows, a, b);
  }

  /** The summary line under the table. */
  datatype Summary = Summary(total: nat, present: nat, absent: nat)

  function Summarize(rows: seq<RecordRow>): (s: Summary)
    ensures s.total == |rows|
    ensures s.present == multiset(Statuses(rows))["Present"]
    ensures s.absent == multiset(Statuses(rows))["Absent"]
    ensures s.present + s.absent <= s.total
    ensures s.present + s.absent == s.total <==>
            forall i :: 0 <= i < |rows| ==> rows[i].status == "Present" || rows[i].status == "Absent"
  {
    CountsPartition(rows, "Present", "Absent");
    Summary(|rows|, CountStatus(rows, "Present"), CountStatus(rows, "Absent"))
  }

  /** The three mutually exclusive things the view can show (the table has an empty variant). */
  datatype Screen =
    | NoSelection
    | Loading
    | NoRecords(details: Option<Employee>)
    | Table(details: Option<Employee>, rows: seq<RecordRow>, summary: Summary)

  /** The text shown when the employee list cannot be loaded (the thrown message is discarded). */
  const LoadFailedMessage := "Failed to load employees"

  class AttendanceView {
    /** The employees offered in the selector, also used for the details header. */
    var employees: seq<Employee>
    var selected: string
    var records: seq<RecordRow>
    var loading: bool
    var error: string
    /** The gateway calls the view has made, oldest first. */
    var calls: seq<ApiCall>
    /** The `selectedEmployeeId` the parent last passed (None: not passed). */
    var external: Option<string>

    /** `useState(selectedEmployeeId || '')`: the selection starts as the passed id, or empty. */
    constructor (selectedEmployeeId: Option<string>)
      ensures external == selectedEmployeeId
      ensures selected == (if selectedEmployeeId.Some? then selectedEmployeeId.value else "")
      ensures employees == [] && records == [] && !loading && error == "" && calls == []
    {
      external := selectedEmployeeId;
      selected := if selectedEmployeeId.Some? then selectedEmployeeId.value else "";
      employees, records := [], [];
      loading := false;
      error := "";
      calls := [];
    }

    /**
     * `fetchAttendance`: the error is cleared and the employee's history requested; a success
     * replaces the rows, a failure shows the message and empties them; loading ends false.
     */
    method FetchAttendance(employeeId: string, response: Outcome<seq<RecordRow>>)
      modifies this
      ensures calls == old(calls) + [GetHistory(employeeId)]
      ensures !loading
      ensures response.Ok? ==> records == response.value && error == ""
      ensures response.Err? ==> records == [] && error == response.message
      ensures employees == old(employees) && selected == old(selected) && external == old(external)
    {
      loading := true;
      error := "";
      calls := calls + [GetHistory(employeeId)];
      match response {
        case Ok(data) =>
          records := data;
        case Err(message) =>
          error := message;
          records := [];
      }
      loading := false;
    }

    /**
     * A new selection, with the effect it triggers: an unchanged value does nothing; an empty
     * one clears the rows without a call; any other fetches exactly that employee's history.
     */
    method SelectEmployee(employeeId: string, response: Outcome<seq<RecordRow>>)
      modifies this
      ensures employeeId == old(selected) ==> unchanged(this)
      ensures employeeId != old(selected) ==>
                selected == employeeId && employees == old(employees) && external == old(external)
      ensures employeeId != old(selected) && employeeId == "" ==>
                && records == [] && calls == old(calls)
                && loading == old(loading) && error == old(error)
      ensures employeeId != old(selected) && employeeId != "" ==>
                && calls == old(calls) + [GetHistory(employeeId)]
                && !loading
                && (response.Ok? ==> records == response.value && error == "")
                && (response.Err? ==> records == [] && error == response.message)
    {
      if employeeId == selected {
        return;
      }
      selected := employeeId;
      if selected != "" {
        FetchAttendance(selected, response);
      } else {
        records := [];
      }
    }

    /**
     * The parent passed `selectedEmployeeId`: an unchanged value does nothing; a changed empty
     * (or absent) value leaves the local selection alone; a changed non-empty value becomes
     * the selection, which fetches only if it differs from the current one.
     */
    method ExternalSelectionChanged(selectedEmployeeId: Option<string>, response: Outcome<seq<RecordRow>>)
      modifies this
      ensures selectedEmployeeId == old(external) ==> unchanged(this)
      ensures selectedEmployeeId != old(external) ==> external == selectedEmployeeId
      ensures selectedEmployeeId != old(external) && (selectedEmployeeId.None? || selectedEmployeeId.value == "") ==>
                && selected == old(selected) && records == old(records) && calls == old(calls)
                && loading == old(loading) && error == old(error) && employees == old(employees)
      ensures selectedEmployeeId != old(external) && selectedEmployeeId.Some? && selectedEmployeeId.value != "" ==>
                && selected == selectedEmployeeId.value
                && employees == old(employees)
                && (selectedEmployeeId.value == old(selected) ==>
                      && calls == old(calls) && records == old(records) && error == old(error)
                      && loading == old(loading))
                && (selectedEmployeeId.value != old(selected) ==>
                      && calls == old(calls) + [GetHistory(selectedEmployeeId.value)]
                      && !loading
                      && (response.Ok? ==> records == response.value && error == "")
                      && (response.Err? ==> records == [] && error == response.message))
    {
      if selectedEmployeeId == external {
        return;
      }
      external := selectedEmployeeId;
      if selectedEmployeeId.Some? && selectedEmployeeId.value != "" {
        SelectEmployee(selectedEmployeeId.value, response);
      }
    }

    /**
     * The effects run after the first render. Both requests start before either answer
     * arrives (so the records fetch clears the error first), then the employee list answers,
     * then the history.
     */
    method Mount(employeesResponse: Outcome<seq<Employee>>, recordsResponse: Outcome<seq<RecordRow>>)
      modifies this
      ensures calls == old(calls) + [ListEmployees] +
                       (if old(selected) != "" then [GetHistory(old(selected))] else [])
      ensures selected == old(selected) && external == old(external)
      ensures employees == (if employeesResponse.Ok? then employeesResponse.value else old(employees))
      ensures selected == "" ==> records == [] && loading == old(loading)
      ensures selected != "" ==> !loading && records == (if recordsResponse.Ok? then recordsResponse.value else [])
      ensures error == if selected != "" && recordsResponse.Err? then recordsResponse.message
                       else if employeesResponse.Err? then LoadFailedMessage
                       else if selected != "" then ""
                       else old(error)
    {
      // both effects start
      calls := calls + [ListEmployees];
      if selected != "" {
        loading := true;
        error := "";
        calls := calls + [GetHistory(selected)];
      } else {
        records := [];
      }
      // the employee list answers
      match employeesResponse {
        case Ok(data) =>
          employees := data;
        case Err(_) =>
          error := LoadFailedMessage;
      }
      // the history answers
      if selected != "" {
        match recordsResponse {
          case Ok(data) =>
            records := data;
          case Err(message) =>
            error := message;
            records := [];
        }
        loading := false;
      }
    }

    /**
     * What the view shows: a prompt with no selection, a spinner while loading, and otherwise
     * the details of the first employee with the selected id (if any) above the rows, with a
     * summary whenever there is at least one row.
     */
    function Render(): (s: Screen)
      reads this
      ensures s.NoSelection? <==> selected == ""
      ensures s.Loading? <==> selected != "" && loading
      ensures s.NoRecords? <==> selected != "" && !loading && records == []
      ensures (s.NoRecords? || s.Table?) ==> s.details == Store.FindEmployee(employees, selected)
      ensures s.Table? ==> s.rows == records && s.summary == Summarize(records)
    {
      if selected == "" then NoSelection
      else if loading then Loading
      else if records == [] then NoRecords(Store.FindEmployee(employees, selected))
      else Table(Store.FindEmployee(employees, selected), records, Summarize(records))
    }
  }
}
