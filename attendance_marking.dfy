/** The attendance marking form: pick an employee, a date and a status, and submit `mark`. */
module AttendanceMarking {
  import opened Models
  import opened Gateway

  /** An input event of the form, carrying the value of the input that changed. */
  datatype Change = EmployeeChosen(employeeId: string) | DateChosen(date: Date) | StatusChosen(status: string)

  /** `{...formData, [name]: value}`: the changed input's field takes its value, the others stay. */
  function ApplyChange(d: AttendanceRequest, c: Change): (r: AttendanceRequest)
    ensures r.employeeId == (if c.EmployeeChosen? then c.employeeId else d.employeeId)
    ensures r.date == (if c.DateChosen? then c.date else d.date)
    ensures r.status == (if c.StatusChosen? then c.status else d.status)
  {
    match c
    case EmployeeChosen(id) => d.(employeeId := id)
    case DateChosen(date) => d.(date := date)
    case StatusChosen(status) => d.(status := status)
  }

  /** The text shown when submit is pressed with no employee chosen. */
  const NoEmployeeMessage := "Please select an employee"

  /** The text shown when the employee list cannot be loaded (the thrown message is discarded). */
  const LoadFailedMessage := "Failed to load employees"

  class AttendanceForm {
    /** The employees offered in the selector. */
    var employees: seq<Employee>
    var draft: AttendanceRequest
    var loading: bool
    var error: string
    var success: string
    /** The gateway calls the form has made, oldest first. */
    var calls: seq<ApiCall>
    /** The ids passed to `onAttendanceMarked`, oldest first. */
    var notified: seq<string>
    /** Whether the parent passed an `onAttendanceMarked` callback. */
    const hasParent: bool

    /** The initial draft: no employee, today's date, status "Present". */
    constructor (today: Date, hasParent: bool)
      ensures this.hasParent == hasParent
      ensures draft == AttendanceRequest("", today, "Present")
      ensures employees == [] && !loading && error == "" && success == ""
      ensures calls == [] && notified == []
    {
      this.hasParent := hasParent;
      employees := [];
      draft := AttendanceRequest("", today, "Present");
      loading := false;
      error, success := "", "";
      calls := [];
      notified := [];
    }

    /** The effect run on mount: load the selector's employees; a failure shows a fixed message. */
    method FetchEmployees(response: Outcome<seq<Employee>>)
      modifies this
      ensures calls == old(calls) + [ListEmployees]
      ensures response.Ok? ==> employees == response.value && error == old(error)
      ensures response.Err? ==> employees == old(employees) && error == LoadFailedMessage
      ensures draft == old(draft) && loading == old(loading) && success == old(success)
      ensures notified == old(notified)
    {
      calls := calls + [ListEmployees];
      match response {
        case Ok(data) =>
          employees := data;
        case Err(_) =>
          error := LoadFailedMessage;
      }
    }

    /** An input changed: only its field of the draft changes. */
    method HandleChange(change: Change)
      modifies this
      ensures draft == ApplyChange(old(draft), change)
      ensures employees == old(employees) && loading == old(loading)
      ensures error == old(error) && success == old(success)
      ensures calls == old(calls) && notified == old(notified)
    {
      draft := ApplyChange(draft, change);
    }

    /**
     * Submit: both messages are cleared. With no employee chosen the form shows a fixed error
     * and never calls `mark`. Otherwise `mark` is called with the draft; a success shows the
     * message and passes the employee id to the parent, a failure shows the thrown message.
     * The draft is kept on every path, and loading ends false on every path.
     */
    method HandleSubmit(response: Outcome<string>)
      modifies this
      ensures !loading && draft == old(draft) && employees == old(employees)
      ensures old(draft).employeeId == "" ==>
                && error == NoEmployeeMessage && success == ""
                && calls == old(calls) && notified == old(notified)
      ensures old(draft).employeeId != "" ==> calls == old(calls) + [PostAttendance(old(draft))]
      ensures old(draft).employeeId != "" && response.Ok? ==>
                && success == response.value && error == ""
                && notified == old(notified) + (if hasParent then [old(draft).employeeId] else [])
      ensures old(draft).employeeId != "" && response.Err? ==>
                && error == response.message && success == ""
                && notified == old(notified)
    {
      error := "";
      success := "";
      loading := true;
      if draft.employeeId == "" {
        error := NoEmployeeMessage;
        loading := false;
        return;
      }
      calls := calls + [PostAttendance(draft)];
      match response {
        case Ok(message) =>
          success := message;
          if hasParent {
            notified := notified + [draft.employeeId];
          }
        case Err(message) =>
          error := message;
      }
      loading := false;
    }
  }
}
