/** The two tables of the HR store and the request bodies that write them. */
module Models {

  datatype Option<+T> = None | Some(value: T)

  /** The closed attendance status enumeration. */
  datatype Status = Present | Absent

  /** A calendar date, as a day number: a later day is a larger number. */
  type Date = int

  /** The text an attendance status is stored and sent as. */
  function StatusName(s: Status): string
  {
    match s
    case Present => "Present"
    case Absent => "Absent"
  }

  /** Reads a status sent as free text: only the two enumeration names are accepted. */
  function ParseStatus(text: string): (r: Option<Status>)
    ensures r.Some? <==> text == "Present" || text == "Absent"
    ensures r.Some? ==> StatusName(r.value) == text
  {
    if text == "Present" then Some(Present)
    else if text == "Absent" then Some(Absent)
    else None
  }

  /** Every status survives being sent as text and read back, and the two names differ. */
  lemma StatusRoundTrip(s: Status)
    ensures ParseStatus(StatusName(s)) == Some(s)
    ensures s == Present || s == Absent
    ensures StatusName(Present) != StatusName(Absent)
  {
  }

  /** A row of the employees table; `id` is the surrogate primary key. Every column is non-null. */
  datatype Employee = Employee(id: nat, employeeId: string, fullName: string, email: string, department: string)

  /** A row of the attendance table; `id` is the surrogate primary key. Every column is non-null. */
  datatype Attendance = Attendance(id: nat, employeeId: string, date: Date, status: Status)

  /** The body of a create-employee request; the registration form's draft has the same four fields. */
  datatype NewEmployee = NewEmployee(employeeId: string, fullName: string, email: string, department: string)

  /** The body of a mark-attendance request; the status arrives as text and is validated by the route. */
  datatype AttendanceRequest = AttendanceRequest(employeeId: string, date: Date, status: string)
}
