/** What a route handler answers: a success message or an HTTP error with its detail text. */
module Responses {
  import opened Models

  /** The error responses the route handlers raise themselves. */
  datatype Failure =
    | DuplicateEmployeeId(employeeId: string)
    | DuplicateEmail(email: string)
    | EmployeeNotFound(employeeId: string)
    | InvalidStatus

  datatype Result<+T> = Ok(value: T) | Err(failure: Failure)

  /** Whether mark-attendance changed an existing record or added a new one. */
  datatype Action = Created | Updated

  /** The success messages of the writing routes, with the facts they report. */
  datatype Message =
    | EmployeeCreated(employeeId: string)
    | EmployeeDeleted(employeeId: string)
    | AttendanceMarked(action: Action, employeeId: string, date: Date, status: string)

  /** The HTTP status code of an error: not-found is 404, every rejected input is 400. */
  function StatusCode(f: Failure): (code: int)
    ensures code == 404 <==> f.EmployeeNotFound?
    ensures code == 400 <==> !f.EmployeeNotFound?
  {
    match f
    case EmployeeNotFound(_) => 404
    case _ => 400
  }

  /** The `detail` text of an error response. */
  function DetailText(f: Failure): (text: string)
    ensures text != []
  {
    match f
    case DuplicateEmployeeId(id) => "Employee ID '" + id + "' already exists"
    case DuplicateEmail(email) => "Email '" + email + "' already exists"
    case EmployeeNotFound(id) => "Employee with ID '" + id + "' not found"
    case InvalidStatus => "Status must be either 'Present' or 'Absent'"
  }

  /** The `message` text of a success response. */
  function MessageText(m: Message): (text: string)
    ensures text != []
  {
    match m
    case EmployeeCreated(_) => "Employee created successfully"
    case EmployeeDeleted(id) => "Employee '" + id + "' and all associated records deleted successfully"
    case AttendanceMarked(Updated, _, date, _) => "Attendance updated successfully for " + DateText(date)
    case AttendanceMarked(Created, _, date, _) => "Attendance marked successfully for " + DateText(date)
  }

  function DigitChar(d: nat): char
    requires d < 10
  {
    "0123456789"[d]
  }

  function DigitsText(n: nat): string
    decreases n
  {
    if n < 10 then [DigitChar(n)] else DigitsText(n / 10) + [DigitChar(n % 10)]
  }

  /** A date written out in messages, here as its signed day number. */
  function DateText(d: Date): string
  {
    if d < 0 then "-" + DigitsText(-d) else DigitsText(d)
  }
}
