/**
 * What the components see of the API gateway: the calls they can make and the outcome of an
 * awaited call, which either delivers the response payload or throws a message.
 */
module Gateway {
  import opened Models

  /** The result of one awaited gateway call. */
  datatype Outcome<+T> = Ok(value: T) | Err(message: string)

  /** A gateway call, with its arguments, as a test double would record it. */
  datatype ApiCall =
    | ListEmployees
    | FetchEmployee(employeeId: string)
    | PostEmployee(employee: NewEmployee)
    | RemoveEmployee(employeeId: string)
    | PostAttendance(request: AttendanceRequest)
    | GetHistory(employeeId: string)
    | ListAttendance

  /** The message a call throws when the error response carries no usable `detail`. */
  function FallbackMessage(call: ApiCall): (m: string)
    ensures m != []
  {
    match call
    case ListEmployees => "Failed to fetch employees"
    case FetchEmployee(_) => "Failed to fetch employee"
    case PostEmployee(_) => "Failed to create employee"
    case RemoveEmployee(_) => "Failed to delete employee"
    case PostAttendance(_) => "Failed to mark attendance"
    case GetHistory(_) => "Failed to fetch attendance"
    case ListAttendance => "Failed to fetch attendance records"
  }

  /**
   * A response's `detail`: the text the routes raise, or the list of validation errors (here
   * only their number) that a 422 response from the schema layer carries.
   */
  datatype Detail = Text(text: string) | Errors(count: nat)

  /**
   * What a failed call throws as written: `detail || fallback`. A list is truthy in JavaScript,
   * whatever its length, so a validation list is thrown as it is.
   */
  function ThrownValue(call: ApiCall, detail: Option<Detail>): (v: Detail)
    ensures detail.Some? && detail.value.Errors? ==> v == detail.value
    ensures detail.Some? && detail.value.Text? && detail.value.text != [] ==> v == detail.value
    ensures detail.None? || detail.value == Text([]) ==> v == Text(FallbackMessage(call))
  {
    match detail
    case Some(Errors(_)) => detail.value
    case Some(Text(t)) => if t != [] then detail.value else Text(FallbackMessage(call))
    case None => Text(FallbackMessage(call))
  }

  /**
   * A rejected registration (say, an email without a period in its domain) throws a list of
   * error objects, not a text, and the form then renders that list as its error.
   */
  lemma ValidationListIsThrown(employee: NewEmployee)
    ensures !ThrownValue(PostEmployee(employee), Some(Errors(1))).Text?
  {
  }

  /**
   * The message a failed call throws: the response's `detail` when it is a non-empty text
   * (an empty string is falsy), and the call's fallback otherwise, a validation list included.
   * Never empty.
   */
  function ThrownMessage(call: ApiCall, detail: Option<Detail>): (m: string)
    ensures m != []
    ensures detail.Some? && detail.value.Text? && detail.value.text != [] ==> m == detail.value.text
    ensures detail.None? || !detail.value.Text? || detail.value.text == [] ==> m == FallbackMessage(call)
  {
    if detail.Some? && detail.value.Text? && detail.value.text != [] then detail.value.text
    else FallbackMessage(call)
  }

  /** The message agrees with the value thrown as written exactly when the detail is no list. */
  lemma ThrownMessageFixesLists(call: ApiCall, detail: Option<Detail>)
    ensures ThrownValue(call, detail) == Text(ThrownMessage(call, detail))
            <==> !(detail.Some? && detail.value.Errors?)
  {
  }
}
