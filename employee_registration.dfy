/** The employee registration form: a four-field draft submitted through the gateway's `create`. */
module EmployeeRegistration {
  import opened Models
  import opened Gateway

  /** The named inputs of the form. */
  datatype Field = EmployeeIdField | FullNameField | EmailField | DepartmentField

  /** The draft the form starts with and returns to after a successful submit. */
  const EmptyDraft: NewEmployee := NewEmployee("", "", "", "")

  function FieldValue(d: NewEmployee, f: Field): string
  {
    match f
    case EmployeeIdField => d.employeeId
    case FullNameField => d.fullName
    case EmailField => d.email
    case DepartmentField => d.department
  }

  /** `{...formData, [name]: value}`: the named field takes the value and no other field changes. */
  function WithField(d: NewEmployee, f: Field, value: string): (r: NewEmployee)
    ensures FieldValue(r, f) == value
    ensures forall g :: g != f ==> FieldValue(r, g) == FieldValue(d, g)
  {
    match f
    case EmployeeIdField => d.(employeeId := value)
    case FullNameField => d.(fullName := value)
    case EmailField => d.(email := value)
    case DepartmentField => d.(department := value)
  }

  /** Every field of the empty draft is the empty string. */
  lemma EmptyDraftIsBlank(f: Field)
    ensures FieldValue(EmptyDraft, f) == ""
  {
  }

  class EmployeeForm {
    var draft: NewEmployee
    var loading: bool
    var error: string
    var success: string
    /** The gateway calls the form has made, oldest first. */
    var calls: seq<ApiCall>
    /** How many times `onEmployeeAdded` has been called. */
    var parentNotified: nat
    /** Whether the parent passed an `onEmployeeAdded` callback. */
    const hasParent: bool

    constructor (hasParent: bool)
      ensures this.hasParent == hasParent
      ensures draft == EmptyDraft && !loading && error == "" && success == ""
      ensures calls == [] && parentNotified == 0
    {
      this.hasParent := hasParent;
      draft := EmptyDraft;
      loading := false;
      error, success := "", "";
      calls := [];
      parentNotified := 0;
    }

    /** An input changed: only that field of the draft changes. */
    method HandleChange(field: Field, value: string)
      modifies this
      ensures draft == WithField(old(draft), field, value)
      ensures loading == old(loading) && error == old(error) && success == old(success)
      ensures calls == old(calls) && parentNotified == old(parentNotified)
    {
      draft := WithField(draft, field, value);
    }

    /**
     * Submit: both messages are cleared and `create` is called with the current draft (there is
     * no client-side check). On success the message is shown, the draft is reset and the parent
     * is told once; on failure the thrown message is shown and the draft is kept. Loading ends
     * false on both paths.
     */
    method HandleSubmit(response: Outcome<string>)
      modifies this
      ensures calls == old(calls) + [PostEmployee(old(draft))]
      ensures !loading
      ensures response.Ok? ==>
                && success == response.value && error == ""
                && draft == EmptyDraft
                && parentNotified == old(parentNotified) + (if hasParent then 1 else 0)
      ensures response.Err? ==>
                && error == response.message && success == ""
                && draft == old(draft)
                && parentNotified == old(parentNotified)
    {
      error := "";
      success := "";
      loading := true;
      calls := calls + [PostEmployee(draft)];
      match response {
        case Ok(message) =>
          success := message;
          draft := EmptyDraft;
          if hasParent {
            parentNotified := parentNotified + 1;
          }
        case Err(message) =>
          error := message;
      }
      loading := false;
    }
  }
}
