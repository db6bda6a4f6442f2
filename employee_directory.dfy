/** The employee list: fetched on mount and on every refresh signal, with confirmed deletes. */
module EmployeeDirectory {
  import opened Models
  import opened Gateway

  class EmployeeList {
    var employees: seq<Employee>
    var loading: bool
    var error: string
    var deleteSuccess: string
    /** The gateway calls the list has made, oldest first. */
    var calls: seq<ApiCall>
    /** The refresh signal the list last saw from its parent. */
    var refreshTrigger: int

    /** The state before the first fetch: empty and loading. */
    constructor (refreshTrigger: int)
      ensures this.refreshTrigger == refreshTrigger
      ensures employees == [] && loading && error == "" && deleteSuccess == "" && calls == []
    {
      this.refreshTrigger := refreshTrigger;
      employees := [];
      loading := true;
      error, deleteSuccess := "", "";
      calls := [];
    }

    /**
     * `fetchEmployees` (also the effect run on mount): the error is cleared; a success replaces
     * the list, a failure shows the message and keeps the previous list; loading ends false.
     */
    method FetchEmployees(response: Outcome<seq<Employee>>)
      modifies this
      ensures calls == old(calls) + [ListEmployees]
      ensures !loading
      ensures response.Ok? ==> employees == response.value && error == ""
      ensures response.Err? ==> employees == old(employees) && error == response.message
      ensures deleteSuccess == old(deleteSuccess) && refreshTrigger == old(refreshTrigger)
    {
      loading := true;
      error := "";
      calls := calls + [ListEmployees];
      match response {
        case Ok(data) =>
          employees := data;
        case Err(message) =>
          error := message;
      }
      loading := false;
    }

    /** The parent passed a refresh signal: a changed value causes exactly one fetch, an equal one none. */
    method RefreshTriggerChanged(trigger: int, response: Outcome<seq<Employee>>)
      modifies this
      ensures trigger == old(refreshTrigger) ==> unchanged(this)
      ensures trigger != old(refreshTrigger) ==>
                && refreshTrigger == trigger
                && calls == old(calls) + [ListEmployees]
                && !loading
                && (response.Ok? ==> employees == response.value && error == "")
                && (response.Err? ==> employees == old(employees) && error == response.message)
                && deleteSuccess == old(deleteSuccess)
    {
      if trigger != refreshTrigger {
        refreshTrigger := trigger;
        FetchEmployees(response);
      }
    }

    /**
     * The delete button: a declined confirmation does nothing at all. Once confirmed, `delete`
     * is called; a success shows its message and fetches the list again, a failure shows the
     * thrown message and leaves the list as it was.
     */
    method HandleDelete(employeeId: string, confirmed: bool, response: Outcome<string>,
                        refetch: Outcome<seq<Employee>>)
      modifies this
      ensures !confirmed ==> unchanged(this)
      ensures confirmed && response.Ok? ==>
                && calls == old(calls) + [RemoveEmployee(employeeId), ListEmployees]
                && deleteSuccess == response.value
                && !loading
                && (refetch.Ok? ==> employees == refetch.value && error == "")
                && (refetch.Err? ==> employees == old(employees) && error == refetch.message)
      ensures confirmed && response.Err? ==>
                && calls == old(calls) + [RemoveEmployee(employeeId)]
                && error == response.message
                && employees == old(employees)
                && deleteSuccess == old(deleteSuccess) && loading == old(loading)
      ensures refreshTrigger == old(refreshTrigger)
    {
      if !confirmed {
        return;
      }
      calls := calls + [RemoveEmployee(employeeId)];
      match response {
        case Ok(message) =>
          deleteSuccess := message;
          FetchEmployees(refetch);
        case Err(message) =>
          error := message;
      }
    }
  }
}
