# HRMS Lite: employee and attendance store, and its four screens

HRMS Lite keeps two tables. The employees table has a business `employee_id`, a full name, an email and a department. The attendance table holds one Present/Absent status per employee and day. A small HTTP service writes and reads these tables, and four React components drive the service through an API gateway.

The model has two halves.

**Backend.** The database is a class `Store.Database`:
- its fields are the two tables, as sequences in row order, and the attendance table's autoincrement counter;
- its `Valid()` invariant is the integrity the store keeps: unique business ids, unique emails, at most one attendance row per employee and day, every attendance row naming an existing employee, distinct employee keys, and distinct attendance keys below the counter.

The writing routes are methods on that database. Each one preserves `Valid()` and states its new state exactly against the old one:
- create employee;
- delete employee, which also deletes that employee's attendance rows;
- mark attendance, which updates the row for that day if one exists and appends one otherwise.

The reading routes are functions over the tables:
- one employee;
- one employee's history, newest first;
- every record joined with its employee's name.

The lemmas prove that:
- a successful create can be read back;
- after a delete both the employee and the history answer 404, the history rather than an empty list (`EmployeeRoutes.DeleteEmployee`);
- the newest-first history is a permutation of the employee's rows, and the only such ordering;
- the join neither drops nor invents rows.

**Frontend.** Each component is a class whose fields are its React state. Each handler is a method:
- an awaited gateway call becomes a parameter, the `Outcome` the call resolves to;
- every call made is appended to a `calls` log, so "exactly one request" and "no request" can be stated;
- the `window.confirm` answer is a boolean parameter.

Effects that depend on a prop or on state run only when the value really changes (React skips a state update that sets the same value). The models of those effects say so: an unchanged value leaves the whole object unchanged.

## Model

| member | source | states |
|---|---|---|
| Models.ParseStatus | backend/app/routes/attendance.py:29-33 | A status text is accepted exactly when it is "Present" or "Absent", and the accepted status has that text as its name |
| Models.StatusRoundTrip | backend/app/models.py:7-9 | Each status's stored name parses back to that same status, and the enumeration has exactly two distinct members |
| Responses.StatusCode | backend/app/routes/attendance.py:29-44 | An unknown employee is answered with 404, and every other rejected input with 400 |
| Responses.DetailText | backend/app/routes/employees.py:31-46 | Every error response carries a non-empty detail text |
| Responses.MessageText | backend/app/routes/attendance.py:54-88 | Every success response carries a non-empty message |
| Store.IndexOfEmployee | backend/app/routes/employees.py:27-29 | The lookup finds a row exactly when one has the business id, and returns the first such row |
| Store.FindEmployee | backend/app/routes/employees.py:101-103 | The lookup returns a row exactly when one has the business id, and that row is the first with it |
| Store.FindEmail | backend/app/routes/employees.py:38-40 | The email lookup finds a row exactly when some row has that email, and that row has it |
| Store.IndexOfRecord | backend/app/routes/attendance.py:47-52 | The lookup finds a row exactly when one exists for that employee and date, and the row found has both |
| Store.RecordsOfMembers | backend/app/routes/attendance.py:118-120 | The filter keeps exactly the table's rows for the employee |
| Store.RecordsNotOfMembers | backend/app/routes/employees.py:132-134 | The cascade keeps exactly the rows of every other employee |
| Store.RecordsPartition | backend/app/routes/employees.py:132-134 | One employee's rows plus everyone else's rows are exactly the table, as a multiset |
| Store.OneRecordPerDayIsNotImplied | backend/app/models.py:30-33 | The schema declares no (employee_id, date) constraint, so a table can meet every other invariant and still hold two rows for one employee on one day |
| Store.NextEmployeeKey | backend/app/models.py:15 | A new employee row's key is one more than the largest key present (1 in an empty table): above every key present, and not skipping past the largest |
| Store.Database.constructor | backend/app/models.py:12-33 | An empty database meets every integrity invariant, with the attendance counter at 1 |
| EmployeeRoutes.InsertKeepsConsistent | backend/app/routes/employees.py:27-57 | Appending an employee whose id and email are both new, under one more than the largest key present, keeps every invariant |
| EmployeeRoutes.CreateEmployee | backend/app/routes/employees.py:17-63 | A taken id is rejected first, and then a taken email; each rejection is a 400 and leaves the database unchanged. Otherwise exactly one row is appended, keyed one above the largest key present, and that row is what a lookup of the id then returns |
| EmployeeRoutes.NewestKeyIsReused | backend/app/models.py:15 | When a new employee is created and then deleted, the row removed is the one a lookup of its id finds (the last and only row with that id), and the next create gets that employee's key again |
| EmployeeRoutes.GetEmployee | backend/app/routes/employees.py:97-111 | Answers a row exactly when the id exists, and 404 with that id otherwise. Under unique ids it is the only row with that id |
| EmployeeRoutes.UniqueLookup | backend/app/models.py:16 | Under unique ids, looking up any row's id returns that row |
| EmployeeRoutes.CascadeKeepsConsistent | backend/app/routes/employees.py:131-138 | Removing an employee row together with that employee's attendance rows keeps every invariant |
| EmployeeRoutes.RemoveRowKeepsUnique | backend/app/routes/employees.py:137 | Removing one employee row keeps ids, emails and keys unique |
| EmployeeRoutes.CascadeKeepsReferences | backend/app/routes/employees.py:132-137 | After the cascade, every remaining attendance row still names an existing employee |
| EmployeeRoutes.RecordsNotOfInOrder | backend/app/routes/employees.py:132-134 | Any two rows the cascade keeps sit in the table in the same relative order |
| EmployeeRoutes.RecordsNotOfKeepsOneRecordPerDay | backend/app/routes/employees.py:132-134 | The cascade keeps at most one row per employee and day |
| EmployeeRoutes.RecordsNotOfKeepsKeys | backend/app/routes/employees.py:132-134 | The cascade keeps attendance keys distinct and below the counter |
| EmployeeRoutes.DeleteEmployee | backend/app/routes/employees.py:115-142 | An unknown id is a 404 and changes nothing. Otherwise exactly that employee's row and all of its attendance rows are removed, and nothing else. Afterwards both the employee lookup and the history answer 404 |
| AttendanceRoutes.InsertNewestFirst | backend/app/routes/attendance.py:120 | Inserting into a newest-first sequence keeps it newest first and adds exactly that row |
| AttendanceRoutes.SortNewestFirst | backend/app/routes/attendance.py:120 | The result is ordered by date, newest first, and is a permutation of the input |
| AttendanceRoutes.NewestFirstUnique | backend/app/routes/attendance.py:118-120 | With at most one row per date, two newest-first orderings of the same rows are identical |
| AttendanceRoutes.OneEmployeeOnePerDate | backend/app/routes/attendance.py:47-88 | Under the one-row-per-day invariant, one employee's rows have pairwise distinct dates |
| AttendanceRoutes.UpdateKeepsConsistent | backend/app/routes/attendance.py:54-57 | Changing the status of an existing row keeps every invariant |
| AttendanceRoutes.AppendKeepsConsistent | backend/app/routes/attendance.py:68-77 | Appending a row for an existing employee and a day that has no row yet, under the attendance counter, keeps every invariant once the counter advances |
| AttendanceRoutes.MarkAttendance | backend/app/routes/attendance.py:18-88 | A bad status is rejected first (400) and an unknown employee next (404); both leave the database unchanged. If the day already has a row, only that row's status changes (Updated). Otherwise one row is appended under the attendance counter, which then advances (Created) |
| AttendanceRoutes.GetEmployeeAttendance | backend/app/routes/attendance.py:101-122 | 404 exactly when the employee does not exist. Otherwise the history is newest first and is a permutation of that employee's rows |
| AttendanceRoutes.EmployeeAttendanceDetermined | backend/app/routes/attendance.py:118-120 | Under the invariant, any newest-first permutation of the employee's rows is exactly what the route returns, so the history is fully determined |
| AttendanceRoutes.JoinEmployees | backend/app/routes/attendance.py:140-148 | The inner join never yields more rows than the attendance table holds |
| AttendanceRoutes.JoinNames | backend/app/routes/attendance.py:140-147 | Every joined row has an employee, and carries the full name of the employee with that id |
| AttendanceRoutes.JoinFrom | backend/app/routes/attendance.py:146-148 | Every joined row is an attendance row of the table, at a position the lemma names |
| AttendanceRoutes.JoinCovers | backend/app/routes/attendance.py:146-148 | Every attendance row whose employee exists appears in the join, at a position the lemma names |
| AttendanceRoutes.JoinKeepsOrder | backend/app/routes/attendance.py:140-148 | Joining newest-first rows keeps them newest first |
| AttendanceRoutes.GetAllAttendance | backend/app/routes/attendance.py:134-162 | The result is newest first. It contains only table rows whose employee exists, and every such row appears in it. Each row carries the full name of its employee |
| AttendanceRoutes.JoinKeepsEveryRecord | backend/app/routes/attendance.py:146-148 | When every row's employee exists, the join has exactly as many rows as the table |
| AttendanceRoutes.AllAttendanceIsComplete | backend/app/routes/attendance.py:140-162 | Under the reference invariant, listing all attendance drops no row |
| Gateway.FallbackMessage | frontend/src/services/api.js:16-86 | Each gateway call has a non-empty fallback error text |
| Gateway.ThrownValue | frontend/src/services/api.js:36-43 | As written, a failed call throws the response's detail when it is a list or a non-empty text, and the call's fallback otherwise |
| Gateway.ValidationListIsThrown | frontend/src/services/api.js:41 | A registration rejected by the schema layer throws a list, not a text |
| Gateway.ThrownMessage | frontend/src/services/api.js:20-22 | A failed call throws the response's detail when it is a non-empty text, and the call's fallback otherwise, for a validation list too. The thrown text is never empty |
| Gateway.ThrownMessageFixesLists | frontend/src/services/api.js:36-43 | The thrown message agrees with the value thrown as written exactly when the detail is not a list |
| EmployeeRegistration.WithField | frontend/src/components/EmployeeForm.js:16-22 | An input change sets the named field and leaves the other three unchanged |
| EmployeeRegistration.EmptyDraftIsBlank | frontend/src/components/EmployeeForm.js:5-10 | Every field of the initial draft is empty |
| EmployeeRegistration.EmployeeForm.constructor | frontend/src/components/EmployeeForm.js:5-14 | The form starts with a blank draft, no messages, not loading and no calls made |
| EmployeeRegistration.EmployeeForm.HandleChange | frontend/src/components/EmployeeForm.js:16-22 | Only the draft changes, by exactly the one field |
| EmployeeRegistration.EmployeeForm.HandleSubmit | frontend/src/components/EmployeeForm.js:24-54 | `create` is called exactly once with the draft as it was. On success the message is shown, the draft is reset and the parent is notified once if present. On failure the thrown text is shown and the draft is kept. Loading ends false either way |
| EmployeeDirectory.EmployeeList.constructor | frontend/src/components/EmployeeList.js:4-8 | The list starts empty and loading, with the parent's refresh signal recorded |
| EmployeeDirectory.EmployeeList.FetchEmployees | frontend/src/components/EmployeeList.js:14-25 | Exactly one list call is made. Success replaces the list and clears the error; failure shows the thrown text and keeps the old list. Loading ends false |
| EmployeeDirectory.EmployeeList.RefreshTriggerChanged | frontend/src/components/EmployeeList.js:10-12 | An equal refresh signal changes nothing; a different one causes exactly one fetch |
| EmployeeDirectory.EmployeeList.HandleDelete | frontend/src/components/EmployeeList.js:27-44 | A declined confirmation changes nothing and makes no call. On success there is one delete call, the message is shown, and one refetch follows. On failure there is one delete call, the thrown text is shown, and the list is left as it was |
| AttendanceMarking.ApplyChange | frontend/src/components/AttendanceForm.js:29-35 | An input change sets its own field of the draft and leaves the other two unchanged |
| AttendanceMarking.AttendanceForm.constructor | frontend/src/components/AttendanceForm.js:5-14 | The draft starts with no employee, today's date and "Present"; there are no messages and no calls |
| AttendanceMarking.AttendanceForm.FetchEmployees | frontend/src/components/AttendanceForm.js:16-27 | Exactly one list call is made. Success fills the selector; failure shows the fixed load-failure text and keeps the selector |
| AttendanceMarking.AttendanceForm.HandleChange | frontend/src/components/AttendanceForm.js:29-35 | Only the draft changes, by exactly the one field |
| AttendanceMarking.AttendanceForm.HandleSubmit | frontend/src/components/AttendanceForm.js:37-65 | With no employee chosen: the fixed error, no call and no notification. Otherwise `mark` is called exactly once with the draft. Success shows the message and passes the employee id to the parent if present; failure shows the thrown text. The draft is kept and loading ends false on every path |
| AttendanceRecords.CountStatus | frontend/src/components/AttendanceView.js:149 | The count is the number of rows whose status is exactly that text |
| AttendanceRecords.CountsPartition | frontend/src/components/AttendanceView.js:147-154 | For two distinct statuses, the two counts never exceed the row count. They add up to it exactly when every row carries one of the two |
| AttendanceRecords.Summarize | frontend/src/components/AttendanceView.js:145-156 | The summary gives the row count and the Present and Absent counts. Present plus Absent equals the total exactly when no row has another status |
| AttendanceRecords.AttendanceView.constructor | frontend/src/components/AttendanceView.js:5-9 | The selection starts as the passed id, or empty if none was passed. No rows, no error and no calls |
| AttendanceRecords.AttendanceView.FetchAttendance | frontend/src/components/AttendanceView.js:38-50 | Exactly one history call, for that employee. Success replaces the rows and clears the error; failure shows the thrown text and empties the rows. Loading ends false |
| AttendanceRecords.AttendanceView.SelectEmployee | frontend/src/components/AttendanceView.js:21-27 | Re-selecting the current employee changes nothing. Selecting "none" clears the rows with no call. Selecting another employee fetches exactly that employee's history, once |
| AttendanceRecords.AttendanceView.ExternalSelectionChanged | frontend/src/components/AttendanceView.js:15-19 | An unchanged prop changes nothing, and an empty prop leaves the selection alone. A new non-empty prop becomes the selection. If that equals the current selection, nothing else changes, loading included; otherwise exactly one fetch follows |
| AttendanceRecords.AttendanceView.Mount | frontend/src/components/AttendanceView.js:11-36 | Mounting makes one list call, then one history call if an employee is preselected. The history's failure text wins over the list's fixed failure text |
| AttendanceRecords.AttendanceView.Render | frontend/src/components/AttendanceView.js:56-159 | The screens are mutually exclusive: a prompt with no selection, a spinner while loading, an empty state with no rows, otherwise the table. The details shown are the first employee with the selected id, and the table's summary is the summary of its rows |
| Integration.ToRows | backend/app/routes/attendance.py:118-122 | Each served row corresponds position by position to a table row, with the status sent by its name |
| Integration.HistoryOutcome | frontend/src/services/api.js:69-76 | For an id that reaches the route unchanged, the view's history request fails exactly when the employee does not exist, with the server's not-found text. Otherwise it delivers exactly the served form of a newest-first permutation of that employee's records: one row per record, each for that employee, dates never increasing, every status "Present" or "Absent" |
| Integration.HistoryRowsAreTheEmployees | backend/app/routes/attendance.py:118-120 | Every row of a permutation of one employee's records belongs to that employee |
| Integration.ServedHistoryAddsUp | frontend/src/components/AttendanceView.js:145-156 | For an existing employee, the summary of what the view receives adds up: Present plus Absent equals the total, which is that employee's record count |
| Integration.ServedSummaryAddsUp | frontend/src/components/AttendanceView.js:145-156 | For rows served by the backend, Present plus Absent always equals the total |

## Left out

- `get_all_employees` (backend/app/routes/employees.py:82-93) returns the employees table unchanged, in row order. The model uses `db.employees` directly and has no separate member for it.
- The 500 paths and the `IntegrityError` handler are left out. These are a failing session, a failing commit or a race between two writers. Under `Store.Database.Valid()` the duplicate checks already reject every integrity violation, and each successful route is modelled as one atomic commit.
- Request validation by the schema layer is left out: missing fields, `EmailStr`, ISO date parsing and their 422 responses. The model takes every request as already well-formed, with a text status. A 422 `detail` is a list of error objects, not a text; the gateway throws that list as it is, and the `Outcome.Err(message: string)` of the components does not describe this path (see "## Findings").
- `Models.Date` is a day number. `Responses.DateText` writes it as a signed decimal, not as ISO `YYYY-MM-DD` text.
- The date input's `max` and the `today` default come from the browser clock, which is a parameter here.
- The weekday column is left out. It depends on the time zone and the locale: the date text is read as midnight UTC, so west of UTC the view shows the day before (frontend/src/components/AttendanceView.js:128-129).
- Only the attendance table is declared with `sqlite_autoincrement` (backend/app/models.py:31-33), so only its keys come from a counter that never reuses a key. The employees table has a plain integer key, and `Store.NextEmployeeKey` hands out one more than the largest key present. The rare random key SQLite picks once the largest key reaches the 64-bit maximum is left out.
- SQL `ORDER BY date DESC` fixes no order for equal dates. `AttendanceRoutes.SortNewestFirst` is one stable ordering. Within one employee's history the dates are distinct, so the order is fully determined (`AttendanceRoutes.EmployeeAttendanceDetermined`). Across employees in `GetAllAttendance`, only the descending-date property is stated.
- `AttendanceRoutes.JoinEmployees` gives each record the name of the first employee with its id. Under unique ids this is the only match, as in the SQL inner join.
- Concurrency is left out. Each handler runs from its start to the resolution of its awaited calls with nothing in between, and the server handles one request at a time. `mark_attendance` checks for a row and then inserts, and no schema constraint backs that check (backend/app/routes/attendance.py:47-76). So the one-row-per-day part of `Store.Database.Valid()` holds only for requests handled one at a time: two concurrent marks for one employee and day can both insert, with no `IntegrityError`. The one exception is `AttendanceRecords.AttendanceView.Mount`, which fixes one order: both requests start, then the list answers, then the history. `EmployeeDirectory.EmployeeList.HandleDelete` does not await its refetch; the model lets it resolve before the handler ends.
- The three-second timers that clear the success messages are left out.
- The confirmation prompt's text and the JSX markup are left out, beyond which screen is shown.
- App.js is not part of this model. It only wires the components: the refresh counter and the selected-id prop, which are parameters here. Also not modelled: StrictMode double effects, database.py, main.py (CORS, router mounting) and schemas.py.
- `Integration.HistoryOutcome` takes the employee id to reach the history route unchanged. The gateway puts the id into the path without encoding it (frontend/src/services/api.js:71), and the schema accepts any text as an id. Some of them are routed differently, for example an id containing '/', '\', '?', '#' or '%', tabs or newlines, or leading or trailing spaces, and the ids "", "." and "..". They go to no route (404 "Not Found"), to a shorter, trimmed or decoded id, or to the full listing. URL parsing and routing are not modelled, so the contract does not describe the source for those ids.
- `Gateway.FetchEmployee` (`getById`) and `Gateway.ListAttendance` (`getAll` for attendance) are listed as calls, but no component makes them.

## Findings

| source | as written | input that shows it | evidently intended | confidence | as-written member | corrected member |
|---|---|---|---|---|---|---|
| frontend/src/services/api.js:41 | `throw detail \|\| fallback` throws a 422's `detail`, a list of error objects; frontend/src/components/EmployeeForm.js:50 stores it as the error and line 60 renders it, which React refuses for plain objects, and with no error boundary the page goes blank | the email "john@company": the browser's email check accepts it, `EmailStr` (backend/app/schemas.py:12) rejects it | the form shows a text message | high; not executed | Gateway.ThrownValue, Gateway.ValidationListIsThrown | Gateway.ThrownMessage, Gateway.ThrownMessageFixesLists |
