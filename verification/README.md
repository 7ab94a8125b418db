# HR backend: the decisions of the auth controller, in Dafny

The HrOne backend is an Express/Postgres REST service for user accounts, attendance,
leave, assets, company information and notifications. Almost every handler in
`src/controllers/authController.ts` validates its request, runs one or two SQL
statements and maps the rows to JSON. This project models what the handlers decide
in-process: which status they answer with, which guarded update or insert they make,
and the few values they compute. The tables are modelled as fields of one object
(`Store.HrStore`) with one method per handler. The notification list that the
controller keeps in process memory is a second object (`Notifications.NotificationList`).

Modules:

- `Js`: request fields as JavaScript sees them. A field is `Undefined`, `Null` or `Given(v)`, and the module gives the truthiness of text and numeric fields.
- `Http`: status codes and the `Reply(status, body)` shape.
- `Rows`: `Count` and `Filter` over a table. They stand for the `rowCount` and the rows of a `SELECT ... WHERE`.
- `Attendance`: the overtime flag of `checkAttendance`, with instants as integer milliseconds and NaN as `None`.
- `Resignation`: the last working day, 90 days after the request instant.
- `UserQuery`: the optional ILIKE filters of `getAllUsers`, in the form the handler writes them and in corrected form (see Findings).
- `RowCount`: how `register`, `allotAsset` and `upsertCompanyInfo` each read a possibly-null `rowCount`.
- `Calendar`, `Leave`: leave requests and the 0/1 monthly "leave balance".
- `Assets`: allotments, the at-most-one-open-allotment invariant, and the overdue marking, in written and corrected form (see Findings).
- `Store`: the `HrStore` class. Its invariant `Valid()` says that emails are unique, leave balances are non-negative, each asset has at most one open allotment and each company-info type has at most one entry. Every state-changing handler preserves it.
- `Notifications`: the in-memory list, whose ids are 1..n.
- `Scenarios`: request sequences on a fresh store and the answers they must get.

Parameters stand in for the parts that are outside the model:

- `parse`: `new Date(text).getTime()`.
- `parseDate`: Postgres reading a date text.
- `instant`: the driver turning a DATE into a JavaScript instant.
- `hash`: bcrypt.
- `now`, `today`, `month`, `year`: the clock.

An unparseable punch time is not rejected: `new Date` gives NaN, so the flag is false and the status is 200 (`Attendance.UnparseableStampIsNotAnError`). `getUserAssets` marks as overdue not only the unacknowledged allotments whose return date has passed but also every unacknowledged allotment that has no return date, because `new Date(null)` is the epoch. `Store.HrStore.GetUserAssets` models that behaviour, and `Store.HrStore.GetUserAssetsCorrected` models the corrected marking (see Findings).

## Model

| member | source | states |
|---|---|---|
| `Attendance.Overtime` | src/controllers/authController.ts:164-171 | true exactly when both stamps parse and (out − in) / 3,600,000 > 9.5 in real arithmetic; computed by the integer comparison with 34,200,000 ms |
| `Attendance.CheckAttendance` | src/controllers/authController.ts:153-178 | 400 exactly when `user_id` (0 included), the punch-in or the punch-out text is falsy; otherwise 200 with the overtime flag of the parsed stamps |
| `Attendance.OvertimeBoundaries` | src/controllers/authController.ts:167-171 | exactly 9.5 h is not overtime, 9.5 h + 1 ms is, a negative shift is not, a NaN stamp is not |
| `Attendance.UnparseableStampIsNotAnError` | src/controllers/authController.ts:165-173 | truthy fields with an unparseable stamp give 200 with flag false, not 400 |
| `Resignation.LastWorkingDay` | src/controllers/authController.ts:1317-1321 | the LWD falls exactly 90 days after the request day, at the same time of day; NaN propagates |
| `UserQuery.UserFilterAsWritten` | src/controllers/authController.ts:16-32 | the filter as written: one condition per bound value; the name condition, when name is truthy, is first and uses `$1`; the email condition, when email is truthy, is last and uses `$2` |
| `UserQuery.EmailOnlyFilterIsMisnumbered` | src/controllers/authController.ts:25-28 | an email-only search yields `email ILIKE $2` with a single bound value, which is not a valid numbering |
| `UserQuery.UserFilter` | src/controllers/authController.ts:16-32 | corrected filter: placeholders are exactly $1..$n for the n values; name condition and `%name%` come first when name is truthy, email condition and `%email%` last when email is truthy |
| `UserQuery.FiltersAgreeUnlessEmailOnly` | src/controllers/authController.ts:20-28 | the filter as written and the corrected filter are equal unless only the email is given |
| `RowCount.EmailExists` | src/controllers/authController.ts:77-79 | `rowCount ?? 0 > 0`, read with JavaScript's precedence, is true exactly when `(rowCount ?? 0) > 0`, for null and for every count |
| `RowCount.AssetAllotted` | src/controllers/authController.ts:965 | `rowCount && rowCount > 0` is true exactly when the count is present and positive |
| `RowCount.TypeExists` | src/controllers/authController.ts:679 | the update branch is taken unless the count is known to be zero: a null count updates, only a count of 0 inserts |
| `Leave.MonthlyBalance` | src/controllers/authController.ts:854-876 | the balance is 0 or 1, and it is 0 exactly when the user has a request starting in the given month and year |
| `Leave.MonthlyBalanceAfterInsert` | src/controllers/authController.ts:753-758 | after inserting a request, the balance for a month becomes 0 if the request starts in it, and otherwise is unchanged |
| `Assets.AllotKeepsOneOpen` | src/controllers/authController.ts:960-974 | appending an open allotment keeps at most one open allotment per asset exactly when the asset had none open |
| `Assets.MarkOverdueAsWritten` | src/controllers/authController.ts:1000-1009 | the marking as written: same rows, only the overdue flag may change, and it is set on unacknowledged rows whose return date lies before now, or that have no return date while now is after the epoch |
| `Assets.OpenAllotmentReportedOverdue` | src/controllers/authController.ts:1001-1006 | as written, an unacknowledged allotment with no return date is reported overdue at any time after the epoch |
| `Assets.MarkOverdue` | src/controllers/authController.ts:1000-1009 | corrected marking: same rows, only the overdue flag may change, a stored flag is kept, and the flag is set on exactly the unacknowledged rows whose return date lies before now |
| `Assets.MarkingsAgreeOnReturnedRows` | src/controllers/authController.ts:1000-1009 | the written and corrected markings agree on rows that have a return date |
| `Assets.MarkOverdueIdempotent` | src/controllers/authController.ts:1000-1009 | marking twice is the same as marking once |
| `Assets.MarkOverdueMonotone` | src/controllers/authController.ts:1004-1006 | a row overdue at some time is still overdue at any later time |
| `Store.UsersWithEmail` | src/controllers/authController.ts:74-77 | the `SELECT ... WHERE email = $1` result is non-empty exactly when some user has that email |
| `Store.SetContent` | src/controllers/authController.ts:681-684 | the UPDATE keeps every row and its type; rows of the given type get the new content, the others keep theirs |
| `Store.HrStore.Register` | src/controllers/authController.ts:64-95 | 400 with no insert on a password mismatch or an existing email; 500 when the matching password is not a string; otherwise 201 and exactly one user added under a fresh id with the default balance; emails stay unique |
| `Store.HrStore.GetUserById` | src/controllers/authController.ts:43-61 | 404 exactly when the id is unknown; otherwise 200 with that user's id, name and email |
| `Store.HrStore.CheckLeaveBalance` | src/controllers/authController.ts:220-264 | 400 when `user_id` or `leave_days` is undefined (0 and null pass); 404 for a null or unknown user; 200 exactly when balance ≥ days, with the new balance old − days ≥ 0 both returned and stored for that user only; every failure leaves all balances unchanged |
| `Store.HrStore.ApplyForLeave` | src/controllers/authController.ts:732-768 | 400 exactly when a required field is falsy; 500 exactly when every field is truthy and a date text is refused; otherwise 201 and the request appended; on 400 and 500 nothing changes and no row is returned |
| `Store.HrStore.GetLeaveBalance` | src/controllers/authController.ts:835-881 | 400 exactly when `user_id` is missing; otherwise 200 with 0 or 1, where 0 means the user has a request starting in the current month and year |
| `Store.HrStore.AllotAsset` | src/controllers/authController.ts:955-981 | 400 with no change exactly when the asset has an allotment without a return date; otherwise 201 and exactly one open, unacknowledged allotment appended; each asset keeps at most one open allotment |
| `Store.HrStore.GetUserAssets` | src/controllers/authController.ts:983-1015 | 404 exactly when the user has no allotment; otherwise 200 with the user's allotments marked as the handler does, so an unacknowledged row without a return date is overdue after the epoch |
| `Store.HrStore.GetUserAssetsCorrected` | src/controllers/authController.ts:983-1015 | corrected handler: same 404 case; otherwise 200 with the user's allotments, overdue set on exactly the unacknowledged rows whose return date has passed |
| `Store.HrStore.UpsertCompanyInfo` | src/controllers/authController.ts:663-704 | 400 with no change when type or content is falsy; 200 if the type existed, 201 if not; afterwards exactly one entry of the type, holding the new content, with other types' entries unchanged |
| `Store.HrStore.GetCompanyInfo` | src/controllers/authController.ts:707-728 | 404 exactly when no entry has the type; otherwise 200 with the type's only entry |
| `Notifications.IdsAreOneToN` | src/controllers/authController.ts:1431-1439 | in a list where each id is its position plus one, the ids are exactly 1..n and pairwise distinct |
| `Notifications.NotificationList.Create` | src/controllers/authController.ts:1427-1446 | 201; the new notification gets id = previous length + 1 and is appended, earlier entries unchanged |
| `Notifications.NotificationList.GetAll` | src/controllers/authController.ts:1449-1460 | 404 exactly when the list is empty; otherwise 200 with the whole list |
| `Scenarios.RegisterTwice` | src/controllers/authController.ts:68-90 | registering the same email twice gives 201 then 400 and leaves one user |
| `Scenarios.GrantUntilExhausted` | src/controllers/authController.ts:241-258 | granting a user's whole balance gives 200 with 0; a further day gives 400 |
| `Scenarios.LeaveThisMonth` | src/controllers/authController.ts:866-876 | the monthly balance is 1 before and 0 after a request starting in the month is applied for |
| `Scenarios.AllotTwice` | src/controllers/authController.ts:960-976 | allotting an asset that is still out to another user gives 201 then 400 |
| `Scenarios.FreshAllotmentListedOverdue` | src/controllers/authController.ts:1000-1006 | an asset just allotted and listed at any time after the epoch comes back with overdue true |
| `Scenarios.UpsertTwice` | src/controllers/authController.ts:679-699 | insert then update of a type gives 201 then 200, and reading the type returns the newer content |
| `Scenarios.ThreeNotifications` | src/controllers/authController.ts:1431-1455 | listing an empty store gives 404; three creations get ids 1, 2, 3 |

## Findings

| source | as written | input that shows it | evidently intended | confidence | as-written member | corrected member |
|---|---|---|---|---|---|---|
| src/controllers/authController.ts:25-28 | the email condition always uses placeholder `$2` | `GET /users?email=x` with no name: the query is `... WHERE email ILIKE $2` with one bound value, which Postgres refuses, so the answer is 500 | the placeholder is the position of its value (`$1` here) | high (not executed) | `UserQuery.EmailOnlyFilterIsMisnumbered` | `UserQuery.UserFilter` |
| src/controllers/authController.ts:1001-1006 | `new Date(asset.return_date)` with a NULL return date is the epoch | an unacknowledged allotment that has not been returned (`return_date` NULL, as `allotAsset` creates it) is reported overdue at any current time | only an unacknowledged allotment whose return date has passed is overdue | medium (not executed) | `Assets.OpenAllotmentReportedOverdue` | `Assets.MarkOverdue` |

## Left out

- Concurrency: every handler is modelled as one atomic step run after another. The check-then-act sequences in `register`, `checkLeaveBalance`, `allotAsset` and `upsertCompanyInfo` can interleave in the handlers, and the model makes no claim about that.
- Database failures and their 500 answers with console logging. The only 500s modelled are the ones the inputs alone cause: a non-string password reaching bcrypt, and a date text Postgres refuses.
- Password hashing is the `hash` parameter. `login` and `forgotPassword` are left out, because they consist of a bcrypt comparison and JWT signing, both foreign libraries.
- Date parsing, formatting and time zones are left out. Instants are integer milliseconds, and `month`/`year`/`today` are parameters. The birthday and anniversary checks rest on moment's calendar differences and are left out.
- JavaScript Date's range limit of ±8.64e15 ms is not modelled. A last working day beyond it would be an invalid date.
- SQL text is left out. The WHERE clause of `getAllUsers` is modelled by its conditions and bound values, not its string. ILIKE matching, joins, ordering and `RETURNING` row shapes are left out. The `updated_at` column of company info is left out, as is the column list of the asset join.
- Schema facts that are not visible in the code are assumptions or left out. The users' `leave_balance` default is the constructor's parameter. A new allotment starts unacknowledged and not overdue. Uniqueness is enforced only by the handlers' checks. Foreign keys and NOT NULL constraints are not modelled.
- Store.HrStore.Register: takes the email as a string. An absent email, which would become SQL NULL, is not modelled, because whether the table accepts it depends on the schema.
- Store.HrStore.AllotAsset: takes the user and asset ids as integers. Absent ids are not modelled, for the same reason.
- Request fields are modelled as text or integers. JSON numbers in text fields, strings in numeric fields, fractional `leave_days`, NaN and arrays in query strings are not modelled.
- Store.HrStore.GetLeaveBalance: models the `user_id` query parameter as an integer, with Undefined standing for an absent or empty parameter. A non-numeric parameter, which Postgres would refuse, is not modelled.
- Store.HrStore.CheckLeaveBalance: does not model the 32-bit overflow of the `leave_balance` column, which a very large negative `leave_days` would cause.
- The pass-through insert and list handlers are left out: feed, referrals, employees, core values, wall of fame, tickets, resignations apart from the LWD computation, on-duty, regularization and the status filters. They contain no decision logic. `checkPreviousDayAttendance`, `getLeaveRequests` and `getPeopleOnLeaveToday` are left out for the same reason.
- The route table (src/routes/authRoutes.ts) and the server wiring (src/server.ts) are left out; they are configuration without logic.
