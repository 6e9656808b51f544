# Visitor registry of the Visitor Management System

The web application keeps a `visitors` table: one row per visitor, keyed by
an auto-generated `visitor_id`, with a two-state lifecycle (INSIDE, EXITED).
Front-desk staff register visitors, check them in and check them out; the
dashboard and the reports page list and count rows. This project models that
registry and proves what its handlers promise.

- `wrappers.dfy`: `Option` (nullable columns, absent form fields) and `Result`.
- `time.dfy`: DATETIME values as a calendar date plus the second of the day,
  their order (NULL lowest, as MySQL sorts), `DATE(...)`, `YEAR(...)`/`MONTH(...)`.
- `visitors.dfy`: the row, the registration form, the flashed outcomes, and
  the input checks: all five registration fields filled, the contact rule
  (`isdigit()` and at least ten characters), and the login form's
  empty-field guard.
- `lifecycle.dfy`: the table and its AUTO_INCREMENT counter as a value
  (`Store`), registration, check-in and check-out as functions from the old
  table to the new table and an outcome, and the invariant kept by every
  sequence of requests starting from an empty table. `Replay` runs such a
  sequence.
- `desk.dfy`: class `VisitorDesk` holds the table (`map<int, Visitor>`) and
  the counter as fields. Its methods update them in place, as the handlers'
  INSERT and single-row UPDATE do. Each method is tied to the matching
  `Lifecycle` function and states its new table directly. `Dashboard` and
  `Report` read the table.
- `queries.dfy`: the dashboard's and the reports' SELECTs as functions over
  a sequence of rows: WHERE as `Select`, `ORDER BY ... DESC` as
  `SortDescending` (an insertion sort proved to return a descending
  permutation), `COUNT(*)`, and `LIMIT 10`.

The current time, today's date, and the report's date and month are
parameters. The handlers do not read a clock.

One might expect check_out_time to be set exactly when the status is
EXITED, and a visitor never to go back from EXITED to INSIDE. The code does
neither: check-in of an
EXITED visitor sets INSIDE again and keeps the earlier check_out_time
(app.py:225-233). The model follows the code, and
`Lifecycle.ReCheckInKeepsCheckOutTime` shows the resulting state. The
invariant that does hold on every reachable table is `Lifecycle.Coherent`:
only INSIDE and EXITED occur, every row has a check-in time, and every
EXITED row has a check-out time. Under it, the "check in first" branch of
check-out is unreachable. The class `VisitorDesk` keeps this invariant as
part of `Valid()`, so its `CheckOut` never reports "check in first".

## Model

| member | source | states |
|---|---|---|
| `Visitors.ValidateRegistration` | app.py:163-171 | Rejects with "fill all fields" exactly when one of the five fields is absent or empty. Rejects with "invalid contact" exactly when all are filled but the contact fails the contact rule. On acceptance it returns exactly the submitted values, all non-empty, with a valid contact. |
| `Visitors.ContactRule` | app.py:169-171 | A contact passes exactly when it has at least ten characters and every character is a digit. There is no upper bound on the length. |
| `Visitors.CheckLoginFields` | app.py:95-98 | The login form is refused with "enter both" exactly when the username or the password is absent or empty. Otherwise both values are passed on unchanged. |
| `Lifecycle.Register` | app.py:156-190 | Succeeds exactly when validation does. A rejection leaves the table and the counter unchanged and reports validation's error. A success uses an id not in the table and adds exactly that key, with every existing row unchanged. It preserves key consistency and the lifecycle invariant. |
| `Lifecycle.RegisterInsertsSubmittedRecord` | app.py:178-185 | The new row gets id = the counter. It holds the five submitted fields, status INSIDE, check-in time and created_at = now, and no check-out time. The table grows by exactly one row and the counter advances by one. A rejected registration changes nothing. |
| `Lifecycle.CheckIn` | app.py:206-240 | An empty or absent visitor_id reports "enter visitor ID" and changes nothing. It keeps the counter and the set of ids. It never touches a row other than the target. The table changes exactly when the outcome is a success. It preserves key consistency and the lifecycle invariant. |
| `Lifecycle.CheckInDecision` | app.py:223-237 | An unknown id reports not-found and changes nothing. A visitor INSIDE with a check-in time gets the warning and nothing changes. Any other visitor gets check_in_time = now and status INSIDE, and every other field is kept, including an earlier check_out_time. |
| `Lifecycle.CheckOut` | app.py:254-290 | An empty or absent visitor_id reports "enter visitor ID" and changes nothing. It keeps the counter and the set of ids. It never touches a row other than the target. The table changes exactly when the outcome is a success. It preserves the lifecycle invariant. On a coherent table it never reports "check in first". |
| `Lifecycle.CheckOutDecision` | app.py:271-287 | An unknown id reports not-found and changes nothing. EXITED gives the warning and changes nothing. INSIDE gives success with check_out_time = now and status EXITED, and every other field is kept. Any other status gives "check in first" and changes nothing. |
| `Lifecycle.ReplayIsCoherent` | app.py:178-285 | Every table reached from an empty one by registrations, check-ins and check-outs is coherent. Its ids are exactly 1..counter-1, each row carries its own id, the only statuses are INSIDE and EXITED, every row has a check-in time, and every EXITED row has a check-out time. |
| `Lifecycle.CheckInFirstIsUnreachable` | app.py:284-285 | On any table reachable from an empty one, check-out never reports "check in first". |
| `Lifecycle.CheckInOfInsideVisitorWarns` | app.py:225-226 | On a reachable table, check-in of a visitor whose status is INSIDE always gives the warning and changes nothing. |
| `Lifecycle.ReCheckInKeepsCheckOutTime` | app.py:229-233 | Register, check out, then check in again: the row is INSIDE with the new check-in time and still holds the old check-out time. |
| `Lifecycle.Rows` | app.py:333-334 | Reading the whole table yields every row exactly once and nothing else. |
| `Queries.SortDescending` | app.py:317-318 | `ORDER BY ... DESC` returns a permutation of its input (same multiset, same length), with no row's key later than that of a row before it. NULL keys come last. |
| `Queries.Select` | app.py:368-371 | A WHERE condition keeps every matching row as often as it occurs and drops every other row. |
| `Queries.CountCheckedInOn` | app.py:323-329 | total_today equals the number of rows whose check-in date is the given day. A NULL check-in time never counts. |
| `Queries.VisitorsInside` | app.py:316-320 | The "inside" list holds exactly the INSIDE rows, with their multiplicities, latest check-in first. |
| `Queries.Recent` | app.py:332-336 | The recent list has min(10, table size) rows, all taken from the table, newest created first. |
| `Queries.RecentAreNewest` | app.py:332-336 | No row left out of the recent list was created after any row shown in it. |
| `Queries.Report` | app.py:356-384 | The type defaults to daily, the date to today and the month to today's year and month. The daily report holds exactly the rows checked in on the date, and the monthly report exactly those checked in that year and month, each latest check-in first. Any other type gives an empty list. |
| `Desk.VisitorDesk.Register` | app.py:156-190 | The in-place insert matches `Lifecycle.Register`. On success the returned id was unused and equals the old counter, only that key is added, the counter advances, and the new row is INSIDE and checked in now. Otherwise table and counter are unchanged. Key consistency and the lifecycle invariant are kept. |
| `Desk.VisitorDesk.CheckIn` | app.py:206-240 | The in-place update matches `Lifecycle.CheckIn`. On success only the target row changes, with check_in_time = now and status INSIDE. Otherwise the table is unchanged. |
| `Desk.VisitorDesk.CheckOut` | app.py:254-290 | The in-place update matches `Lifecycle.CheckOut`. On success the target was INSIDE and only it changes, with check_out_time = now and status EXITED. Otherwise the table is unchanged. Since the lifecycle invariant is part of the class invariant, "check in first" is never reported. |
| `Desk.VisitorDesk.Dashboard` | app.py:307-344 | The inside list holds each INSIDE row of the table once, latest check-in first. total_today counts the table's rows checked in today. The recent list is the ten newest rows. |
| `Desk.VisitorDesk.Report` | app.py:356-393 | The daily or monthly report holds each matching row of the table exactly once, latest check-in first. Any other type gives an empty list. |

## Left out

- Flask routing, `render_template`, `flash`, `redirect`, the session and the `login_required` decorator are web delivery. The flashed messages appear as `Outcome` values.
- A GET of the register, check-in, check-out or login page only renders the form. A POST whose database connection fails (`if conn:` is false) does nothing. The MySQL connection, commits, `init_database` and the `except Error` path of `register` are I/O.
- Password hashing and the credential lookup in `login` are calls into werkzeug and MySQL. Only the empty-field guard is modelled.
- `datetime.now()` and `date.today()` are parameters.
- The visitor_id form field is taken as an already-parsed integer, with `None` for an empty or absent field. How MySQL converts a non-numeric string is not modelled.
- The report's date string and the `split('-')` of its month string are taken as a `Date` and a (year, month) pair. Malformed strings are not modelled.
- Visitors.ValidateRegistration: digits are the ASCII characters '0'..'9'. Python's `str.isdigit()` also accepts other Unicode digits, such as Arabic-Indic ones, which the model rejects.
- Dates are not checked for calendar validity. Any integers form a `Date`, which does not affect the order or the equality tests the queries use.
- created_at is taken to be the insert time (the column's default, whose definition is not in app.py).
- Rows with equal sort keys appear in one fixed order, whereas SQL leaves that order open. The contracts promise only a descending permutation.
- Races between concurrent requests are out of scope. The model handles requests one after another, while the app can interleave them: each request opens its own connection, so the read-then-update of check-in and check-out can interleave with another request on the same row.
- The error handlers and `app.run` are delivery.
- Appointments (booking, approve, reject, convert to a visitor) and the appointment_id column have no code in app.py and are not modelled.
