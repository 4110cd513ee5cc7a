# Dayflow HRMS — a verified model of the core

Dayflow HRMS is a small human-resources system. A Node/Express back end
stores a single company, its users (one `ADMIN` and `EMPLOYEE`s), their
profiles, daily attendance, leave requests and monthly payroll in
PostgreSQL. A React front end shows them. This project models, in Dafny:

- the two middlewares in front of every route: the Bearer-token gate that
  attaches `req.user`, and the role allow-list;
- the route handlers for authentication, company setup, employees,
  attendance, leave and payroll, each over an in-memory `Store` that holds
  the six tables as maps keyed by row id;
- the login-id and password generators;
- the front-end session provider, the route guard, the sidebar, the
  searchable employee directory, and the dashboard's and navigation bar's
  role tests.

Handlers that only read are functions. Handlers that write are methods on
the `Store`. Their contracts state the reply and the new tables, and every
write keeps the table constraints the handlers rely on (`Store.Valid`):
row ids below the next fresh id, unique e-mails, exactly one profile per
user, one attendance row per user and day, one payroll row per
user and period, and at most one company.

The server's outside world is passed in as parameters:

- decoded JWT outcomes (`verify`), `bcrypt.compare` and the hash, and `jwt.sign`;
- the clock (`now`, `today`, `year`) and `Math.random`;
- the answers of the HTTP requests the front end makes;
- the step at which a database statement fails (`fault`), where a handler
  runs a transaction.

Conventions:

- Dates are day numbers and timestamps are integers.
- Money is an integer.
- Text comparison is by character code.
- Case mapping is ASCII only.

Files: `common.dfy` (replies, error codes, case mapping, substrings,
filtering), `sorting.dfy` (a sort by a total preorder, used for every
`ORDER BY`), `tables.dfy` (rows, table constraints, the `Store`), and one
file per source file of the core.

`server.js` mounts only the auth, employee and attendance routers. The
company, leave and payroll routers are modelled as route handlers all the
same.

## Model

| member | source | states |
|---|---|---|
| RoleGate.RoleMiddleware | backend/middleware/roleMiddleware.js:1-35 | a response is only ever 401, 403 or 500; otherwise `next` is called |
| RoleGate.IdentityCheckedFirst | backend/middleware/roleMiddleware.js:5-12 | a missing user or empty role gives 401 `MISSING_AUTH` whatever the allow-list, never 403 |
| RoleGate.AdmitIffListed | backend/middleware/roleMiddleware.js:15-24 | an identified request goes on iff its role is in the list, and is otherwise refused with 403 `INSUFFICIENT_PERMISSIONS` |
| RoleGate.CaseSensitive | backend/middleware/roleMiddleware.js:15 | `admin` is refused by `['ADMIN']`: membership is exact equality |
| RoleGate.EmptyListRefusesAll | backend/middleware/roleMiddleware.js:15-22 | an empty allow-list refuses every identified request |
| RoleGate.FaultIsInternalError | backend/middleware/roleMiddleware.js:26-34 | an exception inside the check gives 500 `INTERNAL_ERROR` |
| RoleGate.AdminOnlyRoute | backend/middleware/roleMiddleware.js:15-24 | on an `['ADMIN']` route an `EMPLOYEE` is refused and an `ADMIN` goes on |
| AuthGate.ExtractToken | backend/middleware/authMiddleware.js:6-18 | a token is found iff the header starts with `"Bearer "`, and the header is then exactly `"Bearer "` followed by it |
| AuthGate.TokenRoundTrip | backend/middleware/authMiddleware.js:8-18 | for the header `"Bearer " + t` the extracted token is `t` |
| AuthGate.NoBearerNoVerify | backend/middleware/authMiddleware.js:8-15 | without a Bearer header the outcome is 401 `MISSING_TOKEN`, independent of the verifier, which is never used |
| AuthGate.VerifiesExactlyTheToken | backend/middleware/authMiddleware.js:18-21 | the outcome is the classification of the verifier's answer for exactly the extracted token |
| AuthGate.ErrorClassesDistinct | backend/middleware/authMiddleware.js:33-57 | an expired token gives `TOKEN_EXPIRED`, a malformed one `INVALID_TOKEN`, any other fault 500; none of them proceeds |
| AuthGate.OnlyVerifiedProceeds | backend/middleware/authMiddleware.js:24-30 | the request proceeds iff the token verifies, and then carries exactly the claims' id, e-mail and role |
| AuthGate.AuthMiddleware | backend/middleware/authMiddleware.js:3-59 | `next` is called iff the gate proceeds; then `req.user` is set and nothing is sent, otherwise `req.user` is untouched and the error is sent |
| AuthRoutes.FindByEmail | backend/routes/auth.js:25-28 | the lookup finds a user iff one has the e-mail, and the one it finds has it |
| AuthRoutes.Login | backend/routes/auth.js:10-83 | a failed login is a 400 or a 401 |
| AuthRoutes.MissingCredentialsFirst | backend/routes/auth.js:15-22 | a missing e-mail or password gives 400 `MISSING_CREDENTIALS` whatever the users table holds |
| AuthRoutes.UnknownEmailAndWrongPasswordAlike | backend/routes/auth.js:30-51 | an unknown e-mail and a wrong password give the same 401 reply |
| AuthRoutes.SuccessfulLogin | backend/routes/auth.js:54-72 | login succeeds iff the e-mail exists and the password matches, and returns the token signed over that user's id, e-mail and role, with the same three fields |
| AuthRoutes.Me | backend/routes/auth.js:91-98 | `/me` answers 200 with exactly the id, e-mail and role the gate attached |
| AuthRoutes.Logout | backend/routes/auth.js:86-88 | `/logout` always succeeds |
| AuthRoutes.LoginThenMe | backend/routes/auth.js:54-98 | the token a login returns makes `/me` echo the logged-in user's id, e-mail and role |
| CompanyRoutes.Exists | backend/routes/company.js:7-11 | `exists` is true iff the company table is not empty |
| CompanyRoutes.GetCompany | backend/routes/company.js:24-35 | 404 `COMPANY_NOT_FOUND` iff there is no company, else the stored row |
| CompanyRoutes.LeadingSpace | backend/routes/company.js:97 | the count of leading white space: all of it is white space and the next character is not |
| CompanyRoutes.TrailingSpace | backend/routes/company.js:97 | the same at the end of the text |
| CompanyRoutes.Trim | backend/routes/company.js:97 | the result is a slice of the input that neither starts nor ends with white space |
| CompanyRoutes.TrimEnds | backend/routes/company.js:97 | everything `trim` cuts off is white space, and what remains neither starts nor ends with it |
| CompanyRoutes.Split | backend/routes/company.js:97 | at least one part, and no part holds the separator |
| CompanyRoutes.JoinSplit | backend/routes/company.js:97-99 | joining the parts with the separator gives back the text |
| CompanyRoutes.SplitFirst | backend/routes/company.js:97-98 | without the separator the text is the only part; otherwise the first part ends at the first separator |
| CompanyRoutes.SplitAtFirst | backend/routes/company.js:97 | text before a first separator is the first part, followed by the parts of the rest |
| CompanyRoutes.NameSplit | backend/routes/company.js:97-99 | a one-word name is both first and last name; otherwise the first name is the text before the first space and the last name the rest |
| CompanyRoutes.TwoPartName | backend/routes/company.js:97-99 | `"First Last"` splits into `First` and `Last` |
| CompanyRoutes.OneWordName | backend/routes/company.js:97-99 | a one-word name becomes both first and last name |
| CompanyRoutes.BlankName | backend/routes/company.js:97-99 | a name that is all white space gives two empty names |
| CompanyRoutes.NewCompany | backend/routes/company.js:79-82 | the stored code is the upper-cased code, and the logo is null iff none is given |
| CompanyRoutes.SetupFailureClasses | backend/routes/company.js:55-76 | a missing field is 400, an existing company 409, a fault on an empty table 500 |
| CompanyRoutes.InsertKeepsEmailsUnique | backend/routes/company.js:89-94 | inserting a user with a fresh e-mail keeps e-mails unique |
| CompanyRoutes.Setup | backend/routes/company.js:48-126 | setup succeeds exactly when its conditions hold; on failure no table changes; on success one company, the `ADMIN` user and its profile are added |
| CompanyRoutes.CommitSetup | backend/routes/company.js:79-107 | the committed inserts add exactly the one company, the admin user and its profile, and keep the store's constraints |
| EmployeeRoutes.JoinRow | backend/routes/employees.js:74-81 | the joined row carries the user's id, e-mail and role, and the profile's columns or nulls when there is no profile |
| EmployeeRoutes.JoinedRows | backend/routes/employees.js:24-25 | the left join holds exactly one joined row per user |
| EmployeeRoutes.ByName | backend/routes/employees.js:27 | `ORDER BY first_name, last_name` is a total preorder |
| EmployeeRoutes.ByNameKeys | backend/routes/employees.js:27 | the order compares first names, then last names among equal first names, with nulls last |
| EmployeeRoutes.ListEmployees | backend/routes/employees.js:10-45 | an `ADMIN` gets exactly the `EMPLOYEE` rows sorted by name; anyone else gets only their own row, or nothing |
| EmployeeRoutes.OwnRecordDeniedAsWritten | backend/routes/employees.js:65 | as written, an `EMPLOYEE` is refused every record, its own included |
| EmployeeRoutes.SelfOrAdmin | backend/routes/employees.js:65 | the intended rule: an `EMPLOYEE` is refused exactly the other users' records, and other roles are never refused |
| EmployeeRoutes.GetEmployee | backend/routes/employees.js:59-94 | the intended handler: 403 when refused by the self-or-admin rule, 404 for an unknown id, else 200 with the joined row |
| EmployeeRoutes.GetEmployeeAsWritten | backend/routes/employees.js:59-94 | the handler as written: every `EMPLOYEE` gets 403; other roles get 404 for an unknown id, else 200 with the joined row |
| EmployeeRoutes.OwnRecordAsWritten | backend/routes/employees.js:65 | an `EMPLOYEE` reading their own existing record gets 403 as written and 200 under the intended rule; other roles are answered alike |
| EmployeeRoutes.EmailParts | backend/routes/employees.js:126 | a valid e-mail splits into a local part, `@`, a domain part, `.` and a top part, all non-empty and free of white space and `@` |
| EmployeeRoutes.ValidEmailMatches | backend/routes/employees.js:126 | the validator accepts only texts the regular expression matches |
| EmployeeRoutes.MatchesIsValidEmail | backend/routes/employees.js:126 | every text the regular expression matches is accepted |
| EmployeeRoutes.EmailValidatorMatchesPattern | backend/routes/employees.js:126-127 | the validator accepts exactly the language of `/^[^\s@]+@[^\s@]+\.[^\s@]+$/` |
| EmployeeRoutes.EmailValidatorRule | backend/routes/employees.js:126 | with `@` at position i: valid iff i ≥ 1, no other character is white space or `@`, and the domain has an inner dot |
| EmployeeRoutes.NoSpaceNorAtConcat | backend/routes/employees.js:126 | two texts in `[^\s@]*` joined are in it too |
| EmployeeRoutes.EmailValidatorExamples | backend/routes/employees.js:126 | examples of the general rule: `a@b.c` passes; `a@b` and `@b.c` fail |
| EmployeeRoutes.NewProfile | backend/routes/employees.js:152-156 | the profile keeps the names, and each optional field is null when empty |
| EmployeeRoutes.CreateFailureClasses | backend/routes/employees.js:115-186 | missing fields give `MISSING_REQUIRED_FIELDS`, a bad e-mail `INVALID_EMAIL`, a taken e-mail 409 `DUPLICATE_EMAIL`, other faults 500 |
| EmployeeRoutes.AddKeepsEmailsUnique | backend/routes/employees.js:142-146 | inserting a user with a fresh e-mail keeps e-mails unique |
| EmployeeRoutes.CreateEmployee | backend/routes/employees.js:108-190 | success exactly when the fields are valid, the e-mail is free and nothing fails; then one `EMPLOYEE` user and its profile are added; on failure neither table changes |
| EmployeeRoutes.SetColumn | backend/routes/employees.js:271-273 | setting a column changes that column only |
| EmployeeRoutes.Edit | backend/routes/employees.js:238-265 | one `if (field !== undefined)`: at most one assignment, present iff the field is supplied and, for position and hire date, the caller is `ADMIN` |
| EmployeeRoutes.InOrderExtend | backend/routes/employees.js:238-265 | appending the next column's assignment keeps the columns in the handler's order |
| EmployeeRoutes.EditsInOrder | backend/routes/employees.js:238-265 | the `SET` list holds exactly the applicable supplied fields, in the handler's column order |
| EmployeeRoutes.EditsUpToInOrder | backend/routes/employees.js:238-265 | after the first n tests the `SET` list holds exactly the applicable supplied fields of those columns, in column order |
| EmployeeRoutes.ColumnAt | backend/routes/employees.js:238-265 | the column the handler checks at position n has rank n |
| EmployeeRoutes.ApplyEditsColumn | backend/routes/employees.js:271-273 | after the `SET` list a column holds its assigned value, or its old value when not assigned |
| EmployeeRoutes.UpdateWhitelist | backend/routes/employees.js:238-273 | the update writes exactly the supplied fields; an `EMPLOYEE` never changes position or hire date |
| EmployeeRoutes.PushColumn | backend/routes/employees.js:238-240 | each push appends `col = $n` with the next number and its value |
| EmployeeRoutes.BuildProfileUpdate | backend/routes/employees.js:234-273 | the k-th assignment uses placeholder k + 1 and the k-th value; when anything changes, the id is the last value and its placeholder is one past the assignments |
| EmployeeRoutes.AppendKey | backend/routes/employees.js:267-272 | with no assignment nothing is bound and no statement runs; otherwise the id is bound last, as the placeholder after the assignments |
| EmployeeRoutes.PrepareProfileUpdate | backend/routes/employees.js:234-275 | the profile statement runs iff at least one supplied field applies to the caller |
| EmployeeRoutes.UpdateTouchesOnlyTarget | backend/routes/employees.js:226-273 | a committed update changes only the target's rows, and an `EMPLOYEE` never changes an e-mail |
| EmployeeRoutes.UpdateEmployeeAsWritten | backend/routes/employees.js:193-305 | the handler as written: every `EMPLOYEE` gets 403 and nothing changes; for other roles, without a commit no table changes and the reply is the 404 or 500 failure, with one the user and profile tables are the updated ones and the reply is the re-read row |
| EmployeeRoutes.UpdateEmployee | backend/routes/employees.js:193-305 | the intended handler, refusing by the self-or-admin rule: without a commit no table changes and the reply is the failure; with one the user and profile tables are the updated ones and the reply is the re-read row |
| EmployeeRoutes.CommitUpdate | backend/routes/employees.js:226-275 | a committed update writes exactly the updated user and profile tables and keeps the store's constraints |
| EmployeeRoutes.UpdateKeepsUserTables | backend/routes/employees.js:226-273 | an update that commits keeps the user and profile constraints |
| EmployeeRoutes.RenameKeepsEmailsUnique | backend/routes/employees.js:226-230 | changing an e-mail to one nobody else has keeps e-mails unique |
| EmployeeRoutes.WithoutUser | backend/routes/employees.js:312 | the rows that survive a cascade are exactly those owned by someone else, unchanged |
| EmployeeRoutes.DeleteEmployee | backend/routes/employees.js:308-334 | 404 with nothing changed for an unknown id; otherwise the user, its profile and every row it owns are removed |
| AttendanceRoutes.RowOfDay | backend/routes/attendance.js:15-18 | the lookup finds a row iff the user has one for the day, and then it is that row |
| AttendanceRoutes.CheckinTransition | backend/routes/attendance.js:20-35 | checking in moves the day from not checked in to checked in, keeps one row per day, and leaves every other user and day as it was |
| AttendanceRoutes.Checkin | backend/routes/attendance.js:9-48 | a second check-in the same day is 409 with nothing changed; otherwise one row with check-in `now` and no check-out is added |
| AttendanceRoutes.CheckoutTransition | backend/routes/attendance.js:80-87 | checking out stamps only today's row, which becomes checked out |
| AttendanceRoutes.Checkout | backend/routes/attendance.js:51-100 | no row gives 400 `NO_CHECKIN`, a second check-out 409; otherwise today's row gets check-out `now` and is returned |
| AttendanceRoutes.DayRows | backend/routes/attendance.js:117-122 | exactly the user's rows for the date, without repeats |
| AttendanceRoutes.Daily | backend/routes/attendance.js:103-124 | a missing date gives 400 `MISSING_DATE`, else 200 with the day's rows |
| AttendanceRoutes.DailyAtMostOne | backend/routes/attendance.js:117-122 | under one row per day the answer is empty or that one row |
| AttendanceRoutes.WeekRows | backend/routes/attendance.js:153-161 | exactly the user's rows with `start <= date < start + 7` |
| AttendanceRoutes.Weekly | backend/routes/attendance.js:138-163 | a missing start gives 400 `MISSING_START_DATE`; else the week's rows, sorted by date and a permutation of them |
| AttendanceRoutes.BuildAttendanceQuery | backend/routes/attendance.js:182-200 | `$1` is the user; each given bound adds one condition numbered `params.length + 1`; the conditions select exactly the dates within the bounds |
| AttendanceRoutes.RangeRows | backend/routes/attendance.js:188-200 | exactly the user's rows with dates within the given bounds, each once |
| AttendanceRoutes.UserAttendance | backend/routes/attendance.js:177-205 | the user's rows within the bounds, each joined with the user's e-mail and names, newest first, each row once; empty for an unknown user |
| LeaveRoutes.LeaveFailure | backend/routes/leave.js:15-43 | a request is accepted iff the fields are given, the type is PAID, SICK or UNPAID and the end is not before the start; the checks fail in that order with 400 |
| LeaveRoutes.DateRangeRule | backend/routes/leave.js:36-43 | `INVALID_DATE_RANGE` iff the end is before the start; a one-day leave is accepted |
| LeaveRoutes.RequestLeave | backend/routes/leave.js:9-64 | a refused request changes nothing; an accepted one adds one `PENDING` row with the given fields |
| LeaveRoutes.ReviewFailure | backend/routes/leave.js:154-175 | a review is allowed iff the request exists and is `PENDING`; otherwise 404, or 400 naming the status in lower case |
| LeaveRoutes.ReviewIsFinal | backend/routes/leave.js:168-183 | once approved or rejected, a request can never be reviewed again |
| LeaveRoutes.ReviewTouchesOneRequest | backend/routes/leave.js:178-183 | a review changes only the status, comments and update time of the one request |
| LeaveRoutes.Review | backend/routes/leave.js:148-249 | a refused review changes nothing; otherwise the request gets the decision and is returned |
| LeaveRoutes.Approve | backend/routes/leave.js:148-197 | as `Review`, with the status becoming `APPROVED` |
| LeaveRoutes.Reject | backend/routes/leave.js:200-249 | as `Review`, with the status becoming `REJECTED` |
| LeaveRoutes.OwnRequests | backend/routes/leave.js:71-77 | exactly the caller's requests |
| LeaveRoutes.MyRequests | backend/routes/leave.js:67-79 | the caller's requests, newest first, as a permutation of them |
| LeaveRoutes.PendingRequests | backend/routes/leave.js:103 | exactly the `PENDING` requests, each once |
| LeaveRoutes.PendingList | backend/routes/leave.js:93-107 | the pending requests of existing users, each joined with the owner's e-mail and names, oldest first, each request once |
| LeaveRoutes.AllRequests | backend/routes/leave.js:121-134 | every request of an existing user, joined, newest first, each once |
| PayrollRoutes.CreateFailure | backend/routes/payroll.js:98-126 | a body is accepted iff the required fields are present, the month is 1..12 and no amount is negative; the checks fail in that order with 400 `MISSING_REQUIRED_FIELDS`, `INVALID_MONTH` and `INVALID_NUMERIC_VALUE` (a negative base salary, net salary or deduction) |
| PayrollRoutes.StoredDeductions | backend/routes/payroll.js:144 | `deductions \|\| 0` stores a given deduction as it is, and 0 when none is given |
| PayrollRoutes.NewRow | backend/routes/payroll.js:140-144 | the inserted row carries the given fields, has a valid month and no negative amount |
| PayrollRoutes.InsertKeepsPayrollTable | backend/routes/payroll.js:140-156 | inserting a row for a period the user has no row for keeps one row per user and period |
| PayrollRoutes.CreatePayroll | backend/routes/payroll.js:93-167 | a bad body or an unknown user changes nothing; a clash is 409 (the sequence still advances); otherwise the new row is added |
| PayrollRoutes.Change | backend/routes/payroll.js:213-232 | one `if (field !== undefined)`: at most one assignment, present iff the field is supplied |
| PayrollRoutes.ApplyAppend | backend/routes/payroll.js:247 | applying two `SET` lists in a row is applying their concatenation |
| PayrollRoutes.ApplyChange | backend/routes/payroll.js:213-232 | one assignment sets its column when the field is supplied, and changes nothing otherwise |
| PayrollRoutes.UpdateSetsSuppliedFields | backend/routes/payroll.js:209-249 | each supplied field takes its new value, every other column and the owner keep theirs |
| PayrollRoutes.NoChanges | backend/routes/payroll.js:234-241 | the `SET` list is empty iff no field is supplied |
| PayrollRoutes.UpdateFailure | backend/routes/payroll.js:176-271 | an update is allowed iff the row exists, the month is valid, no amount is negative, something changes and the new period does not clash; otherwise the first failing check answers, in order: 404 `PAYROLL_NOT_FOUND`, 400 `INVALID_MONTH`, 400 `INVALID_NUMERIC_VALUE`, 400 `NO_UPDATES`, 409 `DUPLICATE_PAYROLL` |
| PayrollRoutes.PushChange | backend/routes/payroll.js:213-215 | each push appends `col = $n` with the next number and its value |
| PayrollRoutes.BuildPayrollUpdate | backend/routes/payroll.js:209-244 | the k-th assignment uses placeholder k + 1 and the k-th value, and the counter ends one past them |
| PayrollRoutes.RewriteKeepsPayrollTable | backend/routes/payroll.js:246-261 | rewriting a row to a period that does not clash keeps the table's constraints |
| PayrollRoutes.UpdatePayroll | backend/routes/payroll.js:170-272 | a refused update changes nothing and answers `UpdateFailure`'s reply (404, the three 400s or 409, each under its condition); otherwise exactly that row becomes the updated row and is returned |
| PayrollRoutes.DeletePayroll | backend/routes/payroll.js:275-301 | 404 with nothing changed for an unknown id; otherwise exactly that row is removed |
| PayrollRoutes.NewestPeriodFirst | backend/routes/payroll.js:17 | `ORDER BY year DESC, month DESC` is a total preorder that puts the later period first |
| PayrollRoutes.UserRows | backend/routes/payroll.js:13-18 | exactly the user's rows, without repeats |
| PayrollRoutes.MyPayroll | backend/routes/payroll.js:9-21 | the caller's rows, newest period first, as a permutation of them |
| PayrollRoutes.MyPayrollOnePerPeriod | backend/routes/payroll.js:13-18 | under the unique constraint the caller's list is strictly newest first: no two rows share a period |
| PayrollRoutes.RowNewestFirst | backend/routes/payroll.js:75 | the joined order by year and month is a total preorder |
| PayrollRoutes.RowNewestFirstKeys | backend/routes/payroll.js:75 | a row comes before another iff its year is later, or the year is the same and its month is not earlier |
| PayrollRoutes.ListOrder | backend/routes/payroll.js:45 | the admin order is a total preorder |
| PayrollRoutes.ListOrderKeys | backend/routes/payroll.js:45 | the admin order never puts an earlier period first, and within one period compares first names, then last names, nulls last |
| PayrollRoutes.AllPayroll | backend/routes/payroll.js:35-48 | every row of an existing user, joined with the owner's e-mail and names, in the admin order, each row once |
| PayrollRoutes.UserPayroll | backend/routes/payroll.js:62-79 | the user's rows, joined, newest first, each once; empty for an unknown user |
| LoginIds.DigitChar | backend/utils/loginIdGenerator.js:41 | the character of a digit is a digit with that value |
| LoginIds.NatText | backend/utils/loginIdGenerator.js:41 | `toString` of a natural number is a non-empty run of digits without a leading zero |
| LoginIds.NatTextValue | backend/utils/loginIdGenerator.js:41 | the decimal text denotes the number back |
| LoginIds.NatTextShort | backend/utils/loginIdGenerator.js:41 | a number below 10000 has at most four digits |
| LoginIds.Repeat | backend/utils/loginIdGenerator.js:41 | k copies of a character |
| LoginIds.LeadingZeros | backend/utils/loginIdGenerator.js:41 | leading zeros do not change the value |
| LoginIds.ZerosValue | backend/utils/loginIdGenerator.js:41 | a run of zeros denotes 0 |
| LoginIds.PadStart | backend/utils/loginIdGenerator.js:41 | `padStart` gives the longer of the text and the width |
| LoginIds.Pad4Value | backend/utils/loginIdGenerator.js:41 | the padded serial is at least four digits and denotes the serial |
| LoginIds.ParseInt | backend/utils/loginIdGenerator.js:36 | on a run of digits `parseInt` gives their value |
| LoginIds.SkipSpace | backend/utils/loginIdGenerator.js:36 | text that does not start with white space is kept as it is |
| LoginIds.LeadingDigits | backend/utils/loginIdGenerator.js:36 | the leading digits are a prefix that is all digits, and the whole of an all-digit text |
| LoginIds.Pad4RoundTrip | backend/utils/loginIdGenerator.js:36-41 | a serial below 10000 pads to four digits that parse back to it |
| LoginIds.CompanyCode | backend/utils/loginIdGenerator.js:10-14 | no code iff there is no company; otherwise the code of a stored company |
| LoginIds.Initial | backend/utils/loginIdGenerator.js:17-18 | `charAt(0).toUpperCase()`: empty for an empty name, else the upper-cased first letter |
| LoginIds.MatchIn | backend/utils/loginIdGenerator.js:24-31 | exactly the login ids of the given rows that start with the prefix |
| LoginIds.MatchingIds | backend/utils/loginIdGenerator.js:24-31 | exactly the taken login ids that start with the prefix |
| LoginIds.Greatest | backend/utils/loginIdGenerator.js:28-29 | `ORDER BY login_id DESC LIMIT 1`: none iff there is no match, else a match no other exceeds |
| LoginIds.LastFour | backend/utils/loginIdGenerator.js:36 | `slice(-4)` is the text's suffix of length four, or all of a shorter text |
| LoginIds.GenerateLoginId | backend/utils/loginIdGenerator.js:7-43 | no id iff there is no company; otherwise an id that starts with code, initials and year |
| LoginIds.FirstSerial | backend/utils/loginIdGenerator.js:33-43 | with no id taken for the prefix the serial is `0001` |
| LoginIds.PadOne | backend/utils/loginIdGenerator.js:41 | serial 1 pads to `0001` |
| LoginIds.SerialAfterGreatest | backend/utils/loginIdGenerator.js:33-43 | otherwise the serial is one more than the last four digits of the greatest match, four digits long while that is below 9999 |
| LoginIds.StrLeAntisymmetric | backend/utils/loginIdGenerator.js:28 | the text order is antisymmetric, so the greatest match is unique |
| LoginIds.RolloverRepeatsId | backend/utils/loginIdGenerator.js:24-43 | as written, once serials 9999 and 10000 exist the generator returns the id with serial 10000 again |
| LoginIds.GreatestIs | backend/utils/loginIdGenerator.js:28-29 | a match that every other match is below is the one chosen |
| LoginIds.StrLeCommonPrefix | backend/utils/loginIdGenerator.js:28 | texts with a common prefix compare as the rest of them do |
| LoginIds.SerialAfterNines | backend/utils/loginIdGenerator.js:36-41 | after `…9999` the serial text is `10000` |
| LoginIds.NinesValue | backend/utils/loginIdGenerator.js:36 | `parseInt("9999")` is 9999 |
| LoginIds.TenThousandText | backend/utils/loginIdGenerator.js:41 | serial 10000 pads to the five characters `10000` |
| LoginIds.MaxSerial | backend/utils/loginIdGenerator.js:33-38 | the largest numeric serial among the ids: every serial is at most it and, when some id has a serial, one id has exactly it; 0 when none has one |
| LoginIds.GenerateFreshLoginId | backend/utils/loginIdGenerator.js:7-43 | the intended generator: no id iff there is no company; otherwise an id with the prefix that no user has |
| LoginIds.FreshFirstSerial | backend/utils/loginIdGenerator.js:33-43 | the intended generator also starts at `0001` |
| LoginIds.Draw | backend/utils/loginIdGenerator.js:59 | `Math.floor(Math.random() * charset.length)` is a valid index into the character set |
| LoginIds.GeneratePassword | backend/utils/loginIdGenerator.js:54-62 | twelve characters, the k-th drawn from the character set by the k-th random number |
| AuthSession.LowerRole | frontend/src/context/AuthContext.jsx:33 | a role is produced iff the role is a string, and it is that string lower-cased |
| AuthSession.Spread | frontend/src/context/AuthContext.jsx:30-34 | `{...a, ...b}` has the keys of both, and the values of `b` win |
| AuthSession.SessionUser | frontend/src/context/AuthContext.jsx:30-41 | no user iff the role is not a string; otherwise the profile over the user data, with the role lower-cased |
| AuthSession.ServerRoles | frontend/src/context/AuthContext.jsx:87-93 | for the roles the server issues, `isAdmin` holds exactly for `ADMIN` and `isEmployee` exactly for `EMPLOYEE` |
| AuthSession.Overlay | frontend/src/context/AuthContext.jsx:95-98 | `{...user, ...updatedData}`: the updated keys win, the rest of the user stays |
| AuthSession.AuthProvider.constructor | frontend/src/context/AuthContext.jsx:9-11 | mounts with no user, the stored token and loading |
| AuthSession.AuthProvider.Logout | frontend/src/context/AuthContext.jsx:80-85 | clears the user, the token, the stored token and the header |
| AuthSession.AuthProvider.FetchCurrentUser | frontend/src/context/AuthContext.jsx:22-49 | stores the session user, or logs out when `/me` fails or the role is not a string; loading ends |
| AuthSession.AuthProvider.OnToken | frontend/src/context/AuthContext.jsx:13-20 | with a truthy token (present and not empty) the header is set and the user fetched; with none or an empty one loading just ends and nothing else changes |
| AuthSession.AuthProvider.Login | frontend/src/context/AuthContext.jsx:51-78 | stores the token, keeps it and sets the header, then stores and returns the session user; a failed request changes nothing |
| AuthSession.AuthProvider.UpdateProfile | frontend/src/context/AuthContext.jsx:95-98 | the user becomes the overlay of the updated data |
| ProtectedRoute.Guard | frontend/src/components/ProtectedRoute.jsx:9-25 | loading shows the loading screen, no user goes to `/login`, a non-admin on an admin route goes to `/dashboard`; it renders exactly otherwise |
| ProtectedRoute.GuardFor | frontend/src/components/ProtectedRoute.jsx:6-25 | the guard reads the provider's loading flag and user |
| ProtectedRoute.GuardAfterSignIn | frontend/src/components/ProtectedRoute.jsx:21-25 | after sign-in, an ordinary route renders for everyone and an admin route renders exactly for `ADMIN` |
| Sidebar.ActiveAtBoundary | frontend/src/components/layout/Sidebar.jsx:42-44 | a path is active iff it is a prefix of the location ending at its end or at a `/` |
| Sidebar.ActiveExamples | frontend/src/components/layout/Sidebar.jsx:42-44 | examples of the boundary rule: `/leave` is active at `/leave/admin` but not at `/leaves` |
| Sidebar.MenuFor | frontend/src/components/layout/Sidebar.jsx:20-40 | the admin menu iff the role is `ADMIN` or `admin`, else the employee menu |
| Sidebar.MenusShape | frontend/src/components/layout/Sidebar.jsx:24-38 | either menu has five entries, among them `/dashboard` and `/attendance` |
| Sidebar.RoleLabel | frontend/src/components/layout/Sidebar.jsx:94 | `Administrator` iff the role is `ADMIN` or `admin`, else `Employee` |
| Sidebar.PrefixesNest | frontend/src/components/layout/Sidebar.jsx:43 | two prefixes of one text are prefixes of each other |
| Sidebar.OneActiveEntry | frontend/src/components/layout/Sidebar.jsx:42-44 | in a menu whose paths do not extend one another at a `/`, at most one entry is active |
| Sidebar.MenusPrefixFree | frontend/src/components/layout/Sidebar.jsx:24-38 | both menus are such menus, so at most one entry is highlighted |
| Sidebar.EmployeeMenuPrefixFree | frontend/src/components/layout/Sidebar.jsx:24-30 | the employee menu is one |
| Sidebar.AdminMenuPrefixFree | frontend/src/components/layout/Sidebar.jsx:32-38 | the admin menu is one |
| Sidebar.DifferAt | frontend/src/components/layout/Sidebar.jsx:43 | texts that differ at an index in both do not start with each other |
| EmployeeSearch.Filtered | frontend/src/pages/EmployeeListCards.jsx:19-30 | an empty term keeps the whole list; otherwise an employee is kept iff it matches |
| EmployeeSearch.FilterSubsequence | frontend/src/pages/EmployeeListCards.jsx:21 | a filter keeps a subsequence of its input |
| EmployeeSearch.FilterStricter | frontend/src/pages/EmployeeListCards.jsx:21-25 | a stricter filter keeps a subsequence of what a looser one keeps |
| EmployeeSearch.FilteredIsSubsequence | frontend/src/pages/EmployeeListCards.jsx:19-30 | the shown list is a subsequence of the employees, in their order |
| EmployeeSearch.SubsequenceOfItself | frontend/src/pages/EmployeeListCards.jsx:28 | the whole list is a subsequence of itself |
| EmployeeSearch.CaseInsensitive | frontend/src/pages/EmployeeListCards.jsx:22-24 | a term and its upper-cased form select the same list |
| EmployeeSearch.FilterSame | frontend/src/pages/EmployeeListCards.jsx:21 | filters that agree on the list keep the same elements |
| EmployeeSearch.ExtendingNarrows | frontend/src/pages/EmployeeListCards.jsx:21-25 | typing more characters never brings an employee back |
| EmployeeSearch.EmployeeListCards.constructor | frontend/src/pages/EmployeeListCards.jsx:8-12 | the page starts empty, loading, with no error and no term |
| EmployeeSearch.EmployeeListCards.FetchEmployees | frontend/src/pages/EmployeeListCards.jsx:32-43 | a successful fetch stores the list as both lists; a failed one sets the error; loading ends |
| EmployeeSearch.EmployeeListCards.ApplySearch | frontend/src/pages/EmployeeListCards.jsx:19-30 | the shown list becomes the filtered list, a subsequence holding exactly the matching employees |
| EmployeeSearch.EmployeeListCards.Search | frontend/src/pages/EmployeeListCards.jsx:82 | typing sets the term, and the shown list follows it |
| RoleViews.DashboardCardsAsWritten | frontend/src/pages/Dashboard.jsx:23 | as written, the admin cards iff the role is exactly `ADMIN` |
| RoleViews.AdminSeesEmployeeCards | frontend/src/pages/Dashboard.jsx:23 | an `ADMIN` signed in through the provider is an administrator but gets the employee cards |
| RoleViews.DashboardCards | frontend/src/pages/Dashboard.jsx:9-23 | the intended dashboard: the admin cards iff the provider reports an administrator |
| RoleViews.DashboardFollowsServerRole | frontend/src/pages/Dashboard.jsx:23 | with the intended test, `ADMIN` users get the admin cards and `EMPLOYEE` users the employee cards |
| RoleViews.NavbarLinksAsWritten | frontend/src/components/Navbar.jsx:24-60 | as written, the dashboard link first, the admin links iff the role is exactly `ADMIN`, the employee links iff it is exactly `EMPLOYEE` |
| RoleViews.SignedInNavbarHasOnlyDashboard | frontend/src/components/Navbar.jsx:28-45 | whoever signs in through the provider gets only the dashboard link |
| RoleViews.NavbarLinks | frontend/src/components/Navbar.jsx:24-60 | the intended bar: the admin links iff an administrator, the employee links iff an employee |
| RoleViews.NavbarFollowsServerRole | frontend/src/components/Navbar.jsx:28-45 | with the intended tests each server role gets its own four links after the dashboard |
| Common.OrNull | backend/routes/employees.js:156 | `x \|\| null`: kept iff given, else null |
| Common.Internal | backend/routes/auth.js:74-81 | the shared 500 `INTERNAL_ERROR` reply |
| Common.ToLowerAppend | frontend/src/pages/EmployeeListCards.jsx:22-24 | lower-casing distributes over concatenation |
| Common.LowerOfUpper | frontend/src/pages/EmployeeListCards.jsx:22-24 | lower-casing an upper-cased text equals lower-casing the text |
| Common.ContainsPrefix | frontend/src/pages/EmployeeListCards.jsx:22-24 | a text that contains `t + u` contains `t` |
| Common.Filter | frontend/src/pages/EmployeeListCards.jsx:21 | `filter` keeps exactly the elements that pass, and is no longer than its input |
| Common.Numbering | backend/routes/employees.js:239 | the k-th assignment is numbered k + 1 |
| Common.BoundValues | backend/routes/employees.js:240 | the k-th bound value is the k-th assignment's value |
| Sorting.Sort | backend/routes/employees.js:27 | `ORDER BY`: the result is sorted by the order and is a permutation of the input |
| Sorting.Then | backend/routes/payroll.js:45 | a second sort key breaks ties of the first |
| Sorting.ThenPreorder | backend/routes/payroll.js:45 | two total preorders combined are a total preorder |
| Sorting.NullableStrLePreorder | backend/routes/payroll.js:45 | ordering text with nulls last is a total preorder |
| Tables.OwnerRow | backend/routes/leave.js:99-102 | a joined row carries the owner's e-mail and the profile's names, or nulls without a profile |
| Tables.JoinOwners | backend/routes/leave.js:100-102 | the inner join with users keeps exactly the rows of existing owners, the left join with profiles adds their names |
| Tables.JoinOwnersDistinct | backend/routes/leave.js:100-102 | joining rows listed once each lists every joined row once: the join neither repeats nor merges rows |
| Tables.TableRowsDistinct | backend/routes/leave.js:124-131 | a table scan lists each row once |

## Left out

- Transactions are modelled by their outcome. A failing statement is a parameter naming the step, all checks run first, and the writes happen together. So a failed transaction leaves every table as it was. Interleavings with other requests are not modelled.
- Row ids come from one counter in the `Store`, standing for PostgreSQL's sequences. A failed insert still consumes an id, as a sequence does. The ids of different tables do not have separate counters.
- `DELETE /api/employees/:id` is modelled as cascading to the user's profile, attendance, leave and payroll rows. The schema is not part of this model, and the cascade is an assumption.
- `created_at` and `updated_at` are only kept where a listing sorts by them (leave requests). `NOW()` is the `now` parameter.
- The SQL text is not modelled. The model uses the rows a query selects, together with the `SET` list and placeholder numbering the handlers build.
- Read-only handlers have a generic 500 path for database errors. It is left out: they are modelled without faults.
- Other faults (`Internal()` 500s) are modelled only in the handlers that run transactions: company setup, employee create and update.
- EmployeeRoutes.GetEmployee, EmployeeRoutes.UpdateEmployee: use the corrected self-or-admin rule of the employees.js:65 finding. The handlers as written are `GetEmployeeAsWritten` and `UpdateEmployeeAsWritten`, which refuse every `EMPLOYEE`.
- Path parameters `:id` are natural numbers. A non-numeric `:id`, which PostgreSQL refuses to cast (a 500 reply), is not modelled.
- Payroll handlers: faults other than the unique violation (500) are not modelled, and neither are foreign-key violations.
- PayrollRoutes.CreateFailure: request bodies hold integers or nothing. JSON strings, `null` and fractions are not modelled, nor JavaScript's comparison of such values with numbers. Amounts are integers, not `NUMERIC` with decimals.
- Malformed date strings are left out. `new Date(...)` of invalid text, and PostgreSQL's rejection of it, are not modelled: dates are already day numbers.
- The `details` payload of the 400 `MISSING_REQUIRED_FIELDS` replies is not modelled.
- The create replies of the employee route (user fields merged with the inserted profile row) are modelled as the joined row.
- Text ordering uses character codes. A database collation may order differently. `toLowerCase`/`toUpperCase` are ASCII only; other Unicode case mappings are not modelled.
- LoginIds.ParseInt: models leading white space, sign and decimal digits only. `parseInt`'s hexadecimal prefix is not modelled. In the `LIKE` pattern, `%` and `_` inside a company code are treated literally.
- LoginIds.CompanyCode: `LIMIT 1` without `ORDER BY` may return any row. The model takes the row with the lowest id, which is the only row under the single-company rule.
- LoginIds.GeneratePassword: `Math.random` is the parameter `random`, one number per position.
- JSON values in the front end are scalars. Nested objects and arrays in the user object are not distinguished.
- Rendering, CSS and navigation effects are not modelled. The model keeps the decisions they are drawn from. This includes the `user?.name || user?.email` display and the `Role:` text.
- The employee list returned by `GET /api/employees` has no `login_id` column. The directory's search on it therefore only matters for data that carries one.
- `frontend/src/pages/EmployeeProfileTabs.jsx:17` has the same upper-case `ADMIN` test as the dashboard. That page is not part of this model.
- AuthSession.AuthProvider.IsAdmin, IsEmployee and IsAuthenticated are stated through `AdminRole`, `EmployeeRole` and `user.Some?`, and carry no contracts of their own.
- The other pages and components render data or make requests. They are not part of this model: forms, lists, landing, sign-up, login and change-password pages, layout and UI components, and `App.jsx`.

## Findings

| source | as written | input that shows it | evidently intended | confidence | as-written member | corrected member |
|---|---|---|---|---|---|---|
| backend/routes/employees.js:65 | `currentUserId !== id` compares the token's numeric id with the path's text id, which always differ under `!==` | an `EMPLOYEE` with id 7 requests `GET /api/employees/7` (the same test guards `PUT` at line 202) | an employee reads and updates their own record | not executed | EmployeeRoutes.OwnRecordAsWritten | EmployeeRoutes.SelfOrAdmin |
| backend/utils/loginIdGenerator.js:24-43 | the greatest id is chosen by text order and only its last four characters are read, so after serial 10000 the text order still puts `…9999` on top | company code `OI`, John Olsen, year 2024, with `OIJO20249999` and `OIJO202410000` both taken: the generator returns `OIJO202410000` again; no route of the back end calls the generator or writes `login_id`, so the defect is latent | a login id nobody has | not executed | LoginIds.RolloverRepeatsId | LoginIds.GenerateFreshLoginId |
| frontend/src/pages/Dashboard.jsx:23 | `user?.role === 'ADMIN'`, while the provider always stores the role lower-cased (frontend/src/context/AuthContext.jsx:33) | a server `ADMIN` signs in; the stored role is `admin` | administrators see the admin cards | not executed | RoleViews.AdminSeesEmployeeCards | RoleViews.DashboardFollowsServerRole |
| frontend/src/components/Navbar.jsx:28-45 | the bar tests `=== 'ADMIN'` and `=== 'EMPLOYEE'` against the lower-cased role | any signed-in user would see only the dashboard link; no file of the front end imports `Navbar` (frontend/src/components/Layout.jsx renders `Sidebar`), so the defect is latent | each role gets its own links | not executed | RoleViews.SignedInNavbarHasOnlyDashboard | RoleViews.NavbarFollowsServerRole |
