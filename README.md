# AI-HRMS backend core in Dafny

This project models the server side of AI-HRMS, a multi-tenant HR system. An
organization registers, and its admin logs in. The admin manages employees
and tasks. Employees log in to see and progress their own tasks. A
rule-based engine scores productivity, detects skill gaps and recommends an
assignee for a new task.

The model covers:

- **The scoring engine** (`ai_service.dfy`). Pure functions:
  `CalculateProductivityScore`, the `ROLE_SKILLS` catalogue,
  `DetectSkillGap` and `RecommendEmployee`, with the arithmetic done on
  exact reals.
- **The session middleware and role guards** (`middleware.dfy`). The
  guards are functions. `AuthMiddleware` is a method that writes the
  request's principal, or writes the 401 and the cookie action on the
  response.
- **The task and employee routes** (`task_routes.dfy`, `employee_routes.dfy`).
  These are classes over a `seq` table whose methods insert, COALESCE-edit
  and delete rows of the caller's organization only.
  - Each method states the table's whole new state.
  - Each method keeps the table invariant: ids are a primary key from the
    id sequence, and employee emails are unique.
- **The session routes** (`auth_routes.dfy`).
  - Registration is a method on the organizations table that also sets
    the cookie.
  - Logout is a method that clears the cookie.
  - Admin login, employee login and `/me` are decisions over the stored
    tables.
- **The dashboard and AI routes** (`dashboard_routes.dfy`, `ai_routes.dfy`).
  Read-only compositions over one organization's snapshot.

The supporting modules:

| Module | Models |
|---|---|
| `seqs.dfy`, `sorting.dfy` | SQL meanings: `WHERE` is `Filter`, `UPDATE` is `Map`, `COUNT ... FILTER` is `Count`, `ORDER BY ... LIMIT` is `TopBy`, and JavaScript's stable `Array.prototype.sort` is `SortBy` |
| `text.dfy` | `toLowerCase`, `trim`, `includes` and string order by character code |
| `js_math.dfy` | `Math.round`, `min`, `max` |
| `crypto.dfy` | bcrypt and JSON Web Tokens, as opaque stand-ins |
| `records.dfy`, `http.dfy` | The rows, and the status-plus-outcome shape of an answer |

The clock is the parameter `now` (an integer timestamp). bcrypt is the
value `Digest(password)`, which matches exactly its own password. A token is
either `Signed(payload, expiresAt)`, issued by `Sign` with a seven-day
lifetime, or unverifiable.

Ties in an SQL `ORDER BY` have no defined order, so for a query the model
states only the sort order. The model's sort is stable from table order,
which is one permitted outcome.

Three behaviours of the code are kept as written:

- The task edit route does not check that a new assignee belongs to the
  organization; only the create route does.
- The productivity score of ten tasks, eight completed, two overdue and six
  completed on time is 80 + 7.5 - 10 = 77.5. That rounds to 78, grade B
  (`WorkedExampleScore`).
- `detectSkillGap` looks the role up on a plain object, so a role named after
  an inherited method such as `constructor` makes it throw. The skill-gap
  route then answers 500 for the whole organization (`GapThrows`,
  `AiRoutes.SkillGaps`).

## Model

| member | source | states |
|---|---|---|
| Crypto.HashPassword | backend/routes/auth.js:27 | the stored hash of a password matches that password |
| Crypto.HashMatchesOnlyItsPassword | backend/routes/auth.js:57 | `bcrypt.compare` accepts a hash only for the password it was made from |
| Crypto.Sign | backend/routes/auth.js:35-38 | a token carries exactly the signed payload and expires seven days after signing |
| Crypto.Verify | backend/middleware/auth.js:11 | verification succeeds iff the token is one this server signed and it has not expired, and then yields its payload |
| Crypto.VerifySign | backend/middleware/auth.js:11 | a freshly signed token verifies to its own payload until it expires |
| JsMath.Round | backend/services/aiService.js:42 | `Math.round` gives the integer within half of x, halves going up |
| JsMath.Clamp | backend/services/aiService.js:42 | the clamped value lies in [lo, hi]; it is x itself when x already does, lo when x is below and hi when x is above |
| Text.ToLower | backend/services/aiService.js:78 | `toLowerCase` keeps the length and lower-cases each ASCII capital, leaving other characters alone |
| Text.Trim | backend/services/aiService.js:78 | `trim` yields a contiguous piece of the string with no whitespace at either end |
| Text.Includes | backend/services/aiService.js:80 | `includes` holds iff the needle occurs contiguously somewhere in the string |
| Sorting.SortBySorted | backend/services/aiService.js:119 | the sort orders its result by a total preorder |
| Sorting.SortByStable | backend/services/aiService.js:119 | elements that compare equal keep their input order (stable sort) |
| Sorting.TiesKeepOrder | backend/routes/ai.js:14-33 | sorting rows already in `ORDER BY name` order by score leaves every group of equal scores in name order |
| Sorting.TopBy | backend/routes/dashboard.js:57-58 | `ORDER BY ... LIMIT k` keeps min(k, n) rows, in order, drawn from the input, and no row left out ranks above one kept |
| Records.TasksOf | backend/services/aiService.js:96 | the tasks kept are exactly those whose `employee_id` is the employee's id |
| Middleware.OrgIdOf | backend/middleware/auth.js:15 | the tenant is `orgId` when it is truthy, else the principal's `id` |
| Middleware.Authenticate | backend/middleware/auth.js:6-20 | no truthy token gives 401 "Please log in"; a token that fails verification gives 401 "Session expired..."; otherwise the principal is the decoded payload with its tenant |
| Middleware.FreshTokenAuthenticates | backend/middleware/auth.js:10-16 | a token this server signed passes until it expires, with its payload unchanged |
| Middleware.ExpiredTokenRejected | backend/middleware/auth.js:17-19 | from its expiry on, the same token is refused as an expired session |
| Middleware.AdminOnly | backend/middleware/auth.js:24-29 | passes iff the role is `admin`, otherwise 403 "Admin access required" |
| Middleware.EmployeeOnly | backend/middleware/auth.js:32-37 | passes iff the role is `employee`, otherwise 403 "Employee access required" |
| Middleware.GuardsExclusive | backend/middleware/auth.js:24-37 | no session passes both guards |
| Middleware.AuthenticateAdmin | backend/routes/employees.js:8-9 | the middleware then the admin guard: its 401s pass through; a non-admin session gets 403; an admin session gets the principal |
| Middleware.AuthMiddleware | backend/middleware/auth.js:6-20 | `next()` is called iff authentication succeeds; then `req.user` and `req.org` hold the principal and the response is untouched; otherwise the request is untouched, the response carries the 401, and the cookie is cleared exactly when a token was present |
| Http.Truthy | backend/routes/tasks.js:75 | a body string is truthy iff it is present and non-empty |
| Http.OrNull | backend/routes/tasks.js:87 | `s || null` keeps a truthy string and gives null otherwise |
| Http.OrDefault | backend/routes/tasks.js:87 | `s || fallback` keeps a truthy string and gives the fallback otherwise |
| Http.Coalesce | backend/routes/tasks.js:105-111 | `COALESCE` takes the supplied value, or keeps the current one when none is supplied |
| AiService.TaskStats | backend/services/aiService.js:26-37 | total is the task count; completed counts the Completed tasks, overdue the tasks overdue at `now`, on-time the tasks completed on time; on-time <= completed <= total; overdue + completed <= total |
| AiService.IsOverdue | backend/services/aiService.js:30-32 | an overdue task has a due date and is not completed |
| AiService.OverdueStaysOverdue | backend/services/aiService.js:30-32 | a task overdue at one time is still overdue at any later time |
| AiService.IsCompletedOnTime | backend/services/aiService.js:34-37 | a task completed on time is completed and has both a due date and a completion time |
| AiService.BaseScore | backend/services/aiService.js:39 | the completion percentage lies in [0, 100] |
| AiService.SpeedBonus | backend/services/aiService.js:40 | the on-time bonus lies in [0, 10] and is 0 without completed tasks |
| AiService.OverduePenalty | backend/services/aiService.js:41 | the penalty is min(5 * overdue, 20), never above 20 |
| AiService.ScoreOf | backend/services/aiService.js:39-42 | the score of a non-empty history is the integer within half of the clamped base + bonus - penalty, in [0, 100] |
| AiService.GradeFor | backend/services/aiService.js:44-49 | grade A iff score >= 85, B iff 70..84, C iff 50..69, D iff 30..49, F iff below 30 |
| AiService.InsightFor | backend/services/aiService.js:45-49 | every grade has a non-empty sentence |
| AiService.InsightNamesTheGrade | backend/services/aiService.js:45-49 | the five grades have five different sentences |
| AiService.CalculateProductivityScore | backend/services/aiService.js:16-56 | no tasks gives score 0, grade N/A and zero breakdown and stats; otherwise stats, score, grade and insight follow the counts, and the breakdown holds the rounded base, the rounded speed bonus and the penalty; the score is always in [0, 100] |
| AiService.PenaltySaturates | backend/services/aiService.js:41 | the penalty reaches its cap of 20 exactly from four overdue tasks on |
| AiService.ScoreNonIncreasingInOverdue | backend/services/aiService.js:39-42 | with the other counts fixed, more overdue tasks never raise the score |
| AiService.ScoreIgnoresTaskOrder | backend/services/aiService.js:26-56 | the whole result depends only on the multiset of tasks, not their order |
| AiService.WorkedExampleScore | backend/services/aiService.js:39-49 | ten tasks, eight completed, two overdue, six on time: base 80, bonus 8, penalty 10, score 78, grade B |
| AiService.RoleSkills | backend/services/aiService.js:74 | the skills `required` holds when `detectSkillGap` does not throw: the catalogue entry for a catalogued role, none for any other |
| AiService.LookupRole | backend/services/aiService.js:60-74 | the lookup finds the catalogue's own keys first, then the function-valued members every object inherits, with their parameter counts; any other name finds nothing |
| AiService.ThrowingRoles | backend/services/aiService.js:74-81 | exactly eight role names (`constructor`, `hasOwnProperty`, `isPrototypeOf`, `propertyIsEnumerable` and the four getter/setter helpers) make `detectSkillGap` throw |
| AiService.KnownRolesExpectSkills | backend/services/aiService.js:60-71 | every catalogued role requires at least five skills |
| AiService.NormalizeSkills | backend/services/aiService.js:78 | each declared skill is lower-cased then trimmed, position by position |
| AiService.SkillMatched | backend/services/aiService.js:80 | no declared skills match nothing, and a label that is itself a declared skill is matched |
| AiService.Coverage | backend/services/aiService.js:82 | coverage is the integer within half of (required - missing) / required * 100, as `Math.round` gives; it lies in [0, 100], is 100 with nothing missing and 0 with everything missing |
| AiService.MissingSkills | backend/services/aiService.js:79-81 | missing is an order-preserving subsequence of required, as long as the count of unmatched required entries (repeats included), holding exactly the required skills no normalized declared skill matches in either direction |
| AiService.DetectSkillGap | backend/services/aiService.js:73-84 | the call throws iff the role names an inherited method with parameters; otherwise it answers the gap for the role's skills: `has` is the declared skills unchanged, required is the catalogue entry (none for an unknown role, then coverage 100), missing is exactly the unmatched required skills, in order, and, being `GapFor` of those, coverage is `Coverage(|required|, |missing|)` when something is required, in [0, 100] |
| AiService.GapFor | backend/services/aiService.js:74-84 | for a required list and declared skills: nothing required gives the full-coverage answer; missing is an in-order subsequence of exactly the unmatched required skills, one entry per unmatched required entry; coverage is `Coverage(|required|, |missing|)`, within 0..100, 100 with nothing missing, 0 with everything missing |
| AiService.UnknownRoleHasNoGap | backend/services/aiService.js:74-77 | a role outside the catalogue either throws (an inherited method's name) or has nothing required, nothing missing and coverage 100 |
| AiService.BlankSkillMatchesEverything | backend/services/aiService.js:78-80 | a declared skill that trims to "" matches every required skill |
| AiService.BlankSkillClosesEveryGap | backend/services/aiService.js:73-84 | an employee with such a blank skill, whenever the call does not throw, misses nothing and has coverage 100 |
| AiService.DesignerExample | backend/services/aiService.js:73-84 | a Designer declaring Figma and css misses UI/UX, Prototyping and User Research, coverage 40 |
| AiService.LowerAll | backend/services/aiService.js:91 | the required skills are lower-cased, position by position (not trimmed) |
| AiService.SkillScore | backend/services/aiService.js:103 | the skill score is matched / required * 50 when skills are required and 50 otherwise, so it lies in [0, 50] and is 50 when all are matched |
| AiService.WorkloadScore | backend/services/aiService.js:104 | the workload score is 30 - 6 * active below five active tasks and 0 from five on, so it lies in [0, 30] |
| AiService.ProdContrib | backend/services/aiService.js:105-106 | the productivity contribution is score / 100 * 20, in [0, 20] |
| AiService.TotalScore | backend/services/aiService.js:107 | the total is the integer within half of the three parts' sum, in [0, 100] |
| AiService.TotalScoreMonotone | backend/services/aiService.js:103-107 | the total never falls with more matched skills, fewer active tasks or a higher productivity score |
| AiService.Evaluate | backend/services/aiService.js:95-117 | active tasks count the employee's non-completed tasks; matched skills are exactly, and in order, the lower-cased required labels some normalized skill matches, a repeated label kept once per occurrence (the count of matching entries); the total is the rounded sum of the skill score, the workload score and the productivity contribution of the employee's own productivity score; the breakdown holds each part rounded |
| AiService.RanksAtLeastIsTotalPreorder | backend/services/aiService.js:119 | comparing by total score is a total preorder |
| AiService.RecommendEmployee | backend/services/aiService.js:88-120 | no employees gives []; the output holds every active employee exactly once, each entry is that employee's evaluation, totals are non-increasing, and ties keep input order |
| TaskRoutes.WhereSnoc | backend/routes/tasks.js:23-35 | appending an `AND` clause narrows the query by exactly that clause |
| TaskRoutes.EmployeeFilterIgnored | backend/routes/tasks.js:32-35 | for an employee the `employee_id` filter changes nothing |
| TaskRoutes.NewerFirstIsTotalPreorder | backend/routes/tasks.js:36 | `created_at DESC` is a total preorder |
| TaskRoutes.Visible | backend/routes/tasks.js:50-61 | a visible task is in the principal's org, and an employee's own; an admin sees every task of the org |
| TaskRoutes.NewTask | backend/routes/tasks.js:83-87 | the inserted row has the title, an assignee iff a truthy one is given, `description || null`, no skills when none are given, priority `priority || 'Medium'`, the due date, no completion or hash, and is created now |
| TaskRoutes.ValidStatus | backend/routes/tasks.js:126-130 | a status is accepted iff it is Assigned, In Progress or Completed |
| TaskRoutes.CreateDefaults | backend/routes/tasks.js:83-87 | a task created from a title alone has priority Medium, no skills, no assignee, no description and no due date |
| TaskRoutes.Coalesced | backend/routes/tasks.js:104-114 | each editable column takes the supplied value or keeps the old one; id, org, status, completion and creation time never change |
| TaskRoutes.EditNeverUnassigns | backend/routes/tasks.js:106 | an edit never clears an assignee |
| TaskRoutes.EditIdentityAndIdempotence | backend/routes/tasks.js:104-114 | an empty edit changes nothing, and repeating an edit has no further effect |
| TaskRoutes.WithStatus | backend/routes/tasks.js:146-150 | the status is set; `completed_at` is present iff the status is Completed, and is then `now`; the hash is the supplied one iff it is truthy; nothing else changes |
| TaskRoutes.ReopeningClearsCompletion | backend/routes/tasks.js:146-148 | moving a task out of Completed erases its completion time |
| TaskRoutes.TaskTable.ListConditions | backend/routes/tasks.js:14-35 | the clauses pushed one by one select exactly the listed tasks |
| TaskRoutes.TaskTable.List | backend/routes/tasks.js:9-44 | auth failures pass through; the result holds exactly the tasks of the caller's org (and, for an employee, their own), narrowed by status and, for admins only, by employee, each once, newest first |
| TaskRoutes.TaskTable.SelectVisible | backend/routes/tasks.js:50-63 | the rows are exactly the tasks with that id the principal may see |
| TaskRoutes.TaskTable.Get | backend/routes/tasks.js:47-69 | success iff a task with that id is in the caller's org and, for an employee, assigned to them; 404 otherwise |
| TaskRoutes.TaskTable.Create | backend/routes/tasks.js:72-94 | admin only; 400 without a title or when the given employee is not in the org, table unchanged; otherwise exactly one new row with a fresh id is appended, 201 |
| TaskRoutes.TaskTable.Update | backend/routes/tasks.js:97-121 | admin only; 404 with the table unchanged unless the task is in the org; otherwise only that row is COALESCE-edited |
| TaskRoutes.CoalesceRows | backend/routes/tasks.js:104-114 | the edit statement rewrites exactly the row with that id in that org, and keeps ids unique and below the sequence |
| TaskRoutes.TaskTable.PatchStatus | backend/routes/tasks.js:124-156 | any session; a status outside the three gives 400 and an invisible task 404, table unchanged; otherwise only that row's status, completion and hash change, and only a row the caller may see |
| TaskRoutes.TaskTable.SetStatus | backend/routes/tasks.js:147-150 | the row with that id gets the new status, completion and hash; every other row is unchanged |
| TaskRoutes.TaskTable.Delete | backend/routes/tasks.js:159-170 | admin only; removes exactly the task with that id in the org (one row fewer), otherwise 404 and the table unchanged |
| EmployeeRoutes.Summarize | backend/routes/employees.js:15-18 | the row shows the employee's columns; active_tasks counts that employee's tasks not Completed and completed_tasks those Completed, over the whole tasks table; together they count every task assigned to them |
| EmployeeRoutes.Detail | backend/routes/employees.js:33-37 | total_tasks counts the tasks assigned to the employee; active_tasks the ones not Completed, completed_tasks the Completed ones; active + completed = total |
| EmployeeRoutes.SplitOpenDone | backend/routes/employees.js:35-37 | open and done tasks of an employee partition their assigned tasks |
| EmployeeRoutes.OwnTasksByStatus | backend/routes/employees.js:35-36 | counting an employee's open (done) tasks in the whole table equals counting the open (done) tasks among that employee's tasks |
| EmployeeRoutes.JoinedLaterIsTotalPreorder | backend/routes/employees.js:19 | `joined_at DESC` is a total preorder |
| EmployeeRoutes.LongEnough | backend/routes/employees.js:59 | a long enough password is truthy, and a truthy password of at least six characters is long enough |
| EmployeeRoutes.HasRequiredFields | backend/routes/employees.js:52 | the create route goes on iff name, email, role and department are all truthy |
| EmployeeRoutes.NewEmployee | backend/routes/employees.js:58-67 | the inserted row has the body's fields, no skills when none are given, a wallet iff a truthy one is given, and a hash iff the password is long enough, which then matches it |
| EmployeeRoutes.HashIfLongEnough | backend/routes/employees.js:58-61 | a hash is stored iff the password has at least six characters, and it matches that password |
| EmployeeRoutes.Edited | backend/routes/employees.js:88-109 | each editable column takes the supplied value or keeps the old one; the hash changes only for a password of at least six characters; id, org and join time never change |
| EmployeeRoutes.EditIdentityAndIdempotence | backend/routes/employees.js:99-109 | an empty edit changes nothing, and repeating an edit has no further effect |
| EmployeeRoutes.EditedPasswordLogsIn | backend/routes/employees.js:90-94 | after an edit with a long enough password, exactly that password matches |
| EmployeeRoutes.EmployeeTable.List | backend/routes/employees.js:12-27 | admin only; one summary row per employee of the caller's org and no other, newest join first |
| EmployeeRoutes.EmployeeTable.Get | backend/routes/employees.js:30-46 | admin only; success iff that employee is in the org, with its detail row; 404 otherwise |
| EmployeeRoutes.EmployeeTable.Create | backend/routes/employees.js:49-77 | admin only; 400 without name, email, role or department; 409 for an email already present; both leave the table unchanged; otherwise exactly one new row is appended, 201 |
| EmployeeRoutes.EmployeeTable.Update | backend/routes/employees.js:80-117 | admin only; 404 unless the employee is in the org; an email another employee has fails with the 500 "Failed to update employee"; both leave the table unchanged; otherwise only that row is edited and emails stay unique |
| EmployeeRoutes.EmployeeTable.KeptEmailIsFree | backend/routes/employees.js:101 | an edit that keeps the email cannot clash with another employee |
| EmployeeRoutes.EmployeeTable.EditRows | backend/routes/employees.js:98-111 | the `UPDATE` edits the one row with that id and org and keeps every other row |
| EmployeeRoutes.EmployeeTable.Delete | backend/routes/employees.js:120-131 | admin only; removes exactly the employee with that id in the org (one row fewer), otherwise 404 and the table unchanged |
| AuthRoutes.AdminSessionActsForItsOrg | backend/routes/auth.js:35-38 | an admin token carries id = orgId = the org's id and role admin; until it expires it passes the middleware for that org and the admin guard but not the employee guard |
| AuthRoutes.EmployeeSessionActsForItsOrg | backend/routes/auth.js:96-99 | an employee token carries the employee's id, org and role employee; it passes the middleware for that org and the employee guard but not the admin guard |
| AuthRoutes.AdminPayload | backend/routes/auth.js:35-38 | an admin token's claims are the org's id, name and email with role admin, and its tenant is the org |
| AuthRoutes.EmployeePayload | backend/routes/auth.js:96-99 | an employee token's claims are the employee's id, name, email and department with role employee, and its tenant is the employee's org |
| AuthRoutes.OrgOf | backend/routes/auth.js:82-85 | the join finds an organization iff one has that id |
| AuthRoutes.CanSignInSelects | backend/routes/auth.js:81-86 | the login query selects exactly the active employees with that email whose org exists |
| AuthRoutes.AdminLogin | backend/routes/auth.js:48-73 | 400 without email or password; every other failure is the same 401, including an unknown email; success means an org with that email whose hash the password matches, answered with its admin token and account |
| AuthRoutes.AdminLoginExactlyWithPassword | backend/routes/auth.js:53-58 | with unique org emails, an org's admin logs in iff the password matches, and then gets that org's token |
| AuthRoutes.EmployeeLogin | backend/routes/auth.js:76-112 | 400 without email or password; every other failure the same 401; success means an active employee with that email, of an existing org, with a stored hash the password matches |
| AuthRoutes.EmployeeLoginExactlyWithPassword | backend/routes/auth.js:81-94 | with unique employee emails, an employee logs in iff active, in an existing org, with a hash the password matches |
| AuthRoutes.Me | backend/routes/auth.js:121-149 | 401 without a token, 401 for a token that fails verification; an employee session succeeds iff the employee is active in an existing org, any other session iff its org exists; otherwise 401 Account not found |
| AuthRoutes.AdminLoginThenMe | backend/routes/auth.js:60-145 | until it expires, the token an admin login issues makes `/me` answer with that login's account |
| AuthRoutes.AdminMe | backend/routes/auth.js:139-145 | until it expires, an organization's token makes `/me` answer with that organization's account (ids unique) |
| AuthRoutes.EmployeeMe | backend/routes/auth.js:128-136 | until it expires, an employee's token makes `/me` answer with that employee's account |
| AuthRoutes.EmployeeLoginThenMe | backend/routes/auth.js:96-136 | until it expires, the token an employee login issues makes `/me` answer with that login's account |
| AuthRoutes.Logout | backend/routes/auth.js:115-118 | the token cookie is cleared and the answer is ok |
| AuthRoutes.OrgTable.Register | backend/routes/auth.js:17-45 | 400 without name, email or password and 409 for a registered email, both leaving table and cookie unchanged; success iff neither, and then exactly the new org (fresh id, hashed password) is appended, 201, and the admin token cookie is set |
| AuthRoutes.RegisteredAdminLogsIn | backend/routes/auth.js:27-58 | after registering, the admin logs in with the registration password and no other |
| DashboardRoutes.CountEmployees | backend/routes/dashboard.js:22-29 | total counts the org's employees, active the active ones, and total = active + inactive |
| DashboardRoutes.StatusCountsBounded | backend/routes/dashboard.js:32-36 | the three status counts sum to at most the total |
| DashboardRoutes.CountTasks | backend/routes/dashboard.js:31-40 | total counts the org's tasks; assigned, in_progress and completed count the tasks with that status; overdue uses the scorer's overdue rule; the status counts sum to at most total; overdue + completed <= total |
| DashboardRoutes.CompletionRate | backend/routes/dashboard.js:50-52 | 0 with no tasks, otherwise the completion percentage rounded, in [0, 100], and 100 when all are completed |
| DashboardRoutes.TopRow | backend/routes/dashboard.js:43-56 | an employee's row carries their id, name, role and department, counts the org's tasks assigned to them and the Completed ones among those, and its score is their completion rate |
| DashboardRoutes.RanksAboveIsTotalPreorder | backend/routes/dashboard.js:57 | score then completed count, both descending, is a total preorder |
| DashboardRoutes.ActiveRows | backend/routes/dashboard.js:53-56 | one row per active employee of the org and no other |
| DashboardRoutes.TopEmployees | backend/routes/dashboard.js:42-60 | min(5, active) rows, a sub-multiset of the active org employees' rows (so no employee twice), ordered by score then completed count, and no row left out ranks above one kept |
| DashboardRoutes.RecentTasks | backend/routes/dashboard.js:62-69 | min(5, n) of the org's tasks, newest first, and none left out is newer than one kept |
| DashboardRoutes.LargerFirstIsTotalPreorder | backend/routes/dashboard.js:74 | `count DESC` is a total preorder |
| DashboardRoutes.DepartmentRows | backend/routes/dashboard.js:72-74 | one row per distinct department of the active employees |
| DashboardRoutes.DeptBreakdown | backend/routes/dashboard.js:71-76 | the departments listed are exactly those of the active employees, each once, with its positive head count, largest first |
| DashboardRoutes.GetDashboard | backend/routes/dashboard.js:10-85 | admin only; the dashboard is exactly the employee counts, task counts, top employees, recent tasks and department breakdown of the caller's org; the two totals count the org's rows and every listed row belongs to the org |
| DashboardRoutes.TenantScoped | backend/routes/dashboard.js:22-76 | every top row, recent task and department of the dashboard belongs to the org |
| DashboardRoutes.TopEmployeesInOrg | backend/routes/dashboard.js:53-55 | each top row is for an active employee of the org |
| DashboardRoutes.RecentTasksInOrg | backend/routes/dashboard.js:66-67 | each recent task is a task of the org |
| DashboardRoutes.DepartmentsInOrg | backend/routes/dashboard.js:73 | each department belongs to an active employee of the org |
| AiRoutes.NameOrderIsTotalPreorder | backend/routes/ai.js:14 | `ORDER BY name` is a total preorder |
| AiRoutes.StaffByName | backend/routes/ai.js:14 | the org's employees, each once, in name order |
| AiRoutes.StaffMember | backend/routes/ai.js:46 | a listed employee belongs to the org |
| AiRoutes.StaffExactly | backend/routes/ai.js:46 | the listed employees are exactly the org's employees |
| AiRoutes.HigherScoreIsTotalPreorder | backend/routes/ai.js:33 | comparing by score is a total preorder |
| AiRoutes.ScoreRow | backend/routes/ai.js:21-32 | an entry carries the employee's columns and the productivity result over exactly that employee's tasks |
| AiRoutes.ScoreRows | backend/routes/ai.js:14-32 | the unsorted entries are in name order |
| AiRoutes.Productivity | backend/routes/ai.js:11-40 | admin only; one entry per org employee, inactive included, each scored over its own org tasks; scores descending; equal scores keep name order |
| AiRoutes.ProductivityFacts | backend/routes/ai.js:21-33 | the sorted entries are a permutation of the per-employee scores, by score, with each tie class in name order |
| AiRoutes.GapRow | backend/routes/ai.js:49-56 | an entry carries the employee's columns and the gap for the role's skills, which is `detectSkillGap`'s answer whenever it does not throw |
| AiRoutes.SkillGaps | backend/routes/ai.js:43-62 | admin only; 500 iff `detectSkillGap` throws for some employee of the org; otherwise the entries are a permutation of one row per org employee, in name order, each with that employee's `detectSkillGap` result |
| AiRoutes.Assign | backend/routes/ai.js:65-86 | admin only; 400 without a title; otherwise exactly `recommendEmployee` over the org's active employees and the org's tasks, skills defaulting to none, so every recommendation is an active employee of the org |
| AiRoutes.RecommendedAreActiveStaff | backend/routes/ai.js:70-81 | every recommended employee is an active employee of the org |

## Left out

- The Gemini natural-language helpers (`getGeminiInsight` and its callers) are calls to a foreign model over the network.
- The database connection, its retry loop, `Promise.all` concurrency and every 500 answer to a failing query are I/O. Two exceptions are modelled: the employee edit's email clash, and the skill-gap route's 500 when `detectSkillGap` throws.
- AiService.LookupRole: assumes `Object.prototype` is the standard one. A prototype extended at run time would add more names to the lookup.
- bcrypt and JSON Web Tokens are foreign cryptography, modelled by `Digest` and `Signed`. Salting, one-wayness, secrets and token tampering beyond "unverifiable" are not modelled.
- IEEE-754 floating point is not modelled. All arithmetic is exact, with `Math.round` as floor(x + 1/2).
- Cookie options, JSON framing and response headers are not modelled. A response is a status with a value or an error.
- The schema defaults for the initial task status and `is_active` are constructor constants. Cascades on deleting an employee or organization are not modelled, because the schema is not part of this model.
- Text.ToLower: lower-cases ASCII letters only. `toLowerCase` also maps non-ASCII capitals.
- AiRoutes.StaffByName: orders names by character code. The database collation may use a locale order.
- EmployeeRoutes.LongEnough counts characters as code points. JavaScript's `length` counts UTF-16 units.
- TaskRoutes.TaskTable.List: returns task rows without the joined `employee_name` and `employee_role` columns. `Get` likewise omits `employee_department`.
- DashboardRoutes.RecentTasks: returns whole task rows rather than the selected columns plus `employee_name`.
- AuthRoutes.AdminLogin: returns the token it would set as the cookie inside its value, instead of writing a response. `EmployeeLogin` does the same.
- AuthRoutes.OrgTable.Register: the answer omits the database's `created_at`. The check-then-insert race between concurrent registrations is not modelled.
- EmployeeRoutes.EmployeeTable.Create: email uniqueness is taken to be global over the employees table. The scope of the database's unique constraint is not part of this model.
- DashboardRoutes.TopEmployees: rows equal in score and completed count may come in any order in SQL. The contract states only the ranking, not their order.
- DashboardRoutes.DeptBreakdown: departments with equal counts may come in any order in SQL. The contract states only the count order.
- DashboardRoutes.CountEmployees: assumes `is_active` is never null, so inactive is total minus active.
- A missing `skills` or `required_skills` is modelled as the empty list. A `null` and an absent array are the same input here.
