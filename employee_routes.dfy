/** The employee routes (`/api/employees`) over an in-memory employees
    table. Every route runs behind the session middleware and the admin
    guard, and touches only the admin's own organization. */
module EmployeeRoutes {
  import opened Wrappers
  import opened Seqs
  import opened Sorting
  import opened Crypto
  import opened Records
  import opened Http
  import opened Middleware

  const EMPLOYEE_NOT_FOUND: string := "Employee not found"
  const FIELDS_REQUIRED: string := "Name, email, role, and department are required"
  const DUPLICATE_EMAIL: string := "An employee with this email already exists"
  const UPDATE_FAILED: string := "Failed to update employee"

  /** The shortest password for which an employee login is set up. */
  const MIN_PASSWORD_LENGTH: nat := 6

  /** The columns the routes return: never the password hash, never the org. */
  datatype EmployeeView = EmployeeView(
    id: nat,
    name: string,
    email: string,
    role: string,
    department: string,
    skills: seq<string>,
    walletAddress: Option<string>,
    isActive: bool,
    joinedAt: int)

  function View(e: Employee): EmployeeView {
    EmployeeView(e.id, e.name, e.email, e.role, e.department, e.skills, e.walletAddress, e.isActive, e.joinedAt)
  }

  /** Open tasks: assigned to the employee and not Completed. */
  function OpenTaskOf(employeeId: nat): Task -> bool {
    (t: Task) => t.employeeId == Some(employeeId) && t.status != COMPLETED
  }

  function DoneTaskOf(employeeId: nat): Task -> bool {
    (t: Task) => t.employeeId == Some(employeeId) && t.status == COMPLETED
  }

  /** A row of the list route: the employee and the two task-count columns. */
  datatype EmployeeSummary = EmployeeSummary(view: EmployeeView, activeTasks: nat, completedTasks: nat)

  /** A row of the single-employee route, which adds the total. */
  datatype EmployeeDetail = EmployeeDetail(view: EmployeeView, activeTasks: nat, completedTasks: nat, totalTasks: nat)

  /** The counts over the whole tasks table of the tasks assigned to `e`:
      of those, the ones still open and the completed ones; every one of
      them is one or the other. */
  function Summarize(e: Employee, tasks: seq<Task>): (s: EmployeeSummary)
    ensures s.view == View(e)
    ensures s.activeTasks == Count(TasksOf(tasks, e.id), IsActiveTask)
    ensures s.completedTasks == Count(TasksOf(tasks, e.id), IsCompleted)
    ensures s.activeTasks + s.completedTasks == |TasksOf(tasks, e.id)|
  {
    SplitOpenDone(tasks, e.id);
    OwnTasksByStatus(tasks, e.id);
    EmployeeSummary(View(e), Count(tasks, OpenTaskOf(e.id)), Count(tasks, DoneTaskOf(e.id)))
  }

  /** The single-employee row adds the number of tasks assigned to `e`. */
  function Detail(e: Employee, tasks: seq<Task>): (d: EmployeeDetail)
    ensures d.view == View(e)
    ensures d.totalTasks == |TasksOf(tasks, e.id)|
    ensures d.activeTasks == Count(TasksOf(tasks, e.id), IsActiveTask)
    ensures d.completedTasks == Count(TasksOf(tasks, e.id), IsCompleted)
    ensures d.activeTasks + d.completedTasks == d.totalTasks
  {
    var s := Summarize(e, tasks);
    EmployeeDetail(s.view, s.activeTasks, s.completedTasks, Count(tasks, AssignedTo(e.id)))
  }

  /** Counting an employee's open (done) tasks over the whole table is
      counting the open (done) ones among that employee's tasks. */
  lemma OwnTasksByStatus(tasks: seq<Task>, employeeId: nat)
    ensures Count(tasks, OpenTaskOf(employeeId)) == Count(TasksOf(tasks, employeeId), IsActiveTask)
    ensures Count(tasks, DoneTaskOf(employeeId)) == Count(TasksOf(tasks, employeeId), IsCompleted)
  {
    FilterFilter(tasks, AssignedTo(employeeId), IsActiveTask, OpenTaskOf(employeeId));
    FilterFilter(tasks, AssignedTo(employeeId), IsCompleted, DoneTaskOf(employeeId));
  }

  /** Counting the open and the done tasks of an employee covers each of
      their tasks exactly once. */
  lemma {:induction false} SplitOpenDone(tasks: seq<Task>, employeeId: nat)
    ensures Count(tasks, OpenTaskOf(employeeId)) + Count(tasks, DoneTaskOf(employeeId))
         == Count(tasks, AssignedTo(employeeId))
  {
    if tasks != [] {
      SplitOpenDone(tasks[1..], employeeId);
      assert tasks == [tasks[0]] + tasks[1..];
      FilterConcat([tasks[0]], tasks[1..], OpenTaskOf(employeeId));
      FilterConcat([tasks[0]], tasks[1..], DoneTaskOf(employeeId));
      FilterConcat([tasks[0]], tasks[1..], AssignedTo(employeeId));
    }
  }

  function SummaryWith(tasks: seq<Task>): Employee -> EmployeeSummary {
    (e: Employee) => Summarize(e, tasks)
  }

  function EmployeeInOrg(orgId: nat): Employee -> bool {
    (e: Employee) => e.orgId == orgId
  }

  /** `ORDER BY e.joined_at DESC`. */
  predicate JoinedLater(a: EmployeeSummary, b: EmployeeSummary) {
    a.view.joinedAt >= b.view.joinedAt
  }

  lemma JoinedLaterIsTotalPreorder()
    ensures TotalPreorder(JoinedLater)
  {
  }

  /** The body of the create and edit routes; an absent or `null` field is `None`. */
  datatype EmployeeBody = EmployeeBody(
    name: Option<string>,
    email: Option<string>,
    role: Option<string>,
    department: Option<string>,
    skills: Option<seq<string>>,
    walletAddress: Option<string>,
    isActive: Option<bool>,
    password: Option<string>)

  /** `password && password.length >= 6`. */
  function LongEnough(password: Option<string>): (b: bool)
    ensures b ==> Truthy(password)
    ensures Truthy(password) && |password.value| >= MIN_PASSWORD_LENGTH ==> b
  {
    password.Some? && |password.value| >= MIN_PASSWORD_LENGTH
  }

  /** The hash stored on create: one for a long enough password, none otherwise. */
  function HashIfLongEnough(password: Option<string>): (h: Option<PasswordHash>)
    ensures h.Some? <==> LongEnough(password)
    ensures h.Some? ==> PasswordMatches(password.value, h.value)
  {
    if LongEnough(password) then Some(HashPassword(password.value)) else None
  }

  /** The create route's required fields are all truthy. */
  function HasRequiredFields(body: EmployeeBody): (b: bool)
    ensures b <==> forall f :: f in [body.name, body.email, body.role, body.department] ==> Truthy(f)
  {
    Truthy(body.name) && Truthy(body.email) && Truthy(body.role) && Truthy(body.department)
  }

  /** The row the create route inserts; `isActive` is the schema default. */
  function NewEmployee(id: nat, orgId: nat, body: EmployeeBody, isActive: bool, now: int): (e: Employee)
    requires HasRequiredFields(body)
    ensures e.id == id && e.orgId == orgId && e.isActive == isActive && e.joinedAt == now
    ensures e.name == body.name.value && e.email == body.email.value
    ensures e.role == body.role.value && e.department == body.department.value
    ensures e.skills == body.skills.GetOr([])
    ensures e.walletAddress.Some? <==> Truthy(body.walletAddress)
    ensures e.passwordHash.Some? <==> LongEnough(body.password)
    ensures e.passwordHash.Some? ==> PasswordMatches(body.password.value, e.passwordHash.value)
  {
    Employee(id, orgId, body.name.value, body.email.value, HashIfLongEnough(body.password),
             body.role.value, body.department.value, body.skills.GetOr([]),
             OrNull(body.walletAddress), isActive, now)
  }

  /** The edit route: `COALESCE` on every editable column, and a new hash only
      for a long enough password. */
  function Edited(e: Employee, body: EmployeeBody): (u: Employee)
    ensures u.id == e.id && u.orgId == e.orgId && u.joinedAt == e.joinedAt
    ensures u.name == Coalesce(body.name, e.name) && u.email == Coalesce(body.email, e.email)
    ensures u.role == Coalesce(body.role, e.role) && u.department == Coalesce(body.department, e.department)
    ensures u.skills == Coalesce(body.skills, e.skills)
    ensures u.walletAddress == if body.walletAddress.Some? then body.walletAddress else e.walletAddress
    ensures u.isActive == Coalesce(body.isActive, e.isActive)
    ensures LongEnough(body.password) ==> u.passwordHash == Some(HashPassword(body.password.value))
    ensures !LongEnough(body.password) ==> u.passwordHash == e.passwordHash
  {
    e.(name := Coalesce(body.name, e.name),
       email := Coalesce(body.email, e.email),
       role := Coalesce(body.role, e.role),
       department := Coalesce(body.department, e.department),
       skills := Coalesce(body.skills, e.skills),
       walletAddress := if body.walletAddress.Some? then body.walletAddress else e.walletAddress,
       isActive := Coalesce(body.isActive, e.isActive),
       passwordHash := if LongEnough(body.password) then Some(HashPassword(body.password.value)) else e.passwordHash)
  }

  /** An edit with nothing in it changes nothing, and repeating an edit has
      no further effect. */
  lemma EditIdentityAndIdempotence(e: Employee, body: EmployeeBody)
    ensures Edited(e, EmployeeBody(None, None, None, None, None, None, None, None)) == e
    ensures Edited(Edited(e, body), body) == Edited(e, body)
  {
  }

  /** After an edit with a long enough password, exactly that password logs in. */
  lemma EditedPasswordLogsIn(e: Employee, body: EmployeeBody, attempt: string)
    requires LongEnough(body.password)
    ensures Edited(e, body).passwordHash.Some?
    ensures PasswordMatches(attempt, Edited(e, body).passwordHash.value) <==> attempt == body.password.value
  {
  }

  function EditWhere(id: nat, orgId: nat, body: EmployeeBody): Employee -> Employee {
    (e: Employee) => if e.id == id && e.orgId == orgId then Edited(e, body) else e
  }

  function SameEmployee(id: nat, orgId: nat): Employee -> bool {
    (e: Employee) => e.id == id && e.orgId == orgId
  }

  function OtherEmployee(id: nat, orgId: nat): Employee -> bool {
    (e: Employee) => !(e.id == id && e.orgId == orgId)
  }

  /** `WHERE id = $ AND org_id = $` selects the employees with that id in that
      org, and its negation all the others. */
  lemma SameEmployeeRows(employees: seq<Employee>, id: nat, orgId: nat)
    ensures forall e :: e in Filter(employees, SameEmployee(id, orgId))
                    <==> e in employees && e.id == id && e.orgId == orgId
  {
    forall e ensures e in Filter(employees, SameEmployee(id, orgId))
                 <==> e in employees && e.id == id && e.orgId == orgId {
      FilterMembership(employees, SameEmployee(id, orgId), e);
    }
  }

  lemma OtherEmployeeRows(employees: seq<Employee>, id: nat, orgId: nat)
    ensures forall e :: e in Filter(employees, OtherEmployee(id, orgId))
                    <==> e in employees && !(e.id == id && e.orgId == orgId)
  {
    forall e ensures e in Filter(employees, OtherEmployee(id, orgId))
                 <==> e in employees && !(e.id == id && e.orgId == orgId) {
      FilterMembership(employees, OtherEmployee(id, orgId), e);
    }
  }

  /** The employees table. `nextId` stands for the id sequence and
      `defaultActive` for the schema's default `is_active`. */
  class EmployeeTable {
    var employees: seq<Employee>
    var nextId: nat
    const defaultActive: bool

    /** Ids are a primary key, all from the sequence, and emails are unique. */
    ghost predicate Valid()
      reads this
    {
      && DistinctBy(employees, EmployeeKey)
      && DistinctBy(employees, EmployeeEmail)
      && (forall i :: 0 <= i < |employees| ==> employees[i].id < nextId)
    }

    constructor(defaultActive: bool)
      ensures Valid() && employees == [] && this.defaultActive == defaultActive
    {
      employees := [];
      nextId := 1;
      this.defaultActive := defaultActive;
    }

    /** `GET /api/employees`: one row per employee of the admin's org, with
      its task counts over `tasks`, newest joined first. */
    method List(cookie: Option<Token>, now: int, tasks: seq<Task>) returns (r: Outcome<seq<EmployeeSummary>>)
      ensures var a := AuthenticateAdmin(cookie, now);
              && (a.Failure? ==> r == Failure(a.status, a.error))
              && (a.Success? ==> r.Success? && r.status == OK)
      ensures r.Success? ==> var orgId := AuthenticateAdmin(cookie, now).value.orgId;
              && multiset(r.value) == multiset(Map(Filter(employees, EmployeeInOrg(orgId)), SummaryWith(tasks)))
              && (forall i, j :: 0 <= i < j < |r.value| ==> r.value[i].view.joinedAt >= r.value[j].view.joinedAt)
              && (forall s :: s in r.value ==> exists e :: e in employees && e.orgId == orgId && s == Summarize(e, tasks))
    {
      var a := AuthenticateAdmin(cookie, now);
      if a.Failure? {
        return Failure(a.status, a.error);
      }
      var orgId := a.value.orgId;
      var mine := Filter(employees, EmployeeInOrg(orgId));
      var rows := Map(mine, SummaryWith(tasks));
      var sorted := SortBy(rows, JoinedLater);
      JoinedLaterIsTotalPreorder();
      SortBySorted(rows, JoinedLater);
      SameElements(sorted, rows);
      forall s | s in sorted ensures exists e :: e in employees && e.orgId == orgId && s == Summarize(e, tasks) {
        MapFilterMembership(employees, EmployeeInOrg(orgId), SummaryWith(tasks), s);
      }
      r := Success(OK, sorted);
    }

    /** `GET /api/employees/:id`: the employee with that id in the admin's
      org, with its counts; 404 otherwise. */
    method Get(cookie: Option<Token>, now: int, id: nat, tasks: seq<Task>) returns (r: Outcome<EmployeeDetail>)
      ensures var a := AuthenticateAdmin(cookie, now);
              && (a.Failure? ==> r == Failure(a.status, a.error))
              && (a.Success? ==> (r.Success? <==> exists e :: e in employees && e.id == id && e.orgId == a.value.orgId))
              && (a.Success? && r.Failure? ==> r == Failure(NOT_FOUND, EMPLOYEE_NOT_FOUND))
              && (r.Success? ==> && r.status == OK && r.value.view.id == id
                                 && exists e :: e in employees && e.id == id && e.orgId == a.value.orgId
                                                && r.value == Detail(e, tasks))
    {
      var a := AuthenticateAdmin(cookie, now);
      if a.Failure? {
        return Failure(a.status, a.error);
      }
      var rows := Filter(employees, SameEmployee(id, a.value.orgId));
      SameEmployeeRows(employees, id, a.value.orgId);
      if |rows| == 0 {
        return Failure(NOT_FOUND, EMPLOYEE_NOT_FOUND);
      }
      assert rows[0] in rows;
      r := Success(OK, Detail(rows[0], tasks));
    }

    /** `POST /api/employees`: a new employee of the admin's org. Without one
      of the four required fields 400, and with an email already in the table
      409, both with the table unchanged. */
    method Create(cookie: Option<Token>, now: int, body: EmployeeBody) returns (r: Outcome<EmployeeView>)
      requires Valid()
      modifies this
      ensures Valid()
      ensures var a := AuthenticateAdmin(cookie, now);
              && (a.Failure? ==> r == Failure(a.status, a.error))
              && (a.Success? && !HasRequiredFields(body) ==> r == Failure(BAD_REQUEST, FIELDS_REQUIRED))
              && (a.Success? && HasRequiredFields(body) && (exists e :: e in old(employees) && e.email == body.email.value)
                  ==> r == Failure(CONFLICT, DUPLICATE_EMAIL))
              && (r.Success? ==> && r.status == CREATED
                                 && employees == old(employees) + [NewEmployee(old(nextId), a.value.orgId, body, defaultActive, now)]
                                 && r.value == View(NewEmployee(old(nextId), a.value.orgId, body, defaultActive, now)))
      ensures r.Failure? ==> employees == old(employees) && nextId == old(nextId)
      ensures r.Success? <==> && AuthenticateAdmin(cookie, now).Success? && HasRequiredFields(body)
                              && !(exists e :: e in old(employees) && e.email == body.email.value)
    {
      var a := AuthenticateAdmin(cookie, now);
      if a.Failure? {
        return Failure(a.status, a.error);
      }
      if !HasRequiredFields(body) {
        return Failure(BAD_REQUEST, FIELDS_REQUIRED);
      }
      var e := NewEmployee(nextId, a.value.orgId, body, defaultActive, now);
      if exists x :: x in employees && x.email == e.email {
        return Failure(CONFLICT, DUPLICATE_EMAIL);
      }
      employees := employees + [e];
      nextId := nextId + 1;
      r := Success(CREATED, View(e));
    }

    /** `PUT /api/employees/:id`: COALESCE-edits the employee with that id in
      the admin's org and leaves every other row as it was. 404 when there is
      none; an email another employee already has makes the statement fail
      (500). Both leave the table unchanged. */
    method Update(cookie: Option<Token>, now: int, id: nat, body: EmployeeBody) returns (r: Outcome<EmployeeView>)
      requires Valid()
      modifies this
      ensures Valid()
      ensures nextId == old(nextId)
      ensures var a := AuthenticateAdmin(cookie, now);
              && (a.Failure? ==> r == Failure(a.status, a.error))
              && (a.Success? && !(exists e :: e in old(employees) && e.id == id && e.orgId == a.value.orgId)
                  ==> r == Failure(NOT_FOUND, EMPLOYEE_NOT_FOUND))
              && (a.Success? && (exists e :: e in old(employees) && e.id == id && e.orgId == a.value.orgId)
                  ==> (r.Failure? <==> body.email.Some? && exists e :: e in old(employees) && e.id != id
                                                                                && e.email == body.email.value)
                      && (r.Failure? ==> r == Failure(SERVER_ERROR, UPDATE_FAILED)))
              && (r.Success? ==> && |employees| == |old(employees)|
                                 && (forall k :: 0 <= k < |employees| ==>
                                       employees[k] == if old(employees)[k].id == id && old(employees)[k].orgId == a.value.orgId
                                                       then Edited(old(employees)[k], body) else old(employees)[k]))
      ensures r.Failure? ==> employees == old(employees)
      ensures r.Success? ==> r.status == OK && r.value.id == id
                             && exists e :: e in old(employees) && e.id == id && r.value == View(Edited(e, body))
    {
      var a := AuthenticateAdmin(cookie, now);
      if a.Failure? {
        return Failure(a.status, a.error);
      }
      var orgId := a.value.orgId;
      var check := Filter(employees, SameEmployee(id, orgId));
      SameEmployeeRows(employees, id, orgId);
      if |check| == 0 {
        return Failure(NOT_FOUND, EMPLOYEE_NOT_FOUND);
      }
      assert check[0] in check;
      var target := check[0];
      ghost var k :| 0 <= k < |employees| && employees[k] == target;
      var updated := Edited(target, body);
      if body.email.None? {
        KeptEmailIsFree(k, body);
      }
      if exists e :: e in employees && e.id != id && e.email == updated.email {
        return Failure(SERVER_ERROR, UPDATE_FAILED);
      }
      EditRows(id, orgId, body, k);
      r := Success(OK, View(updated));
    }

    /** An edit that leaves the email alone cannot clash with another employee. */
    lemma KeptEmailIsFree(k: nat, body: EmployeeBody)
      requires Valid() && k < |employees| && body.email.None?
      ensures forall e :: e in employees && e.id != employees[k].id ==> e.email != Edited(employees[k], body).email
    {
      forall e | e in employees && e.id != employees[k].id ensures e.email != Edited(employees[k], body).email {
        var i :| 0 <= i < |employees| && employees[i] == e;
        assert i != k;
        assert EmployeeEmail(employees[i]) != EmployeeEmail(employees[k]);
      }
    }

    /** `UPDATE employees SET ... WHERE id AND org_id`, when the row `k` is the
      one with that id and its new email clashes with no other employee. */
    method EditRows(id: nat, orgId: nat, body: EmployeeBody, ghost k: nat)
      requires Valid()
      requires k < |employees| && employees[k].id == id && employees[k].orgId == orgId
      requires forall e :: e in employees && e.id != id ==> e.email != Edited(employees[k], body).email
      modifies this
      ensures Valid() && nextId == old(nextId)
      ensures |employees| == |old(employees)|
      ensures forall i :: 0 <= i < |employees| ==>
                employees[i] == if old(employees)[i].id == id && old(employees)[i].orgId == orgId
                                then Edited(old(employees)[i], body) else old(employees)[i]
      ensures employees[k] == Edited(old(employees)[k], body)
    {
      ghost var before := employees;
      employees := Map(employees, EditWhere(id, orgId, body));
      forall i, j | 0 <= i < j < |employees| ensures EmployeeKey(employees[i]) != EmployeeKey(employees[j]) {
        assert EmployeeKey(before[i]) != EmployeeKey(before[j]);
      }
      forall i | 0 <= i < |employees| && i != k ensures employees[i] == before[i] {
        assert EmployeeKey(before[i]) != EmployeeKey(before[k]);
      }
      forall i, j | 0 <= i < j < |employees| ensures EmployeeEmail(employees[i]) != EmployeeEmail(employees[j]) {
        assert EmployeeEmail(before[i]) != EmployeeEmail(before[j]);
        if i == k {
          assert before[j] in before;
        } else if j == k {
          assert before[i] in before;
        }
      }
    }

    /** `DELETE /api/employees/:id`: removes exactly the employee with that id
      in the admin's org; 404 with the table unchanged when there is none. */
    method Delete(cookie: Option<Token>, now: int, id: nat) returns (r: Outcome<()>)
      requires Valid()
      modifies this
      ensures Valid()
      ensures nextId == old(nextId)
      ensures var a := AuthenticateAdmin(cookie, now);
              && (a.Failure? ==> r == Failure(a.status, a.error))
              && (a.Success? ==> (r.Success? <==> exists e :: e in old(employees) && e.id == id && e.orgId == a.value.orgId))
              && (a.Success? && r.Failure? ==> r == Failure(NOT_FOUND, EMPLOYEE_NOT_FOUND))
              && (r.Success? ==> && r.status == OK
                                 && employees == Filter(old(employees), OtherEmployee(id, a.value.orgId))
                                 && |employees| == |old(employees)| - 1)
      ensures r.Failure? ==> employees == old(employees)
      ensures forall e :: e in employees <==> e in old(employees) && !(r.Success? && e.id == id
                                                    && e.orgId == AuthenticateAdmin(cookie, now).value.orgId)
    {
      var a := AuthenticateAdmin(cookie, now);
      if a.Failure? {
        return Failure(a.status, a.error);
      }
      var orgId := a.value.orgId;
      var removed := Filter(employees, SameEmployee(id, orgId));
      SameEmployeeRows(employees, id, orgId);
      OtherEmployeeRows(employees, id, orgId);
      ghost var before := employees;
      employees := Filter(employees, OtherEmployee(id, orgId));
      FilterDistinct(before, OtherEmployee(id, orgId), EmployeeKey);
      FilterDistinct(before, OtherEmployee(id, orgId), EmployeeEmail);
      if |removed| == 0 {
        FilterAll(before, OtherEmployee(id, orgId));
        return Failure(NOT_FOUND, EMPLOYEE_NOT_FOUND);
      }
      assert removed[0] in removed;
      AtMostOneWithKey(before, EmployeeKey, id, SameEmployee(id, orgId));
      CountComplement(before, SameEmployee(id, orgId), OtherEmployee(id, orgId));
      r := Success(OK, ());
    }
  }
}
