/** The task routes (`/api/tasks`) over an in-memory tasks table. Every
    route runs behind the session middleware; create, edit and delete also
    behind the admin guard. A query is the conjunction of the `WHERE`
    clauses the handler assembles. */
module TaskRoutes {
  import opened Wrappers
  import opened Seqs
  import opened Sorting
  import opened Crypto
  import opened Records
  import opened Http
  import opened Middleware

  const TASK_NOT_FOUND: string := "Task not found"
  const TITLE_REQUIRED: string := "Task title is required"
  const EMPLOYEE_NOT_IN_ORG: string := "Employee not found in your org"
  const STATUS_REQUIRED: string := "Status must be: Assigned, In Progress, Completed"
  const DEFAULT_PRIORITY: string := "Medium"

  /** One `AND` clause of a task query. */
  datatype Condition =
    | WithId(id: nat)
    | InOrg(orgId: nat)
    | OfEmployee(employeeId: nat)
    | HasStatus(status: string)

  predicate Holds(c: Condition, t: Task) {
    match c
    case WithId(id) => t.id == id
    case InOrg(orgId) => t.orgId == orgId
    case OfEmployee(employeeId) => t.employeeId == Some(employeeId)
    case HasStatus(status) => t.status == status
  }

  /** The `WHERE` made of all of `conds`. */
  function Where(conds: seq<Condition>): Task -> bool {
    (t: Task) => forall i :: 0 <= i < |conds| ==> Holds(conds[i], t)
  }

  lemma WhereOne(c: Condition)
    ensures forall t :: Where([c])(t) <==> Holds(c, t)
  {
    assert [c][0] == c;
  }

  lemma WhereTwo(c: Condition, d: Condition)
    ensures forall t :: Where([c, d])(t) <==> Holds(c, t) && Holds(d, t)
  {
    assert [c, d][0] == c && [c, d][1] == d;
  }

  /** Appending a clause to a query narrows it by that clause. */
  lemma WhereSnoc(conds: seq<Condition>, c: Condition)
    ensures forall t :: Where(conds + [c])(t) <==> Where(conds)(t) && Holds(c, t)
  {
    forall t ensures Where(conds + [c])(t) <==> Where(conds)(t) && Holds(c, t) {
      assert forall i :: 0 <= i < |conds| ==> (conds + [c])[i] == conds[i];
      assert (conds + [c])[|conds|] == c;
    }
  }

  /** The complement of `Where(conds)`: the rows a `DELETE ... WHERE` keeps. */
  function Outside(conds: seq<Condition>): Task -> bool {
    (t: Task) => !Where(conds)(t)
  }

  /** A task the principal may see: in its org and, for an employee, assigned
      to that employee. */
  function Visible(p: Principal, t: Task): (b: bool)
    ensures b ==> t.orgId == p.orgId
    ensures b && p.user.role == EMPLOYEE ==> t.employeeId == Some(p.user.id)
    ensures p.user.role != EMPLOYEE && t.orgId == p.orgId ==> b
  {
    && t.orgId == p.orgId
    && (p.user.role == EMPLOYEE ==> t.employeeId == Some(p.user.id))
  }

  /** The query string of the list route: `?status=&employee_id=`. */
  datatype ListQuery = ListQuery(status: Option<string>, employeeId: Option<nat>)

  /** The rows `GET /api/tasks` shows principal `p` for query `q`: the visible
      tasks, narrowed by a non-empty `status`, and, for an admin only, by
      `employee_id`. */
  predicate Listed(p: Principal, q: ListQuery, t: Task) {
    && Visible(p, t)
    && (Truthy(q.status) ==> t.status == q.status.value)
    && (q.employeeId.Some? && p.user.role != EMPLOYEE ==> t.employeeId == q.employeeId)
  }

  function ListedBy(p: Principal, q: ListQuery): Task -> bool {
    (t: Task) => Listed(p, q, t)
  }

  /** An employee's `employee_id` filter has no effect on what they see. */
  lemma EmployeeFilterIgnored(p: Principal, q: ListQuery, t: Task)
    requires p.user.role == EMPLOYEE
    ensures Listed(p, q, t) <==> Listed(p, q.(employeeId := None), t)
  {
  }

  /** `ORDER BY created_at DESC`. */
  predicate NewerFirst(a: Task, b: Task) {
    a.createdAt >= b.createdAt
  }

  lemma NewerFirstIsTotalPreorder()
    ensures TotalPreorder(NewerFirst)
  {
  }

  /** The body of the create and edit routes; an absent or `null` field is `None`. */
  datatype TaskBody = TaskBody(
    employeeId: Option<nat>,
    title: Option<string>,
    description: Option<string>,
    requiredSkills: Option<seq<string>>,
    priority: Option<string>,
    dueDate: Option<int>)

  /** `if (employee_id)`: an id is given and is not 0. */
  predicate HasAssignee(body: TaskBody) {
    body.employeeId.Some? && body.employeeId.value != 0
  }

  /** The row the create route inserts, with `status` the schema default. */
  function NewTask(id: nat, orgId: nat, body: TaskBody, status: string, now: int): (t: Task)
    requires Truthy(body.title)
    ensures t.id == id && t.orgId == orgId && t.title == body.title.value && t.status == status
    ensures t.employeeId.Some? <==> HasAssignee(body)
    ensures t.employeeId.Some? ==> t.employeeId == body.employeeId
    ensures t.description == OrNull(body.description)
    ensures t.requiredSkills == body.requiredSkills.GetOr([])
    ensures t.priority == OrDefault(body.priority, DEFAULT_PRIORITY)
    ensures t.dueDate == body.dueDate
    ensures t.completedAt == None && t.txHash == None && t.createdAt == now
  {
    Task(id, orgId,
         if HasAssignee(body) then body.employeeId else None,
         body.title.value,
         OrNull(body.description),
         body.requiredSkills.GetOr([]),
         OrDefault(body.priority, DEFAULT_PRIORITY),
         status,
         body.dueDate,
         None, None, now)
  }

  /** A task created from a title alone gets the defaults: priority Medium,
      no required skills, no assignee, no description, no due date, and
      neither completion time nor transaction hash. */
  lemma CreateDefaults(id: nat, orgId: nat, title: string, status: string, now: int)
    requires title != ""
    ensures var t := NewTask(id, orgId, TaskBody(None, Some(title), None, None, None, None), status, now);
            && t.priority == DEFAULT_PRIORITY && t.requiredSkills == []
            && t.employeeId == None && t.description == None && t.dueDate == None
            && t.completedAt == None && t.txHash == None
            && t.title == title && t.orgId == orgId && t.createdAt == now
  {
  }

  /** The edit route's `SET col = COALESCE($n, col)` for each editable column. */
  function Coalesced(t: Task, body: TaskBody): (u: Task)
    ensures u.id == t.id && u.orgId == t.orgId && u.status == t.status
    ensures u.completedAt == t.completedAt && u.txHash == t.txHash && u.createdAt == t.createdAt
    ensures u.employeeId == if body.employeeId.Some? then body.employeeId else t.employeeId
    ensures u.title == Coalesce(body.title, t.title)
    ensures u.description == if body.description.Some? then body.description else t.description
    ensures u.requiredSkills == Coalesce(body.requiredSkills, t.requiredSkills)
    ensures u.priority == Coalesce(body.priority, t.priority)
    ensures u.dueDate == if body.dueDate.Some? then body.dueDate else t.dueDate
  {
    t.(employeeId := if body.employeeId.Some? then body.employeeId else t.employeeId,
       title := Coalesce(body.title, t.title),
       description := if body.description.Some? then body.description else t.description,
       requiredSkills := Coalesce(body.requiredSkills, t.requiredSkills),
       priority := Coalesce(body.priority, t.priority),
       dueDate := if body.dueDate.Some? then body.dueDate else t.dueDate)
  }

  /** An edit can reassign a task but never unassign it. */
  lemma EditNeverUnassigns(t: Task, body: TaskBody)
    requires t.employeeId.Some?
    ensures Coalesced(t, body).employeeId.Some?
  {
  }

  /** An edit with nothing in it changes nothing, and repeating an edit has
      no further effect. */
  lemma EditIdentityAndIdempotence(t: Task, body: TaskBody)
    ensures Coalesced(t, TaskBody(None, None, None, None, None, None)) == t
    ensures Coalesced(Coalesced(t, body), body) == Coalesced(t, body)
  {
  }

  function CoalesceWhere(conds: seq<Condition>, body: TaskBody): Task -> Task {
    (t: Task) => if Where(conds)(t) then Coalesced(t, body) else t
  }

  /** `validStatuses.includes(status)`. */
  function ValidStatus(status: Option<string>): (b: bool)
    ensures b <==> status == Some(ASSIGNED) || status == Some(IN_PROGRESS) || status == Some(COMPLETED)
  {
    status.Some? && status.value in [ASSIGNED, IN_PROGRESS, COMPLETED]
  }

  /** The status route's `SET status, completed_at, tx_hash`: the completion
      time is `now` exactly when the new status is Completed, the hash is the
      one supplied or none, and no other column changes. */
  function WithStatus(t: Task, status: string, txHash: Option<string>, now: int): (u: Task)
    ensures u.status == status
    ensures u.completedAt.Some? <==> status == COMPLETED
    ensures u.completedAt.Some? ==> u.completedAt.value == now
    ensures u.txHash.Some? <==> Truthy(txHash)
    ensures u.txHash.Some? ==> u.txHash == txHash
    ensures u.(status := t.status, completedAt := t.completedAt, txHash := t.txHash) == t
  {
    t.(status := status,
       completedAt := if status == COMPLETED then Some(now) else None,
       txHash := OrNull(txHash))
  }

  /** Moving a completed task back to another status erases its completion time. */
  lemma ReopeningClearsCompletion(t: Task, status: string, txHash: Option<string>, now: int)
    requires t.completedAt.Some? && status != COMPLETED
    ensures WithStatus(t, status, txHash, now).completedAt == None
  {
  }

  function StatusWhere(id: nat, status: string, txHash: Option<string>, now: int): Task -> Task {
    (t: Task) => if t.id == id then WithStatus(t, status, txHash, now) else t
  }

  /** `WHERE id = $ AND org_id = $` selects the rows with that id in that org. */
  lemma RowsInOrg(tasks: seq<Task>, id: nat, orgId: nat)
    ensures forall t :: t in Filter(tasks, Where([WithId(id), InOrg(orgId)]))
                    <==> t in tasks && t.id == id && t.orgId == orgId
  {
    WhereTwo(WithId(id), InOrg(orgId));
    forall t ensures t in Filter(tasks, Where([WithId(id), InOrg(orgId)]))
                 <==> t in tasks && t.id == id && t.orgId == orgId {
      FilterMembership(tasks, Where([WithId(id), InOrg(orgId)]), t);
    }
  }

  /** The `UPDATE ... WHERE id = $ AND org_id = $` of the edit route rewrites
      exactly the matching row and keeps ids unique and below `nextId`. */
  lemma CoalesceRows(before: seq<Task>, id: nat, orgId: nat, body: TaskBody, nextId: nat)
    requires DistinctBy(before, TaskKey) && forall i :: 0 <= i < |before| ==> before[i].id < nextId
    ensures var after := Map(before, CoalesceWhere([WithId(id), InOrg(orgId)], body));
      && |after| == |before|
      && (forall k :: 0 <= k < |after| ==>
            after[k] == if before[k].id == id && before[k].orgId == orgId then Coalesced(before[k], body) else before[k])
      && DistinctBy(after, TaskKey)
      && (forall i :: 0 <= i < |after| ==> after[i].id < nextId)
  {
    var after := Map(before, CoalesceWhere([WithId(id), InOrg(orgId)], body));
    WhereTwo(WithId(id), InOrg(orgId));
    forall i, j | 0 <= i < j < |after| ensures TaskKey(after[i]) != TaskKey(after[j]) {
      assert TaskKey(before[i]) != TaskKey(before[j]);
    }
  }

  /** The tasks table. `nextId` stands for the table's id sequence and
      `defaultStatus` for the schema's default status, which the create route
      leaves to the database. */
  class TaskTable {
    var tasks: seq<Task>
    var nextId: nat
    const defaultStatus: string

    /** Ids are a primary key and all come from the sequence. */
    ghost predicate Valid()
      reads this
    {
      && DistinctBy(tasks, TaskKey)
      && (forall i :: 0 <= i < |tasks| ==> tasks[i].id < nextId)
    }

    constructor(defaultStatus: string)
      ensures Valid() && tasks == [] && this.defaultStatus == defaultStatus
    {
      tasks := [];
      nextId := 1;
      this.defaultStatus := defaultStatus;
    }

    /** `GET /api/tasks`: exactly the listed tasks, each once, newest first. */
    method List(cookie: Option<Token>, now: int, q: ListQuery) returns (r: Outcome<seq<Task>>)
      ensures var a := Authenticate(cookie, now);
              && (a.Failure? ==> r == Failure(a.status, a.error))
              && (a.Success? ==> r.Success? && r.status == OK)
      ensures r.Success? ==> var p := Authenticate(cookie, now).value;
              && (forall t :: t in r.value <==> t in tasks && Listed(p, q, t))
              && multiset(r.value) == multiset(Filter(tasks, ListedBy(p, q)))
              && (forall i, j :: 0 <= i < j < |r.value| ==> r.value[i].createdAt >= r.value[j].createdAt)
    {
      var a := Authenticate(cookie, now);
      if a.Failure? {
        return Failure(a.status, a.error);
      }
      var p := a.value;
      var conds := ListConditions(p, q);
      FilterExt(tasks, Where(conds), ListedBy(p, q));
      var rows := Filter(tasks, Where(conds));
      forall t ensures t in rows <==> t in tasks && Listed(p, q, t) {
        FilterMembership(tasks, ListedBy(p, q), t);
      }
      var sorted := SortBy(rows, NewerFirst);
      NewerFirstIsTotalPreorder();
      SortBySorted(rows, NewerFirst);
      SameElements(sorted, rows);
      r := Success(OK, sorted);
    }

    /** The `WHERE` of the list route, pushed clause by clause as the handler
      pushes its parameters. */
    static method ListConditions(p: Principal, q: ListQuery) returns (conds: seq<Condition>)
      ensures forall t :: Where(conds)(t) == ListedBy(p, q)(t)
    {
      var isEmployee := p.user.role == EMPLOYEE;
      conds := [InOrg(p.orgId)];
      WhereOne(InOrg(p.orgId));
      if isEmployee {
        WhereSnoc(conds, OfEmployee(p.user.id));
        conds := conds + [OfEmployee(p.user.id)];
      }
      assert forall t :: Where(conds)(t) <==> Visible(p, t);
      if Truthy(q.status) {
        WhereSnoc(conds, HasStatus(q.status.value));
        conds := conds + [HasStatus(q.status.value)];
      }
      assert forall t :: Where(conds)(t) <==> Visible(p, t) && (Truthy(q.status) ==> t.status == q.status.value);
      if q.employeeId.Some? && !isEmployee {
        WhereSnoc(conds, OfEmployee(q.employeeId.value));
        conds := conds + [OfEmployee(q.employeeId.value)];
      }
    }

    /** `SELECT ... WHERE id = $1 AND org_id = $2 [AND employee_id = $3]`: the
      rows with that id the principal may see. */
    method SelectVisible(p: Principal, id: nat) returns (rows: seq<Task>)
      ensures forall t :: t in rows <==> t in tasks && t.id == id && Visible(p, t)
    {
      var conds := [WithId(id), InOrg(p.orgId)];
      WhereTwo(WithId(id), InOrg(p.orgId));
      if p.user.role == EMPLOYEE {
        WhereSnoc(conds, OfEmployee(p.user.id));
        conds := conds + [OfEmployee(p.user.id)];
      }
      assert forall t :: Where(conds)(t) <==> t.id == id && Visible(p, t);
      rows := Filter(tasks, Where(conds));
      forall t ensures t in rows <==> t in tasks && t.id == id && Visible(p, t) {
        FilterMembership(tasks, Where(conds), t);
      }
    }

    /** `GET /api/tasks/:id`: the task with that id if the principal may see
      it, otherwise 404. */
    method Get(cookie: Option<Token>, now: int, id: nat) returns (r: Outcome<Task>)
      ensures var a := Authenticate(cookie, now);
              && (a.Failure? ==> r == Failure(a.status, a.error))
              && (a.Success? ==> (r.Success? <==> exists t :: t in tasks && t.id == id && Visible(a.value, t)))
              && (a.Success? && r.Failure? ==> r == Failure(NOT_FOUND, TASK_NOT_FOUND))
      ensures r.Success? ==> && r.status == OK && r.value in tasks && r.value.id == id
                             && Visible(Authenticate(cookie, now).value, r.value)
    {
      var a := Authenticate(cookie, now);
      if a.Failure? {
        return Failure(a.status, a.error);
      }
      var rows := SelectVisible(a.value, id);
      if |rows| == 0 {
        return Failure(NOT_FOUND, TASK_NOT_FOUND);
      }
      assert rows[0] in rows;
      r := Success(OK, rows[0]);
    }

    /** `POST /api/tasks` (admin only): a new task in the admin's org, appended
      with a fresh id. Refused, with the table unchanged, without a title or
      when the given employee is not in the org. */
    method Create(cookie: Option<Token>, now: int, body: TaskBody, staff: seq<Employee>) returns (r: Outcome<Task>)
      requires Valid()
      modifies this
      ensures Valid()
      ensures var a := AuthenticateAdmin(cookie, now);
              && (a.Failure? ==> r == Failure(a.status, a.error))
              && (a.Success? && !Truthy(body.title) ==> r == Failure(BAD_REQUEST, TITLE_REQUIRED))
              && (a.Success? && Truthy(body.title) && HasAssignee(body)
                    && !(exists e :: e in staff && e.id == body.employeeId.value && e.orgId == a.value.orgId)
                  ==> r == Failure(BAD_REQUEST, EMPLOYEE_NOT_IN_ORG))
              && (r.Success? ==> && r.status == CREATED
                                 && r.value == NewTask(old(nextId), a.value.orgId, body, defaultStatus, now)
                                 && tasks == old(tasks) + [r.value])
      ensures r.Failure? ==> tasks == old(tasks) && nextId == old(nextId)
      ensures r.Success? <==> && AuthenticateAdmin(cookie, now).Success? && Truthy(body.title)
                              && (HasAssignee(body) ==> exists e :: e in staff && e.id == body.employeeId.value
                                                                     && e.orgId == AuthenticateAdmin(cookie, now).value.orgId)
    {
      var a := AuthenticateAdmin(cookie, now);
      if a.Failure? {
        return Failure(a.status, a.error);
      }
      var orgId := a.value.orgId;
      if !Truthy(body.title) {
        return Failure(BAD_REQUEST, TITLE_REQUIRED);
      }
      if HasAssignee(body) {
        var emp := Filter(staff, EmployeeIn(body.employeeId.value, orgId));
        forall e ensures e in emp <==> e in staff && e.id == body.employeeId.value && e.orgId == orgId {
          FilterMembership(staff, EmployeeIn(body.employeeId.value, orgId), e);
        }
        if |emp| == 0 {
          return Failure(BAD_REQUEST, EMPLOYEE_NOT_IN_ORG);
        }
        assert emp[0] in emp;
      }
      var t := NewTask(nextId, orgId, body, defaultStatus, now);
      tasks := tasks + [t];
      nextId := nextId + 1;
      r := Success(CREATED, t);
    }

    /** `PUT /api/tasks/:id` (admin only): COALESCE-edits the task with that
      id in the admin's org and leaves every other row as it was; 404 with
      the table unchanged when there is none. */
    method Update(cookie: Option<Token>, now: int, id: nat, body: TaskBody) returns (r: Outcome<Task>)
      requires Valid()
      modifies this
      ensures Valid()
      ensures var a := AuthenticateAdmin(cookie, now);
              && (a.Failure? ==> r == Failure(a.status, a.error))
              && (a.Success? ==> (r.Success? <==> exists t :: t in old(tasks) && t.id == id && t.orgId == a.value.orgId))
              && (a.Success? && r.Failure? ==> r == Failure(NOT_FOUND, TASK_NOT_FOUND))
              && (r.Success? ==> && |tasks| == |old(tasks)|
                                 && (forall k :: 0 <= k < |tasks| ==>
                                       tasks[k] == if old(tasks)[k].id == id && old(tasks)[k].orgId == a.value.orgId
                                                   then Coalesced(old(tasks)[k], body) else old(tasks)[k]))
      ensures r.Failure? ==> tasks == old(tasks)
      ensures nextId == old(nextId)
      ensures r.Success? ==> r.status == OK && r.value in tasks && r.value.id == id
                             && exists t :: t in old(tasks) && t.id == id && r.value == Coalesced(t, body)
    {
      var a := AuthenticateAdmin(cookie, now);
      if a.Failure? {
        return Failure(a.status, a.error);
      }
      var conds := [WithId(id), InOrg(a.value.orgId)];
      var check := Filter(tasks, Where(conds));
      RowsInOrg(tasks, id, a.value.orgId);
      if |check| == 0 {
        return Failure(NOT_FOUND, TASK_NOT_FOUND);
      }
      assert check[0] in check;
      var target := check[0];
      ghost var before := tasks;
      CoalesceRows(tasks, id, a.value.orgId, body, nextId);
      tasks := Map(tasks, CoalesceWhere(conds, body));
      ghost var k :| 0 <= k < |before| && before[k] == target;
      assert tasks[k] == Coalesced(target, body);
      r := Success(OK, Coalesced(target, body));
    }

    /** `PATCH /api/tasks/:id/status` (any session): sets status, completion
      time and hash of the task with that id, provided the principal may see
      it. A status outside the three gives 400 and an invisible task 404,
      both with the table unchanged. */
    method PatchStatus(cookie: Option<Token>, now: int, id: nat, status: Option<string>, txHash: Option<string>)
      returns (r: Outcome<Task>)
      requires Valid()
      modifies this
      ensures Valid()
      ensures var a := Authenticate(cookie, now);
              && (a.Failure? ==> r == Failure(a.status, a.error))
              && (a.Success? && !ValidStatus(status) ==> r == Failure(BAD_REQUEST, STATUS_REQUIRED))
              && (a.Success? && ValidStatus(status) ==>
                    (r.Success? <==> exists t :: t in old(tasks) && t.id == id && Visible(a.value, t)))
              && (a.Success? && ValidStatus(status) && r.Failure? ==> r == Failure(NOT_FOUND, TASK_NOT_FOUND))
      ensures r.Failure? ==> tasks == old(tasks)
      ensures nextId == old(nextId)
      ensures r.Success? ==> && r.status == OK && |tasks| == |old(tasks)|
                             && (forall k :: 0 <= k < |tasks| ==>
                                   tasks[k] == if old(tasks)[k].id == id
                                               then WithStatus(old(tasks)[k], status.value, txHash, now)
                                               else old(tasks)[k])
                             && r.value in tasks && r.value.id == id
                             && exists t :: t in old(tasks) && r.value == WithStatus(t, status.value, txHash, now)
      ensures r.Success? ==> forall k :: 0 <= k < |tasks| && tasks[k] != old(tasks)[k] ==>
                               Visible(Authenticate(cookie, now).value, old(tasks)[k])
    {
      var a := Authenticate(cookie, now);
      if a.Failure? {
        return Failure(a.status, a.error);
      }
      if !ValidStatus(status) {
        return Failure(BAD_REQUEST, STATUS_REQUIRED);
      }
      var check := SelectVisible(a.value, id);
      if |check| == 0 {
        return Failure(NOT_FOUND, TASK_NOT_FOUND);
      }
      assert check[0] in check;
      var target := check[0];
      SetStatus(id, status.value, txHash, now);
      ghost var k :| 0 <= k < |old(tasks)| && old(tasks)[k] == target;
      assert tasks[k] == WithStatus(target, status.value, txHash, now);
      forall j | 0 <= j < |tasks| && tasks[j] != old(tasks)[j] ensures Visible(a.value, old(tasks)[j]) {
        assert TaskKey(old(tasks)[j]) == TaskKey(old(tasks)[k]);
        assert j == k;
      }
      r := Success(OK, WithStatus(target, status.value, txHash, now));
    }

    /** `UPDATE tasks SET status, completed_at, tx_hash WHERE id = $4`. */
    method SetStatus(id: nat, status: string, txHash: Option<string>, now: int)
      requires Valid()
      modifies this
      ensures Valid() && nextId == old(nextId)
      ensures |tasks| == |old(tasks)|
      ensures forall k :: 0 <= k < |tasks| ==>
                tasks[k] == if old(tasks)[k].id == id then WithStatus(old(tasks)[k], status, txHash, now) else old(tasks)[k]
    {
      ghost var before := tasks;
      tasks := Map(tasks, StatusWhere(id, status, txHash, now));
      forall i, j | 0 <= i < j < |tasks| ensures TaskKey(tasks[i]) != TaskKey(tasks[j]) {
        assert TaskKey(before[i]) != TaskKey(before[j]);
      }
    }

    /** `DELETE /api/tasks/:id` (admin only): removes exactly the task with
      that id in the admin's org; 404 with the table unchanged when there is
      none. */
    method Delete(cookie: Option<Token>, now: int, id: nat) returns (r: Outcome<()>)
      requires Valid()
      modifies this
      ensures Valid()
      ensures var a := AuthenticateAdmin(cookie, now);
              && (a.Failure? ==> r == Failure(a.status, a.error))
              && (a.Success? ==> (r.Success? <==> exists t :: t in old(tasks) && t.id == id && t.orgId == a.value.orgId))
              && (a.Success? && r.Failure? ==> r == Failure(NOT_FOUND, TASK_NOT_FOUND))
              && (r.Success? ==> && r.status == OK
                                 && tasks == Filter(old(tasks), Outside([WithId(id), InOrg(a.value.orgId)]))
                                 && |tasks| == |old(tasks)| - 1)
      ensures r.Failure? ==> tasks == old(tasks)
      ensures nextId == old(nextId)
      ensures forall t :: t in tasks <==> t in old(tasks) && !(r.Success? && t.id == id
                                                               && t.orgId == AuthenticateAdmin(cookie, now).value.orgId)
    {
      var a := AuthenticateAdmin(cookie, now);
      if a.Failure? {
        return Failure(a.status, a.error);
      }
      var conds := [WithId(id), InOrg(a.value.orgId)];
      WhereTwo(WithId(id), InOrg(a.value.orgId));
      var removed := Filter(tasks, Where(conds));
      forall t ensures t in removed <==> t in tasks && t.id == id && t.orgId == a.value.orgId {
        FilterMembership(tasks, Where(conds), t);
      }
      ghost var before := tasks;
      tasks := Filter(tasks, Outside(conds));
      forall t ensures t in tasks <==> t in before && !(t.id == id && t.orgId == a.value.orgId) {
        FilterMembership(before, Outside(conds), t);
      }
      FilterDistinct(before, Outside(conds), TaskKey);
      if |removed| == 0 {
        FilterAll(before, Outside(conds));
        return Failure(NOT_FOUND, TASK_NOT_FOUND);
      }
      assert removed[0] in removed;
      AtMostOneWithKey(before, TaskKey, id, Where(conds));
      CountComplement(before, Where(conds), Outside(conds));
      r := Success(OK, ());
    }
  }

  /** The employee lookup of the create route: that id, in that org. */
  function EmployeeIn(id: nat, orgId: nat): Employee -> bool {
    (e: Employee) => e.id == id && e.orgId == orgId
  }
}
