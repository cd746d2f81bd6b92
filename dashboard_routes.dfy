/** The admin dashboard (`GET /api/dashboard`): five aggregate queries over
    the admin's own organization, answered together. */
module DashboardRoutes {
  import opened Wrappers
  import opened Seqs
  import opened Sorting
  import opened JsMath
  import opened Crypto
  import opened Records
  import opened Http
  import opened Middleware
  import opened AiService
  import opened EmployeeRoutes
  import TaskRoutes

  /** How many rows the two ranked lists keep (`LIMIT 5`). */
  const TOP_LIMIT: nat := 5

  // ---------------------------------------------------------------------
  // Counts
  // ---------------------------------------------------------------------

  datatype EmployeeCounts = EmployeeCounts(total: nat, active: nat, inactive: nat)

  predicate IsInactiveEmployee(e: Employee) {
    !e.isActive
  }

  /** `COUNT(*)`, and the counts `FILTER (WHERE is_active = TRUE / FALSE)`.
      `is_active` is never null here, so every employee is one or the other. */
  function CountEmployees(staff: seq<Employee>): (c: EmployeeCounts)
    ensures c.total == |staff|
    ensures c.active == Count(staff, IsActiveEmployee)
    ensures c.total == c.active + c.inactive
  {
    CountComplement(staff, IsActiveEmployee, IsInactiveEmployee);
    EmployeeCounts(|staff|, Count(staff, IsActiveEmployee), Count(staff, IsInactiveEmployee))
  }

  datatype TaskCounts = TaskCounts(total: nat, assignedCount: nat, inProgressCount: nat, completedCount: nat, overdueCount: nat)

  function HasStatus(status: string): Task -> bool {
    (t: Task) => t.status == status
  }

  /** A task has one status, so the three status counts never exceed the total. */
  lemma {:induction false} StatusCountsBounded(tasks: seq<Task>)
    ensures Count(tasks, HasStatus(ASSIGNED)) + Count(tasks, HasStatus(IN_PROGRESS))
            + Count(tasks, HasStatus(COMPLETED)) <= |tasks|
  {
    if tasks != [] {
      StatusCountsBounded(tasks[1..]);
    }
  }

  /** The task counts of the dashboard at time `now`; a task is overdue by
      the same rule as in the productivity score (`AiService.IsOverdue`). */
  function CountTasks(orgTasks: seq<Task>, now: int): (c: TaskCounts)
    ensures c.total == |orgTasks|
    ensures c.assignedCount == Count(orgTasks, HasStatus(ASSIGNED))
    ensures c.inProgressCount == Count(orgTasks, HasStatus(IN_PROGRESS))
    ensures c.assignedCount + c.inProgressCount + c.completedCount <= c.total
    ensures c.overdueCount + c.completedCount <= c.total
    ensures c.completedCount == Count(orgTasks, IsCompleted)
    ensures c.overdueCount == TaskStats(orgTasks, now).overdue
  {
    StatusCountsBounded(orgTasks);
    FilterExt(orgTasks, HasStatus(COMPLETED), IsCompleted);
    CountDisjoint(orgTasks, OverdueAt(now), IsCompleted);
    TaskCounts(|orgTasks|, Count(orgTasks, HasStatus(ASSIGNED)), Count(orgTasks, HasStatus(IN_PROGRESS)),
               Count(orgTasks, HasStatus(COMPLETED)), Count(orgTasks, OverdueAt(now)))
  }

  // ---------------------------------------------------------------------
  // Top employees
  // ---------------------------------------------------------------------

  datatype TopEmployee = TopEmployee(
    id: nat,
    name: string,
    role: string,
    department: string,
    totalTasks: nat,
    completedTasks: nat,
    productivityScore: int)

  /** `CASE WHEN total = 0 THEN 0 ELSE ROUND(completed / total * 100) END`:
      the completion percentage, rounded half up (SQL `ROUND` on a
      non-negative number). */
  function CompletionRate(completed: nat, total: nat): (p: int)
    requires completed <= total
    ensures 0 <= p <= 100
    ensures total == 0 ==> p == 0
    ensures total > 0 ==> p as real - 0.5 <= completed as real / total as real * 100.0 < p as real + 0.5
    ensures total > 0 && completed == total ==> p == 100
  {
    if total == 0 then 0
    else
      assert completed as real / total as real <= 1.0;
      assert completed == total ==> completed as real / total as real * 100.0 == 100 as real;
      RoundOfInt(100);
      RoundWithin(completed as real / total as real * 100.0, 0, 100);
      Round(completed as real / total as real * 100.0)
  }

  /** One employee's row: the org's tasks assigned to them, how many of those
      are completed, and the completion rate. */
  function TopRow(e: Employee, orgTasks: seq<Task>): (row: TopEmployee)
    ensures row.id == e.id && row.name == e.name && row.role == e.role && row.department == e.department
    ensures row.totalTasks == |TasksOf(orgTasks, e.id)|
    ensures row.completedTasks == Count(TasksOf(orgTasks, e.id), IsCompleted)
    ensures row.completedTasks <= row.totalTasks
    ensures row.productivityScore == CompletionRate(row.completedTasks, row.totalTasks)
    ensures 0 <= row.productivityScore <= 100
  {
    CountMonotone(orgTasks, DoneTaskOf(e.id), AssignedTo(e.id));
    OwnTasksByStatus(orgTasks, e.id);
    var total := Count(orgTasks, AssignedTo(e.id));
    var completed := Count(orgTasks, DoneTaskOf(e.id));
    TopEmployee(e.id, e.name, e.role, e.department, total, completed, CompletionRate(completed, total))
  }

  function TopRowWith(orgTasks: seq<Task>): Employee -> TopEmployee {
    (e: Employee) => TopRow(e, orgTasks)
  }

  /** `ORDER BY productivity_score DESC, completed_tasks DESC`. */
  predicate RanksAbove(a: TopEmployee, b: TopEmployee) {
    || a.productivityScore > b.productivityScore
    || (a.productivityScore == b.productivityScore && a.completedTasks >= b.completedTasks)
  }

  lemma RanksAboveIsTotalPreorder()
    ensures TotalPreorder(RanksAbove)
  {
  }

  /** The rows the top-employees query ranks: one per active employee of
      the org (`staff` holds the org's employees). */
  function ActiveRows(staff: seq<Employee>, orgTasks: seq<Task>): (rows: seq<TopEmployee>)
    ensures |rows| == Count(staff, IsActiveEmployee)
    ensures forall x :: x in rows <==> exists e :: e in staff && e.isActive && x == TopRow(e, orgTasks)
  {
    var actives := Filter(staff, IsActiveEmployee);
    var rows := Map(actives, TopRowWith(orgTasks));
    forall x ensures x in rows <==> exists e :: e in staff && e.isActive && x == TopRow(e, orgTasks) {
      MapFilterMembership(staff, IsActiveEmployee, TopRowWith(orgTasks), x);
    }
    rows
  }

  /** The five best-ranked active employees of the org: distinct picks from
      the ranked rows, sorted, and nobody left out ranks above anybody kept. */
  function TopEmployees(staff: seq<Employee>, orgTasks: seq<Task>): (r: seq<TopEmployee>)
    ensures |r| == if Count(staff, IsActiveEmployee) <= TOP_LIMIT then Count(staff, IsActiveEmployee) else TOP_LIMIT
    ensures forall x :: x in r ==> exists e :: e in staff && e.isActive && x == TopRow(e, orgTasks)
    ensures forall i, j :: 0 <= i < j < |r| ==> RanksAbove(r[i], r[j])
    ensures multiset(r) <= multiset(ActiveRows(staff, orgTasks))
    ensures forall x, y :: x in r && multiset(r)[y] < multiset(ActiveRows(staff, orgTasks))[y] ==> RanksAbove(x, y)
  {
    var rows := ActiveRows(staff, orgTasks);
    RanksAboveIsTotalPreorder();
    var r := TopBy(rows, RanksAbove, TOP_LIMIT);
    forall x | x in r ensures x in rows {
      assert x in multiset(rows);
    }
    r
  }

  // ---------------------------------------------------------------------
  // Recent tasks and departments
  // ---------------------------------------------------------------------

  /** The org's five newest tasks, newest first; no task left out is newer
      than one kept. */
  function RecentTasks(orgTasks: seq<Task>): (r: seq<Task>)
    ensures |r| == if |orgTasks| <= TOP_LIMIT then |orgTasks| else TOP_LIMIT
    ensures multiset(r) <= multiset(orgTasks)
    ensures forall i, j :: 0 <= i < j < |r| ==> r[i].createdAt >= r[j].createdAt
    ensures forall x, y :: x in r && multiset(r)[y] < multiset(orgTasks)[y] ==> x.createdAt >= y.createdAt
  {
    TaskRoutes.NewerFirstIsTotalPreorder();
    var r := TopBy(orgTasks, TaskRoutes.NewerFirst, TOP_LIMIT);
    forall i, j | 0 <= i < j < |r| ensures r[i].createdAt >= r[j].createdAt {
      assert TaskRoutes.NewerFirst(r[i], r[j]);
    }
    forall x, y | x in r && multiset(r)[y] < multiset(orgTasks)[y] ensures x.createdAt >= y.createdAt {
      assert TaskRoutes.NewerFirst(x, y);
    }
    r
  }

  datatype DepartmentCount = DepartmentCount(department: string, count: nat)

  function Department(e: Employee): string {
    e.department
  }

  function InDepartment(department: string): Employee -> bool {
    (e: Employee) => e.department == department
  }

  function DepartmentRow(actives: seq<Employee>): string -> DepartmentCount {
    (d: string) => DepartmentCount(d, Count(actives, InDepartment(d)))
  }

  /** `ORDER BY count DESC`. */
  predicate LargerFirst(a: DepartmentCount, b: DepartmentCount) {
    a.count >= b.count
  }

  lemma LargerFirstIsTotalPreorder()
    ensures TotalPreorder(LargerFirst)
  {
  }

  /** The rows before sorting: one per distinct department, with its head count. */
  function DepartmentRows(actives: seq<Employee>): (rows: seq<DepartmentCount>)
    ensures NoDuplicates(rows)
    ensures forall x :: x in rows <==> exists e :: e in actives && x == DepartmentRow(actives)(e.department)
  {
    var depts := Distinct(Map(actives, Department));
    var rows := Map(depts, DepartmentRow(actives));
    forall i, j | 0 <= i < j < |rows| ensures rows[i] != rows[j] {
      assert rows[i].department == depts[i] && rows[j].department == depts[j];
    }
    forall x ensures x in rows <==> exists e :: e in actives && x == DepartmentRow(actives)(e.department) {
      if x in rows {
        var i :| 0 <= i < |rows| && rows[i] == x;
        assert depts[i] in Map(actives, Department);
        var k :| 0 <= k < |actives| && Department(actives[k]) == depts[i];
        assert actives[k] in actives;
      } else {
        forall e | e in actives ensures x != DepartmentRow(actives)(e.department) {
          var k :| 0 <= k < |actives| && actives[k] == e;
          assert Department(actives[k]) in Map(actives, Department);
          var i :| 0 <= i < |depts| && depts[i] == e.department;
          assert rows[i] == DepartmentRow(actives)(e.department);
        }
      }
    }
    rows
  }

  /** `GROUP BY department ORDER BY count DESC` over the active employees:
      each department of an active employee once, with its head count, the
      largest first. */
  function DeptBreakdown(actives: seq<Employee>): (r: seq<DepartmentCount>)
    ensures (set x | x in r :: x.department) == (set e | e in actives :: e.department)
    ensures forall x :: x in r ==> x.count == Count(actives, InDepartment(x.department)) && x.count > 0
    ensures forall i, j :: 0 <= i < j < |r| ==> r[i].department != r[j].department
    ensures forall i, j :: 0 <= i < j < |r| ==> r[i].count >= r[j].count
  {
    DeptBreakdownFacts(actives);
    SortBy(DepartmentRows(actives), LargerFirst)
  }

  lemma DeptBreakdownFacts(actives: seq<Employee>)
    ensures var r := SortBy(DepartmentRows(actives), LargerFirst);
            && (set x | x in r :: x.department) == (set e | e in actives :: e.department)
            && (forall x :: x in r ==> x.count == Count(actives, InDepartment(x.department)) && x.count > 0)
            && (forall i, j :: 0 <= i < j < |r| ==> r[i].department != r[j].department)
            && (forall i, j :: 0 <= i < j < |r| ==> r[i].count >= r[j].count)
  {
    var rows := DepartmentRows(actives);
    var r := SortBy(rows, LargerFirst);
    LargerFirstIsTotalPreorder();
    SortBySorted(rows, LargerFirst);
    assert forall i, j :: 0 <= i < j < |r| ==> LargerFirst(r[i], r[j]);
    SameElements(r, rows);
    DepartmentRowsCounted(actives, r);
    DepartmentSet(actives, r);
    PermutationNoDuplicates(r, rows);
    DepartmentsDistinct(actives, r);
  }

  lemma DepartmentSet(actives: seq<Employee>, r: seq<DepartmentCount>)
    requires forall x :: x in r <==> x in DepartmentRows(actives)
    ensures (set x | x in r :: x.department) == (set e | e in actives :: e.department)
  {
    DepartmentRowsCounted(actives, r);
    DepartmentRowsCover(actives, r);
  }

  lemma DepartmentRowsCounted(actives: seq<Employee>, r: seq<DepartmentCount>)
    requires forall x :: x in r <==> x in DepartmentRows(actives)
    ensures forall x :: x in r ==> exists e :: e in actives && e.department == x.department
    ensures forall x :: x in r ==> x.count == Count(actives, InDepartment(x.department)) && x.count > 0
  {
    forall x | x in r
      ensures exists e :: e in actives && e.department == x.department
      ensures x.count == Count(actives, InDepartment(x.department)) && x.count > 0
    {
      var e :| e in actives && x == DepartmentRow(actives)(e.department);
      FilterMembership(actives, InDepartment(e.department), e);
    }
  }

  lemma DepartmentRowsCover(actives: seq<Employee>, r: seq<DepartmentCount>)
    requires forall x :: x in r <==> x in DepartmentRows(actives)
    ensures forall e :: e in actives ==> exists x :: x in r && x.department == e.department
  {
    forall e | e in actives ensures exists x :: x in r && x.department == e.department {
      assert DepartmentRow(actives)(e.department) in DepartmentRows(actives);
    }
  }

  lemma DepartmentsDistinct(actives: seq<Employee>, r: seq<DepartmentCount>)
    requires forall x :: x in r <==> x in DepartmentRows(actives)
    requires NoDuplicates(r)
    ensures forall i, j :: 0 <= i < j < |r| ==> r[i].department != r[j].department
  {
    forall i, j | 0 <= i < j < |r| ensures r[i].department != r[j].department {
      assert r[i] in DepartmentRows(actives) && r[j] in DepartmentRows(actives);
      var e :| e in actives && r[i] == DepartmentRow(actives)(e.department);
      var f :| f in actives && r[j] == DepartmentRow(actives)(f.department);
      assert r[i] != r[j];
    }
  }

  // ---------------------------------------------------------------------
  // The route
  // ---------------------------------------------------------------------

  datatype Dashboard = Dashboard(
    employees: EmployeeCounts,
    tasks: TaskCounts,
    topEmployees: seq<TopEmployee>,
    recentTasks: seq<Task>,
    deptBreakdown: seq<DepartmentCount>)

  /** `GET /api/dashboard` at time `now`, behind the session middleware and
      the admin guard. Every figure is computed from the admin's own org:
      its employees and its tasks only. */
  function GetDashboard(cookie: Option<Token>, now: int, employees: seq<Employee>, tasks: seq<Task>)
    : (r: Outcome<Dashboard>)
    ensures var a := AuthenticateAdmin(cookie, now);
            && (a.Failure? ==> r == Failure(a.status, a.error))
            && (a.Success? ==> r.Success? && r.status == OK)
    ensures r.Success? ==>
              var orgId := AuthenticateAdmin(cookie, now).value.orgId;
              var staff := Filter(employees, EmployeeInOrg(orgId));
              var orgTasks := Filter(tasks, TaskInOrg(orgId));
              r.value == Dashboard(CountEmployees(staff), CountTasks(orgTasks, now), TopEmployees(staff, orgTasks),
                                   RecentTasks(orgTasks), DeptBreakdown(Filter(staff, IsActiveEmployee)))
    ensures r.Success? ==>
              var orgId := AuthenticateAdmin(cookie, now).value.orgId;
              && r.value.employees.total == Count(employees, EmployeeInOrg(orgId))
              && r.value.tasks.total == Count(tasks, TaskInOrg(orgId))
              && (forall x :: x in r.value.topEmployees ==>
                    exists e :: && e in employees && e.orgId == orgId && e.isActive
                                && x == TopRow(e, Filter(tasks, TaskInOrg(orgId))))
              && (forall t :: t in r.value.recentTasks ==> t in tasks && t.orgId == orgId)
              && (forall x :: x in r.value.deptBreakdown ==>
                    exists e :: e in employees && e.orgId == orgId && e.isActive && e.department == x.department)
  {
    match AuthenticateAdmin(cookie, now)
    case Failure(status, error) => Failure(status, error)
    case Success(_, p) =>
      var staff := Filter(employees, EmployeeInOrg(p.orgId));
      var orgTasks := Filter(tasks, TaskInOrg(p.orgId));
      var actives := Filter(staff, IsActiveEmployee);
      var d := Dashboard(CountEmployees(staff), CountTasks(orgTasks, now), TopEmployees(staff, orgTasks),
                         RecentTasks(orgTasks), DeptBreakdown(actives));
      TenantScoped(employees, tasks, p.orgId, d);
      Success(OK, d)
  }

  /** The facts behind `GetDashboard`'s promise that every row belongs to the org. */
  lemma TenantScoped(employees: seq<Employee>, tasks: seq<Task>, orgId: nat, d: Dashboard)
    requires var staff := Filter(employees, EmployeeInOrg(orgId));
             var orgTasks := Filter(tasks, TaskInOrg(orgId));
             d.topEmployees == TopEmployees(staff, orgTasks) && d.recentTasks == RecentTasks(orgTasks)
             && d.deptBreakdown == DeptBreakdown(Filter(staff, IsActiveEmployee))
    ensures forall x :: x in d.topEmployees ==>
              exists e :: && e in employees && e.orgId == orgId && e.isActive
                          && x == TopRow(e, Filter(tasks, TaskInOrg(orgId)))
    ensures forall t :: t in d.recentTasks ==> t in tasks && t.orgId == orgId
    ensures forall x :: x in d.deptBreakdown ==>
              exists e :: e in employees && e.orgId == orgId && e.isActive && e.department == x.department
  {
    TopEmployeesInOrg(employees, tasks, orgId, d.topEmployees);
    RecentTasksInOrg(tasks, orgId, d.recentTasks);
    DepartmentsInOrg(employees, orgId, d.deptBreakdown);
  }

  lemma TopEmployeesInOrg(employees: seq<Employee>, tasks: seq<Task>, orgId: nat, top: seq<TopEmployee>)
    requires top == TopEmployees(Filter(employees, EmployeeInOrg(orgId)), Filter(tasks, TaskInOrg(orgId)))
    ensures forall x :: x in top ==>
              exists e :: && e in employees && e.orgId == orgId && e.isActive
                          && x == TopRow(e, Filter(tasks, TaskInOrg(orgId)))
  {
    var staff := Filter(employees, EmployeeInOrg(orgId));
    var orgTasks := Filter(tasks, TaskInOrg(orgId));
    forall x | x in top
      ensures exists e :: e in employees && e.orgId == orgId && e.isActive && x == TopRow(e, orgTasks)
    {
      var e :| e in staff && e.isActive && x == TopRow(e, orgTasks);
      FilterMembership(employees, EmployeeInOrg(orgId), e);
    }
  }

  lemma RecentTasksInOrg(tasks: seq<Task>, orgId: nat, recent: seq<Task>)
    requires recent == RecentTasks(Filter(tasks, TaskInOrg(orgId)))
    ensures forall t :: t in recent ==> t in tasks && t.orgId == orgId
  {
    forall t | t in recent ensures t in tasks && t.orgId == orgId {
      assert t in multiset(Filter(tasks, TaskInOrg(orgId)));
      FilterMembership(tasks, TaskInOrg(orgId), t);
    }
  }

  lemma DepartmentsInOrg(employees: seq<Employee>, orgId: nat, depts: seq<DepartmentCount>)
    requires depts == DeptBreakdown(Filter(Filter(employees, EmployeeInOrg(orgId)), IsActiveEmployee))
    ensures forall x :: x in depts ==>
              exists e :: e in employees && e.orgId == orgId && e.isActive && e.department == x.department
  {
    var actives := Filter(Filter(employees, EmployeeInOrg(orgId)), IsActiveEmployee);
    var named := set e | e in actives :: e.department;
    assert (set x | x in depts :: x.department) == named;
    forall x | x in depts
      ensures exists e :: e in employees && e.orgId == orgId && e.isActive && e.department == x.department
    {
      assert x.department in named;
      var e :| e in actives && e.department == x.department;
      ActiveStaff(employees, orgId, e);
    }
  }

  /** An active employee of the org's staff is an active employee of the table in that org. */
  lemma ActiveStaff(employees: seq<Employee>, orgId: nat, e: Employee)
    requires e in Filter(Filter(employees, EmployeeInOrg(orgId)), IsActiveEmployee)
    ensures e in employees && e.orgId == orgId && e.isActive
  {
    FilterMembership(Filter(employees, EmployeeInOrg(orgId)), IsActiveEmployee, e);
    FilterMembership(employees, EmployeeInOrg(orgId), e);
  }
}
