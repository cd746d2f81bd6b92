/** The AI routes (`/api/ai`): the productivity scores, the skill gaps and
    the assignment recommendations of the admin's own organization, computed
    by `AiService` over rows read from the tables. */
module AiRoutes {
  import opened Wrappers
  import opened Seqs
  import opened Sorting
  import opened Text
  import opened Crypto
  import opened Records
  import opened Http
  import opened Middleware
  import opened AiService
  import opened EmployeeRoutes

  const TITLE_REQUIRED: string := "Task title is required."

  /** `ORDER BY name`, comparing character codes. */
  predicate NameOrder(a: Employee, b: Employee) {
    LexLe(a.name, b.name)
  }

  lemma NameOrderIsTotalPreorder()
    ensures TotalPreorder(NameOrder)
  {
    forall a: Employee, b: Employee ensures NameOrder(a, b) || NameOrder(b, a) {
      LexLeTotal(a.name, b.name);
    }
    forall a: Employee, b: Employee, c: Employee | NameOrder(a, b) && NameOrder(b, c) ensures NameOrder(a, c) {
      LexLeTransitive(a.name, b.name, c.name);
    }
  }

  /** The org's employees as `SELECT ... WHERE org_id = $1 ORDER BY name`
      returns them. */
  function StaffByName(employees: seq<Employee>, orgId: nat): (r: seq<Employee>)
    ensures multiset(r) == multiset(Filter(employees, EmployeeInOrg(orgId)))
    ensures forall i, j :: 0 <= i < j < |r| ==> LexLe(r[i].name, r[j].name)
  {
    var r := SortBy(Filter(employees, EmployeeInOrg(orgId)), NameOrder);
    NameOrderIsTotalPreorder();
    SortBySorted(Filter(employees, EmployeeInOrg(orgId)), NameOrder);
    assert forall i, j :: 0 <= i < j < |r| ==> NameOrder(r[i], r[j]);
    r
  }

  /** A member of `StaffByName` is an employee of that org. */
  lemma StaffMember(employees: seq<Employee>, orgId: nat, e: Employee)
    requires e in StaffByName(employees, orgId)
    ensures e in employees && e.orgId == orgId
  {
    assert e in multiset(Filter(employees, EmployeeInOrg(orgId)));
    FilterMembership(employees, EmployeeInOrg(orgId), e);
  }

  // ---------------------------------------------------------------------
  // GET /productivity
  // ---------------------------------------------------------------------

  /** One entry of the productivity list: the employee's columns and the
      score result spread into it. */
  datatype ProductivityRow = ProductivityRow(
    id: nat,
    name: string,
    role: string,
    department: string,
    isActive: bool,
    skills: seq<string>,
    result: ScoreResult)

  /** The entry for `e`, scored over exactly the tasks assigned to `e`. */
  function ScoreRow(e: Employee, orgTasks: seq<Task>, now: int): (row: ProductivityRow)
    ensures row.id == e.id && row.name == e.name && row.role == e.role && row.department == e.department
    ensures row.isActive == e.isActive && row.skills == e.skills
    ensures row.result == CalculateProductivityScore(e, TasksOf(orgTasks, e.id), now)
    ensures row.result.stats.total == |TasksOf(orgTasks, e.id)|
    ensures 0 <= row.result.score <= 100
  {
    ProductivityRow(e.id, e.name, e.role, e.department, e.isActive, e.skills,
                    CalculateProductivityScore(e, TasksOf(orgTasks, e.id), now))
  }

  function ScoreRowWith(orgTasks: seq<Task>, now: int): Employee -> ProductivityRow {
    (e: Employee) => ScoreRow(e, orgTasks, now)
  }

  /** The comparator `b.score - a.score`. */
  predicate HigherScore(a: ProductivityRow, b: ProductivityRow) {
    a.result.score >= b.result.score
  }

  lemma HigherScoreIsTotalPreorder()
    ensures TotalPreorder(HigherScore)
  {
  }

  predicate RowNameOrder(a: ProductivityRow, b: ProductivityRow) {
    LexLe(a.name, b.name)
  }

  /** The productivity list before sorting: one entry per org employee in
      name order. */
  function ScoreRows(employees: seq<Employee>, orgTasks: seq<Task>, orgId: nat, now: int): (rows: seq<ProductivityRow>)
    ensures SortedBy(rows, RowNameOrder)
  {
    var staff := StaffByName(employees, orgId);
    var rows := Map(staff, ScoreRowWith(orgTasks, now));
    assert forall i, j :: 0 <= i < j < |rows| ==> RowNameOrder(rows[i], rows[j]) by {
      forall i, j | 0 <= i < j < |rows| ensures RowNameOrder(rows[i], rows[j]) {
        assert rows[i].name == staff[i].name && rows[j].name == staff[j].name;
      }
    }
    rows
  }

  /** `GET /api/ai/productivity` at time `now`, behind the session middleware
      and the admin guard: every employee of the org, inactive ones included,
      scored over their own tasks in the org, highest score first; equal
      scores stay in name order. */
  function Productivity(cookie: Option<Token>, now: int, employees: seq<Employee>, tasks: seq<Task>)
    : (r: Outcome<seq<ProductivityRow>>)
    ensures var a := AuthenticateAdmin(cookie, now);
            && (a.Failure? ==> r == Failure(a.status, a.error))
            && (a.Success? ==> r.Success? && r.status == OK)
    ensures r.Success? ==>
              var orgId := AuthenticateAdmin(cookie, now).value.orgId;
              var orgTasks := Filter(tasks, TaskInOrg(orgId));
              && multiset(r.value) == multiset(Map(Filter(employees, EmployeeInOrg(orgId)), ScoreRowWith(orgTasks, now)))
              && (forall i, j :: 0 <= i < j < |r.value| ==> r.value[i].result.score >= r.value[j].result.score)
              && (forall c :: SortedBy(TiedWith(r.value, HigherScore, c), RowNameOrder))
  {
    match AuthenticateAdmin(cookie, now)
    case Failure(status, error) => Failure(status, error)
    case Success(_, p) =>
      var orgTasks := Filter(tasks, TaskInOrg(p.orgId));
      var rows := ScoreRows(employees, orgTasks, p.orgId, now);
      var sorted := SortBy(rows, HigherScore);
      ProductivityFacts(employees, orgTasks, p.orgId, now);
      Success(OK, sorted)
  }

  lemma ProductivityFacts(employees: seq<Employee>, orgTasks: seq<Task>, orgId: nat, now: int)
    ensures var sorted := SortBy(ScoreRows(employees, orgTasks, orgId, now), HigherScore);
            && multiset(sorted) == multiset(Map(Filter(employees, EmployeeInOrg(orgId)), ScoreRowWith(orgTasks, now)))
            && (forall i, j :: 0 <= i < j < |sorted| ==> sorted[i].result.score >= sorted[j].result.score)
            && (forall c :: SortedBy(TiedWith(sorted, HigherScore, c), RowNameOrder))
  {
    var rows := ScoreRows(employees, orgTasks, orgId, now);
    HigherScoreIsTotalPreorder();
    ScoresDescending(rows);
    MapPermutation(StaffByName(employees, orgId), Filter(employees, EmployeeInOrg(orgId)), ScoreRowWith(orgTasks, now));
    TiesKeepOrder(rows, HigherScore, RowNameOrder);
  }

  lemma ScoresDescending(rows: seq<ProductivityRow>)
    ensures forall i, j :: 0 <= i < j < |SortBy(rows, HigherScore)| ==>
              SortBy(rows, HigherScore)[i].result.score >= SortBy(rows, HigherScore)[j].result.score
  {
    HigherScoreIsTotalPreorder();
    SortBySorted(rows, HigherScore);
  }

  // ---------------------------------------------------------------------
  // GET /skill-gap
  // ---------------------------------------------------------------------

  datatype SkillGapRow = SkillGapRow(
    id: nat,
    name: string,
    role: string,
    department: string,
    skills: seq<string>,
    gap: GapResult)

  const SKILL_GAP_ERROR: string := "Server error computing skill gaps."

  /** The entry for `e` when `detectSkillGap(e)` returns: its columns and
      the gap between its role's skills and its declared skills. */
  function GapRow(e: Employee): (row: SkillGapRow)
    ensures row.id == e.id && row.name == e.name && row.role == e.role && row.department == e.department
    ensures row.skills == e.skills
    ensures !GapThrows(e.role) ==> DetectSkillGap(e) == Some(row.gap)
    ensures row.gap.required == RoleSkills(e.role) && row.gap.has == e.skills
  {
    SkillGapRow(e.id, e.name, e.role, e.department, e.skills, GapFor(RoleSkills(e.role), e.skills))
  }

  function GapThrowsFor(e: Employee): bool {
    GapThrows(e.role)
  }

  /** `GET /api/ai/skill-gap` at time `now`, behind the session middleware
      and the admin guard. When `detectSkillGap` throws for some employee of
      the org the whole route answers 500; otherwise one entry per org
      employee, in name order, whose gap is `detectSkillGap` of that employee. */
  function SkillGaps(cookie: Option<Token>, now: int, employees: seq<Employee>): (r: Outcome<seq<SkillGapRow>>)
    ensures var a := AuthenticateAdmin(cookie, now);
            && (a.Failure? ==> r == Failure(a.status, a.error))
            && (a.Success? ==>
                  var orgId := a.value.orgId;
                  && (r.Failure? <==>
                        exists e :: e in employees && e.orgId == orgId && DetectSkillGap(e).None?)
                  && (r.Failure? ==> r == Failure(SERVER_ERROR, SKILL_GAP_ERROR))
                  && (r.Success? ==> r.status == OK))
    ensures r.Success? ==>
              var orgId := AuthenticateAdmin(cookie, now).value.orgId;
              && multiset(r.value) == multiset(Map(Filter(employees, EmployeeInOrg(orgId)), GapRow))
              && (forall i, j :: 0 <= i < j < |r.value| ==> LexLe(r.value[i].name, r.value[j].name))
              && (forall e :: e in employees && e.orgId == orgId ==>
                    DetectSkillGap(e) == Some(GapRow(e).gap))
  {
    match AuthenticateAdmin(cookie, now)
    case Failure(status, error) => Failure(status, error)
    case Success(_, p) =>
      var staff := StaffByName(employees, p.orgId);
      StaffExactly(employees, p.orgId);
      if exists e :: e in staff && GapThrowsFor(e) then Failure(SERVER_ERROR, SKILL_GAP_ERROR)
      else
        var rows := Map(staff, GapRow);
        MapPermutation(staff, Filter(employees, EmployeeInOrg(p.orgId)), GapRow);
        assert forall i, j :: 0 <= i < j < |rows| ==> LexLe(rows[i].name, rows[j].name) by {
          forall i, j | 0 <= i < j < |rows| ensures LexLe(rows[i].name, rows[j].name) {
            assert rows[i].name == staff[i].name && rows[j].name == staff[j].name;
          }
        }
        Success(OK, rows)
  }

  /** The members of `StaffByName` are exactly the org's employees. */
  lemma StaffExactly(employees: seq<Employee>, orgId: nat)
    ensures forall e :: e in StaffByName(employees, orgId) <==> e in employees && e.orgId == orgId
  {
    var staff := StaffByName(employees, orgId);
    forall e ensures e in staff <==> e in employees && e.orgId == orgId {
      assert e in staff <==> e in multiset(staff);
      FilterMembership(employees, EmployeeInOrg(orgId), e);
    }
  }

  // ---------------------------------------------------------------------
  // POST /assign
  // ---------------------------------------------------------------------

  /** `POST /api/ai/assign` at time `now`, behind the session middleware and
      the admin guard. Without a title 400; otherwise exactly what
      `recommendEmployee` answers for the org's active employees and the
      org's tasks, with `required_skills` defaulting to none. */
  function Assign(cookie: Option<Token>, now: int, employees: seq<Employee>, tasks: seq<Task>,
                  title: Option<string>, requiredSkills: Option<seq<string>>): (r: Outcome<seq<Recommendation>>)
    ensures var a := AuthenticateAdmin(cookie, now);
            && (a.Failure? ==> r == Failure(a.status, a.error))
            && (a.Success? && !Truthy(title) ==> r == Failure(BAD_REQUEST, TITLE_REQUIRED))
            && (a.Success? && Truthy(title) ==>
                  var orgId := a.value.orgId;
                  r == Success(OK, RecommendEmployee(TaskRequest(title.value, requiredSkills.GetOr([])),
                                                     Filter(Filter(employees, EmployeeInOrg(orgId)), IsActiveEmployee),
                                                     Filter(tasks, TaskInOrg(orgId)), now)))
    ensures r.Success? ==>
              forall c :: c in r.value ==>
                c.employee in employees && c.employee.isActive
                && c.employee.orgId == AuthenticateAdmin(cookie, now).value.orgId
  {
    match AuthenticateAdmin(cookie, now)
    case Failure(status, error) => Failure(status, error)
    case Success(_, p) =>
      if !Truthy(title) then Failure(BAD_REQUEST, TITLE_REQUIRED)
      else
        var actives := Filter(Filter(employees, EmployeeInOrg(p.orgId)), IsActiveEmployee);
        var recs := RecommendEmployee(TaskRequest(title.value, requiredSkills.GetOr([])), actives,
                                      Filter(tasks, TaskInOrg(p.orgId)), now);
        RecommendedAreActiveStaff(employees, p.orgId, actives, recs);
        Success(OK, recs)
  }

  /** Every recommendation is for one of the employees passed in, here the
      active employees of the org. */
  lemma RecommendedAreActiveStaff(employees: seq<Employee>, orgId: nat, actives: seq<Employee>, recs: seq<Recommendation>)
    requires actives == Filter(Filter(employees, EmployeeInOrg(orgId)), IsActiveEmployee)
    requires multiset(Map(recs, EmployeeOf)) == multiset(Filter(actives, IsActiveEmployee))
    ensures forall c :: c in recs ==> c.employee in employees && c.employee.isActive && c.employee.orgId == orgId
  {
    forall c | c in recs ensures c.employee in employees && c.employee.isActive && c.employee.orgId == orgId {
      var i :| 0 <= i < |recs| && recs[i] == c;
      assert Map(recs, EmployeeOf)[i] == c.employee;
      assert c.employee in multiset(Filter(actives, IsActiveEmployee));
      FilterMembership(actives, IsActiveEmployee, c.employee);
      FilterMembership(Filter(employees, EmployeeInOrg(orgId)), IsActiveEmployee, c.employee);
      FilterMembership(employees, EmployeeInOrg(orgId), c.employee);
    }
  }
}
