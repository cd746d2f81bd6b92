/** The rule-based scoring engine: productivity scores, skill-gap detection
    and the ranking of employees for a new task. Every function here is pure;
    the clock is the parameter `now`. */
module AiService {
  import opened Wrappers
  import opened Seqs
  import opened Sorting
  import opened Text
  import opened JsMath
  import opened Records

  // ---------------------------------------------------------------------
  // Productivity scoring
  // ---------------------------------------------------------------------

  const OVERDUE_PENALTY: nat := 5
  const MAX_PENALTY: nat := 20

  datatype Breakdown = Breakdown(base: int, speedBonus: int, overduePenalty: int)
  datatype Stats = Stats(total: nat, completed: nat, overdue: nat, completedOnTime: nat)
  datatype ScoreResult = ScoreResult(
    score: int,
    grade: string,
    insight: string,
    breakdown: Breakdown,
    stats: Stats)

  /** Due strictly before `now` and not completed. */
  function IsOverdue(t: Task, now: int): (b: bool)
    ensures b ==> t.dueDate.Some? && !IsCompleted(t)
  {
    t.dueDate.Some? && t.dueDate.value < now && t.status != COMPLETED
  }

  /** A task overdue at one time stays overdue later, as long as it is not completed. */
  lemma OverdueStaysOverdue(t: Task, now: int, later: int)
    requires IsOverdue(t, now) && now <= later
    ensures IsOverdue(t, later)
  {
  }

  function OverdueAt(now: int): Task -> bool {
    (t: Task) => IsOverdue(t, now)
  }

  /** Completed, with both dates present and completion no later than the due date. */
  function IsCompletedOnTime(t: Task): (b: bool)
    ensures b ==> IsCompleted(t) && t.completedAt.Some? && t.dueDate.Some?
  {
    && t.status == COMPLETED
    && t.dueDate.Some? && t.completedAt.Some?
    && t.completedAt.value <= t.dueDate.value
  }

  /** The four counts over one employee's tasks: all of them, the completed
      ones, the ones overdue at `now` and the ones completed on time. */
  function TaskStats(tasks: seq<Task>, now: int): (s: Stats)
    ensures s.total == |tasks|
    ensures s.completed == Count(tasks, IsCompleted)
    ensures s.overdue == Count(tasks, OverdueAt(now))
    ensures s.completedOnTime == Count(tasks, IsCompletedOnTime)
    ensures s.completedOnTime <= s.completed <= s.total
    ensures s.overdue + s.completed <= s.total
  {
    CountMonotone(tasks, IsCompletedOnTime, IsCompleted);
    CountDisjoint(tasks, OverdueAt(now), IsCompleted);
    Stats(|tasks|, Count(tasks, IsCompleted), Count(tasks, OverdueAt(now)), Count(tasks, IsCompletedOnTime))
  }

  /** The completion percentage, `completed / total * 100`. */
  function BaseScore(s: Stats): (b: real)
    requires s.total > 0 && s.completed <= s.total
    ensures 0.0 <= b <= 100.0
  {
    (s.completed as real / s.total as real) * 100.0
  }

  /** Up to 10 points for the share of completed tasks that were on time. */
  function SpeedBonus(s: Stats): (b: real)
    requires s.completedOnTime <= s.completed
    ensures 0.0 <= b <= 10.0
    ensures s.completed == 0 ==> b == 0.0
  {
    if s.completed > 0 then (s.completedOnTime as real / s.completed as real) * 10.0 else 0.0
  }

  /** Five points per overdue task, capped at twenty. */
  function OverduePenalty(overdue: nat): (p: nat)
    ensures p <= MAX_PENALTY
    ensures p == if overdue * OVERDUE_PENALTY <= MAX_PENALTY then overdue * OVERDUE_PENALTY else MAX_PENALTY
  {
    if overdue * OVERDUE_PENALTY <= MAX_PENALTY then overdue * OVERDUE_PENALTY else MAX_PENALTY
  }

  /** The score of a non-empty task history: clamped to [0, 100], then rounded. */
  function ScoreOf(s: Stats): (score: int)
    requires s.total > 0 && s.completedOnTime <= s.completed <= s.total
    ensures 0 <= score <= 100
    ensures var clamped := Clamp(BaseScore(s) + SpeedBonus(s) - OverduePenalty(s.overdue) as real, 0.0, 100.0);
            score as real - 0.5 <= clamped < score as real + 0.5
  {
    var raw := BaseScore(s) + SpeedBonus(s) - OverduePenalty(s.overdue) as real;
    var clamped := Clamp(raw, 0.0, 100.0);
    RoundWithin(clamped, 0, 100);
    Round(clamped)
  }

  /** The letter grade of a score; thresholds are inclusive lower bounds. */
  function GradeFor(score: int): (g: string)
    ensures g == "A" <==> score >= 85
    ensures g == "B" <==> 70 <= score < 85
    ensures g == "C" <==> 50 <= score < 70
    ensures g == "D" <==> 30 <= score < 50
    ensures g == "F" <==> score < 30
  {
    if score >= 85 then "A"
    else if score >= 70 then "B"
    else if score >= 50 then "C"
    else if score >= 30 then "D"
    else "F"
  }

  /** The fixed sentence shown with each grade. */
  function InsightFor(grade: string): (s: string)
    ensures |s| > 0
  {
    if grade == "A" then "Exceptional performer. Consistently delivers on time."
    else if grade == "B" then "Solid performer with minor room for improvement."
    else if grade == "C" then "Average — task completion speed needs work."
    else if grade == "D" then "Below average, consider workload rebalancing."
    else "Critical: very low completion or lots of overdue tasks."
  }

  /** Each of the five grades has its own sentence. */
  lemma InsightNamesTheGrade(g1: string, g2: string)
    requires g1 in ["A", "B", "C", "D", "F"] && g2 in ["A", "B", "C", "D", "F"]
    ensures InsightFor(g1) == InsightFor(g2) <==> g1 == g2
  {
    InsightLength(g1);
    InsightLength(g2);
  }

  /** The five sentences have five different lengths. */
  lemma InsightLength(g: string)
    requires g in ["A", "B", "C", "D", "F"]
    ensures |InsightFor(g)| == if g == "A" then 53 else if g == "B" then 48
                               else if g == "C" then 43 else if g == "D" then 45 else 55
  {
  }

  /** The result for an employee with no tasks. */
  const NO_TASKS: ScoreResult :=
    ScoreResult(0, "N/A", "No tasks assigned yet.", Breakdown(0, 0, 0), Stats(0, 0, 0, 0))

  /** `calculateProductivityScore(employee, tasks)` at time `now`. The
      employee record is accepted and not consulted, as in the source. */
  function CalculateProductivityScore(employee: Employee, tasks: seq<Task>, now: int): (r: ScoreResult)
    ensures tasks == [] ==> r == NO_TASKS
    ensures tasks != [] ==> && r.stats == TaskStats(tasks, now)
                            && r.score == ScoreOf(r.stats)
                            && r.grade == GradeFor(r.score)
                            && r.insight == InsightFor(r.grade)
                            && r.breakdown.base == Round(BaseScore(r.stats))
                            && r.breakdown.speedBonus == Round(SpeedBonus(r.stats))
                            && r.breakdown.overduePenalty == OverduePenalty(r.stats.overdue)
    ensures 0 <= r.score <= 100
    ensures 0 <= r.breakdown.overduePenalty <= MAX_PENALTY
  {
    if tasks == [] then NO_TASKS
    else
      var s := TaskStats(tasks, now);
      var score := ScoreOf(s);
      var grade := GradeFor(score);
      ScoreResult(score, grade, InsightFor(grade),
                  Breakdown(Round(BaseScore(s)), Round(SpeedBonus(s)), OverduePenalty(s.overdue)),
                  s)
  }

  /** The penalty reaches its cap of twenty from four overdue tasks on. */
  lemma PenaltySaturates(overdue: nat)
    ensures overdue >= 4 <==> OverduePenalty(overdue) == MAX_PENALTY
  {
  }

  /** With every other count fixed, more overdue tasks never raise the score. */
  lemma ScoreNonIncreasingInOverdue(s: Stats, moreOverdue: nat)
    requires s.total > 0 && s.completedOnTime <= s.completed <= s.total
    requires s.overdue <= moreOverdue
    ensures ScoreOf(s.(overdue := moreOverdue)) <= ScoreOf(s)
  {
    var t := s.(overdue := moreOverdue);
    var rawS := BaseScore(s) + SpeedBonus(s) - OverduePenalty(s.overdue) as real;
    var rawT := BaseScore(t) + SpeedBonus(t) - OverduePenalty(t.overdue) as real;
    assert rawT <= rawS;
    RoundMonotone(Clamp(rawT, 0.0, 100.0), Clamp(rawS, 0.0, 100.0));
  }

  /** The score, grade and counts do not depend on the order of the tasks. */
  lemma ScoreIgnoresTaskOrder(employee: Employee, a: seq<Task>, b: seq<Task>, now: int)
    requires multiset(a) == multiset(b)
    ensures CalculateProductivityScore(employee, a, now) == CalculateProductivityScore(employee, b, now)
  {
    assert |a| == |multiset(a)| == |multiset(b)| == |b|;
    CountPermutation(a, b, IsCompleted);
    CountPermutation(a, b, OverdueAt(now));
    CountPermutation(a, b, IsCompletedOnTime);
  }

  /** Ten tasks, eight completed, two overdue, six on time: 80 + 7.5 - 10 = 77.5,
      which rounds to 78, grade B. */
  lemma WorkedExampleScore()
    ensures ScoreOf(Stats(10, 8, 2, 6)) == 78
    ensures GradeFor(78) == "B"
    ensures Round(BaseScore(Stats(10, 8, 2, 6))) == 80
    ensures Round(SpeedBonus(Stats(10, 8, 2, 6))) == 8
    ensures OverduePenalty(2) == 10
  {
    var s := Stats(10, 8, 2, 6);
    assert BaseScore(s) == 80.0;
    assert SpeedBonus(s) == 7.5;
    assert Clamp(77.5, 0.0, 100.0) == 77.5;
  }

  // ---------------------------------------------------------------------
  // Skill-gap detection
  // ---------------------------------------------------------------------

  /** `ROLE_SKILLS`: the skills each known role is expected to have. */
  const ROLE_SKILLS: map<string, seq<string>> := map[
    "Software Engineer" := ["JavaScript", "Git", "SQL", "REST APIs", "Testing"],
    "Senior Engineer" := ["JavaScript", "Git", "SQL", "REST APIs", "Testing", "System Design", "Code Review"],
    "Team Lead" := ["JavaScript", "Git", "System Design", "Code Review", "Project Management", "Communication"],
    "Manager" := ["Project Management", "Communication", "Leadership", "Budgeting", "Reporting"],
    "Designer" := ["Figma", "UI/UX", "Prototyping", "CSS", "User Research"],
    "Analyst" := ["SQL", "Excel", "Data Visualization", "Reporting", "Python"],
    "HR Manager" := ["Recruitment", "Onboarding", "Compliance", "Communication", "HRIS"],
    "Sales Rep" := ["CRM", "Communication", "Negotiation", "Product Knowledge", "Lead Generation"],
    "DevOps Engineer" := ["Docker", "Kubernetes", "CI/CD", "Linux", "Cloud (AWS/GCP/Azure)", "Monitoring"],
    "Data Scientist" := ["Python", "Machine Learning", "SQL", "Statistics", "Data Visualization", "TensorFlow"]
  ]

  /** The members a plain object literal inherits from `Object.prototype`
      that are functions, each with its `length` (its declared parameter
      count). A lookup `ROLE_SKILLS[role]` finds these too. The one other
      inherited member, `__proto__`, yields an object without a `length`,
      which the lookup treats like a missing key. */
  const OBJECT_PROTOTYPE_METHODS: map<string, nat> := map[
    "constructor" := 1,
    "hasOwnProperty" := 1,
    "isPrototypeOf" := 1,
    "propertyIsEnumerable" := 1,
    "toString" := 0,
    "toLocaleString" := 0,
    "valueOf" := 0,
    "__defineGetter__" := 2,
    "__defineSetter__" := 2,
    "__lookupGetter__" := 1,
    "__lookupSetter__" := 1
  ]

  /** What `ROLE_SKILLS[role]` yields: a catalogue entry, an inherited method
      of the given `length`, or nothing usable. */
  datatype RoleEntry = Listed(skills: seq<string>) | Inherited(length: nat) | Missing

  /** `ROLE_SKILLS[role]` on the object literal: its own keys first, then the
      inherited methods. */
  function LookupRole(role: string): (l: RoleEntry)
    ensures l.Listed? <==> role in ROLE_SKILLS
    ensures l.Listed? ==> l.skills == ROLE_SKILLS[role]
    ensures l.Inherited? <==> role !in ROLE_SKILLS && role in OBJECT_PROTOTYPE_METHODS
    ensures l.Inherited? ==> l.length == OBJECT_PROTOTYPE_METHODS[role]
  {
    if role in ROLE_SKILLS then Listed(ROLE_SKILLS[role])
    else if role in OBJECT_PROTOTYPE_METHODS then Inherited(OBJECT_PROTOTYPE_METHODS[role])
    else Missing
  }

  /** `detectSkillGap` throws a TypeError for this role: the lookup finds an
      inherited method with a non-zero `length`, so the empty-list shortcut
      is skipped, and a function has no `filter`. */
  predicate GapThrows(role: string) {
    LookupRole(role).Inherited? && LookupRole(role).length > 0
  }

  /** Exactly eight role names make `detectSkillGap` throw. */
  lemma ThrowingRoles(role: string)
    ensures GapThrows(role) <==>
              role in {"constructor", "hasOwnProperty", "isPrototypeOf", "propertyIsEnumerable",
                       "__defineGetter__", "__defineSetter__", "__lookupGetter__", "__lookupSetter__"}
  {
  }

  /** The skills the role requires once `detectSkillGap` has not thrown: the
      catalogue entry, and none for any other role. */
  function RoleSkills(role: string): (r: seq<string>)
    ensures role in ROLE_SKILLS ==> r == ROLE_SKILLS[role]
    ensures role !in ROLE_SKILLS ==> r == []
  {
    match LookupRole(role)
    case Listed(skills) => skills
    case _ => []
  }

  /** Every role in the catalogue expects at least five skills. */
  lemma KnownRolesExpectSkills(role: string)
    requires role in ROLE_SKILLS
    ensures |RoleSkills(role)| >= 5
  {
  }

  /** A declared skill as it is compared: lower-cased, then trimmed. */
  function NormalizeSkill(s: string): string {
    Trim(ToLower(s))
  }

  /** `(skills || []).map(s => s.toLowerCase().trim())`. */
  function NormalizeSkills(skills: seq<string>): (r: seq<string>)
    ensures |r| == |skills|
    ensures forall i :: 0 <= i < |skills| ==> r[i] == NormalizeSkill(skills[i])
  {
    Map(skills, NormalizeSkill)
  }

  /** `empSkills.some(s => s.includes(req) || req.includes(s))`: some declared
      skill contains the label or is contained in it. */
  function SkillMatched(empSkills: seq<string>, req: string): (b: bool)
    ensures empSkills == [] ==> !b
    ensures req in empSkills ==> b
  {
    exists i :: 0 <= i < |empSkills| && (Includes(empSkills[i], req) || Includes(req, empSkills[i]))
  }

  /** The filter that keeps the required skills no declared skill matches. */
  function IsMissing(empSkills: seq<string>): string -> bool {
    (req: string) => !SkillMatched(empSkills, ToLower(req))
  }

  datatype GapResult = GapResult(
    required: seq<string>,
    missing: seq<string>,
    has: seq<string>,
    coveragePercent: int)

  /** The share, in whole percent, of `required` skills not `missing`. */
  function Coverage(required: nat, missing: nat): (c: int)
    requires 0 < required && missing <= required
    ensures 0 <= c <= 100
    ensures c as real - 0.5 <= (required - missing) as real / required as real * 100.0 < c as real + 0.5
    ensures missing == 0 ==> c == 100
    ensures missing == required ==> c == 0
  {
    var ratio := (required - missing) as real / required as real;
    assert 0.0 <= ratio <= 1.0;
    assert missing == 0 ==> ratio == 1.0;
    assert missing == required ==> ratio == 0.0;
    RoundWithin(ratio * 100.0, 0, 100);
    RoundOfInt(100);
    RoundOfInt(0);
    Round(ratio * 100.0)
  }

  /** `required.filter(req => !empSkills.some(...))`: the required skills that no
      normalized declared skill matches, in catalogue order. */
  function MissingSkills(required: seq<string>, empSkills: seq<string>): (m: seq<string>)
    ensures |m| <= |required|
    ensures |m| == Count(required, IsMissing(empSkills))
    ensures IsSubsequence(m, required)
    ensures forall req :: req in m <==> req in required && !SkillMatched(empSkills, ToLower(req))
  {
    var m := Filter(required, IsMissing(empSkills));
    FilterIsSubsequence(required, IsMissing(empSkills));
    assert forall req :: req in m <==> req in required && IsMissing(empSkills)(req) by {
      forall req ensures req in m <==> req in required && IsMissing(empSkills)(req) {
        FilterMembership(required, IsMissing(empSkills), req);
      }
    }
    m
  }

  /** `detectSkillGap(employee)`; `None` when the call throws. */
  function DetectSkillGap(employee: Employee): (g: Option<GapResult>)
    ensures g.None? <==> GapThrows(employee.role)
    ensures g.Some? ==> g.value == GapFor(RoleSkills(employee.role), employee.skills)
    ensures g.Some? ==> && g.value.has == employee.skills
                        && g.value.required == RoleSkills(employee.role)
                        && (g.value.required == [] ==> g.value == GapResult([], [], employee.skills, 100))
                        && IsSubsequence(g.value.missing, g.value.required)
                        && 0 <= g.value.coveragePercent <= 100
    ensures g.Some? ==> forall req :: req in g.value.missing <==>
              req in g.value.required && !SkillMatched(NormalizeSkills(employee.skills), ToLower(req))
  {
    match LookupRole(employee.role)
    case Listed(required) => Some(GapFor(required, employee.skills))
    case Inherited(length) => if length == 0 then Some(GapFor([], employee.skills)) else None
    case Missing => Some(GapFor([], employee.skills))
  }

  /** The gap between the skills a role requires and the skills declared. */
  function GapFor(required: seq<string>, skills: seq<string>): (g: GapResult)
    ensures g.has == skills && g.required == required
    ensures required == [] ==> g == GapResult([], [], skills, 100)
    ensures IsSubsequence(g.missing, required)
    ensures forall req :: req in g.missing <==>
              req in required && !SkillMatched(NormalizeSkills(skills), ToLower(req))
    ensures required != [] ==> g.missing == MissingSkills(required, NormalizeSkills(skills))
    ensures 0 <= g.coveragePercent <= 100
    ensures required != [] ==> g.coveragePercent == Coverage(|required|, |g.missing|)
    ensures g.missing == [] ==> g.coveragePercent == 100
    ensures required != [] && g.missing == required ==> g.coveragePercent == 0
  {
    if |required| == 0 then
      assert SubsequenceVia<string>([], [], []);
      GapResult([], [], skills, 100)
    else
      var missing := MissingSkills(required, NormalizeSkills(skills));
      GapResult(required, missing, skills, Coverage(|required|, |missing|))
  }

  /** For a role outside the catalogue either the call throws (an inherited
      method's name) or nothing is required, nothing is missing, and coverage
      is full. */
  lemma UnknownRoleHasNoGap(employee: Employee)
    requires employee.role !in ROLE_SKILLS
    ensures DetectSkillGap(employee) ==
              if GapThrows(employee.role) then None else Some(GapResult([], [], employee.skills, 100))
  {
  }

  /** A declared skill that is blank once trimmed matches every required skill,
      because every string includes the empty string. */
  lemma BlankSkillMatchesEverything(skills: seq<string>, k: nat, req: string)
    requires k < |skills| && NormalizeSkill(skills[k]) == ""
    ensures SkillMatched(NormalizeSkills(skills), req)
  {
    IncludesEmpty(req);
    assert NormalizeSkills(skills)[k] == "";
  }

  /** Hence an employee with a blank skill has no gap, whatever the role,
      unless the call throws. */
  lemma BlankSkillClosesEveryGap(employee: Employee, k: nat)
    requires k < |employee.skills| && NormalizeSkill(employee.skills[k]) == ""
    ensures DetectSkillGap(employee).Some? ==> DetectSkillGap(employee).value.missing == []
    ensures DetectSkillGap(employee).Some? ==> DetectSkillGap(employee).value.coveragePercent == 100
  {
    BlankSkillClosesGap(RoleSkills(employee.role), employee.skills, k);
  }

  lemma BlankSkillClosesGap(required: seq<string>, skills: seq<string>, k: nat)
    requires k < |skills| && NormalizeSkill(skills[k]) == ""
    ensures GapFor(required, skills).missing == []
    ensures GapFor(required, skills).coveragePercent == 100
  {
    var g := GapFor(required, skills);
    if g.missing != [] {
      BlankSkillMatchesEverything(skills, k, ToLower(g.missing[0]));
      assert false;
    }
  }

  // Worked example for a Designer declaring ["Figma", "css"], built from small
  // steps so that each string comparison stays cheap for the solver.

  /** None of the designer's two normalized skills matches `req`. */
  lemma NeitherDesignerSkillMatches(req: string)
    requires |req| >= 5 && req[0] != 'f'
    requires 'f' !in req[..|req| - 4] && 'c' !in req[..|req| - 2]
    ensures !SkillMatched(["figma", "css"], req)
  {
    NotIncludes("figma", req);
    NotIncludes(req, "figma");
    NotIncludes("css", req);
    NotIncludes(req, "css");
    var s := ["figma", "css"];
    assert s[0] == "figma" && s[1] == "css";
  }
  lemma NormalizeFigma() ensures NormalizeSkill("Figma") == "figma" {
    assert ToLower("Figma") == "figma";
    TrimNoop("figma");
  }
  lemma NormalizeCss() ensures NormalizeSkill("css") == "css" {
    assert ToLower("css") == "css";
    TrimNoop("css");
  }
  lemma DesignerSkillsNormalize()
    ensures NormalizeSkills(["Figma", "css"]) == ["figma", "css"]
  {
    MapPair("Figma", "css", NormalizeSkill);
    NormalizeFigma();
    NormalizeCss();
  }
  lemma DesignerHas()
    ensures !IsMissing(["figma", "css"])("Figma") && !IsMissing(["figma", "css"])("CSS")
  {
    var s := ["figma", "css"];
    assert ToLower("Figma") == "figma" && ToLower("CSS") == "css";
    assert OccursAt(s[0], "figma", 0) && OccursAt(s[1], "css", 0);
  }
  lemma DesignerLacks()
    ensures IsMissing(["figma", "css"])("UI/UX")
    ensures IsMissing(["figma", "css"])("Prototyping")
    ensures IsMissing(["figma", "css"])("User Research")
  {
    assert ToLower("UI/UX") == "ui/ux";
    NeitherDesignerSkillMatches("ui/ux");
    assert ToLower("Prototyping") == "prototyping";
    NeitherDesignerSkillMatches("prototyping");
    assert ToLower("User Research") == "user research";
    NeitherDesignerSkillMatches("user research");
  }
  lemma DesignerFilter()
    ensures Filter(["Figma", "UI/UX", "Prototyping", "CSS", "User Research"], IsMissing(["figma", "css"]))
         == ["UI/UX", "Prototyping", "User Research"]
  {
    var p := IsMissing(["figma", "css"]);
    var s := ["Figma", "UI/UX", "Prototyping", "CSS", "User Research"];
    DesignerHas();
    DesignerLacks();
    FilterHead(s, p);
    FilterHead(s[1..], p);
    FilterHead(s[2..], p);
    FilterHead(s[3..], p);
    FilterHead(s[4..], p);
    assert s[4..][1..] == [];
  }
  lemma DesignerRole()
    ensures RoleSkills("Designer") == ["Figma", "UI/UX", "Prototyping", "CSS", "User Research"]
  {
  }
  lemma CoverageTwoOfFive() ensures Coverage(5, 3) == 40 {
    assert (5 - 3) as real / 5 as real * 100.0 == 40.0;
    RoundOfInt(40);
  }
  /** The worked example: a Designer who declares Figma and css lacks UI/UX,
      Prototyping and User Research, which is 40% coverage. */
  lemma DesignerExample()
    ensures var e := Employee(1, 1, "Ada", "ada@example.com", None, "Designer", "Design", ["Figma", "css"], None, true, 0);
            && DetectSkillGap(e).Some?
            && DetectSkillGap(e).value.missing == ["UI/UX", "Prototyping", "User Research"]
            && DetectSkillGap(e).value.coveragePercent == 40
  {
    DesignerSkillsNormalize();
    DesignerRole();
    DesignerFilter();
    CoverageTwoOfFive();
    assert |RoleSkills("Designer")| == 5;
  }

  // ---------------------------------------------------------------------
  // Task-assignment recommendation
  // ---------------------------------------------------------------------

  /** The part of a task the recommender reads: `{ title, required_skills }`. */
  datatype TaskRequest = TaskRequest(title: string, requiredSkills: seq<string>)

  datatype RecBreakdown = RecBreakdown(skillScore: int, workloadScore: int, prodContrib: int)

  datatype Recommendation = Recommendation(
    employee: Employee,
    totalScore: int,
    matchedSkills: seq<string>,
    activeTasks: nat,
    breakdown: RecBreakdown)

  /** `(task.required_skills || []).map(s => s.toLowerCase())`. */
  function LowerAll(skills: seq<string>): (r: seq<string>)
    ensures |r| == |skills|
    ensures forall i :: 0 <= i < |skills| ==> r[i] == ToLower(skills[i])
  {
    Map(skills, ToLower)
  }

  function MatchedBy(empSkills: seq<string>): string -> bool {
    (req: string) => SkillMatched(empSkills, req)
  }

  /** Up to fifty points for the share of required skills matched; a flat fifty
      when the task requires none. */
  function SkillScore(matched: nat, required: nat): (s: real)
    requires matched <= required
    ensures 0.0 <= s <= 50.0
    ensures required == 0 ==> s == 50.0
    ensures 0 < required && matched == required ==> s == 50.0
    ensures 0 < required ==> s == matched as real / required as real * 50.0
  {
    if required > 0 then (matched as real / required as real) * 50.0 else 50.0
  }

  /** Thirty points less six per active task, never below zero. */
  function WorkloadScore(activeTasks: nat): (w: int)
    ensures 0 <= w <= 30
    ensures activeTasks >= 5 ==> w == 0
    ensures activeTasks < 5 ==> w == 30 - 6 * activeTasks
  {
    if 30 - activeTasks * 6 >= 0 then 30 - activeTasks * 6 else 0
  }

  /** The productivity score scaled to twenty points. */
  function ProdContrib(score: int): (p: real)
    requires 0 <= score <= 100
    ensures 0.0 <= p <= 20.0
    ensures p * 5.0 == score as real
  {
    (score as real / 100.0) * 20.0
  }

  /** `Math.round(skillScore + workloadScore + prodContrib)`: the ranking key. */
  function TotalScore(skillScore: real, workloadScore: int, prodContrib: real): (t: int)
    requires 0.0 <= skillScore <= 50.0 && 0 <= workloadScore <= 30 && 0.0 <= prodContrib <= 20.0
    ensures 0 <= t <= 100
    ensures t as real - 0.5 <= skillScore + workloadScore as real + prodContrib < t as real + 0.5
  {
    RoundWithin(skillScore + workloadScore as real + prodContrib, 0, 100);
    Round(skillScore + workloadScore as real + prodContrib)
  }

  /** The total never falls with more matched skills, fewer active tasks or a
      higher productivity score. */
  lemma TotalScoreMonotone(required: nat, matchedA: nat, matchedB: nat, activeA: nat, activeB: nat,
                           prodA: int, prodB: int)
    requires matchedB <= matchedA <= required
    requires activeA <= activeB
    requires 0 <= prodB <= prodA <= 100
    ensures TotalScore(SkillScore(matchedA, required), WorkloadScore(activeA), ProdContrib(prodA))
         >= TotalScore(SkillScore(matchedB, required), WorkloadScore(activeB), ProdContrib(prodB))
  {
    if required > 0 {
      assert matchedB as real / required as real <= matchedA as real / required as real;
    }
    assert WorkloadScore(activeB) <= WorkloadScore(activeA);
    assert ProdContrib(prodB) <= ProdContrib(prodA);
    RoundMonotone(SkillScore(matchedB, required) + WorkloadScore(activeB) as real + ProdContrib(prodB),
                  SkillScore(matchedA, required) + WorkloadScore(activeA) as real + ProdContrib(prodA));
  }

  /** The candidate entry for one employee, given the lower-cased required skills. */
  function Evaluate(emp: Employee, reqSkills: seq<string>, allTasks: seq<Task>, now: int): (c: Recommendation)
    ensures c.employee == emp
    ensures c.activeTasks == Count(TasksOf(allTasks, emp.id), IsActiveTask)
    ensures IsSubsequence(c.matchedSkills, reqSkills)
    ensures forall req :: req in c.matchedSkills <==>
              req in reqSkills && SkillMatched(NormalizeSkills(emp.skills), req)
    ensures |c.matchedSkills| == Count(reqSkills, MatchedBy(NormalizeSkills(emp.skills)))
    ensures |c.matchedSkills| <= |reqSkills|
    ensures var prod := CalculateProductivityScore(emp, TasksOf(allTasks, emp.id), now).score;
            var skill := SkillScore(|c.matchedSkills|, |reqSkills|);
            && c.totalScore == TotalScore(skill, WorkloadScore(c.activeTasks), ProdContrib(prod))
            && c.breakdown.skillScore == Round(skill)
            && c.breakdown.workloadScore == WorkloadScore(c.activeTasks)
            && c.breakdown.prodContrib == Round(ProdContrib(prod))
    ensures 0 <= c.totalScore <= 100
    ensures 0 <= c.breakdown.skillScore <= 50
    ensures reqSkills == [] ==> c.breakdown.skillScore == 50
    ensures 0 <= c.breakdown.prodContrib <= 20
  {
    var empTasks := TasksOf(allTasks, emp.id);
    var activeTasks := Count(empTasks, IsActiveTask);
    var empSkills := NormalizeSkills(emp.skills);
    var matched := Filter(reqSkills, MatchedBy(empSkills));
    FilterIsSubsequence(reqSkills, MatchedBy(empSkills));
    assert forall req :: req in matched <==> req in reqSkills && MatchedBy(empSkills)(req) by {
      forall req ensures req in matched <==> req in reqSkills && MatchedBy(empSkills)(req) {
        FilterMembership(reqSkills, MatchedBy(empSkills), req);
      }
    }
    var skillScore := SkillScore(|matched|, |reqSkills|);
    var workloadScore := WorkloadScore(activeTasks);
    var prodScore := CalculateProductivityScore(emp, empTasks, now).score;
    var prodContrib := ProdContrib(prodScore);
    RoundWithin(skillScore, 0, 50);
    RoundOfInt(50);
    RoundOfInt(workloadScore);
    RoundWithin(prodContrib, 0, 20);
    Recommendation(emp, TotalScore(skillScore, workloadScore, prodContrib), matched, activeTasks,
                   RecBreakdown(Round(skillScore), Round(workloadScore as real), Round(prodContrib)))
  }

  /** `a` may be listed before `b`: the comparator `b.totalScore - a.totalScore`. */
  predicate RanksAtLeast(a: Recommendation, b: Recommendation) {
    a.totalScore >= b.totalScore
  }

  lemma RanksAtLeastIsTotalPreorder()
    ensures TotalPreorder(RanksAtLeast)
  {
  }

  function EvaluateFor(reqSkills: seq<string>, allTasks: seq<Task>, now: int): Employee -> Recommendation {
    (e: Employee) => Evaluate(e, reqSkills, allTasks, now)
  }

  function EmployeeOf(c: Recommendation): Employee {
    c.employee
  }

  /** The candidate entries before sorting: one per active employee, in input order. */
  function Candidates(task: TaskRequest, employees: seq<Employee>, allTasks: seq<Task>, now: int): seq<Recommendation> {
    Map(Filter(employees, IsActiveEmployee), EvaluateFor(LowerAll(task.requiredSkills), allTasks, now))
  }

  /** `recommendEmployee(task, employees, allTasks)` at time `now`. */
  function RecommendEmployee(task: TaskRequest, employees: seq<Employee>, allTasks: seq<Task>, now: int)
    : (r: seq<Recommendation>)
    ensures employees == [] ==> r == []
    ensures multiset(Map(r, EmployeeOf)) == multiset(Filter(employees, IsActiveEmployee))
    ensures forall i :: 0 <= i < |r| ==>
              r[i] == Evaluate(r[i].employee, LowerAll(task.requiredSkills), allTasks, now)
    ensures forall i, j :: 0 <= i < j < |r| ==> r[i].totalScore >= r[j].totalScore
    ensures forall c :: TiedWith(r, RanksAtLeast, c) == TiedWith(Candidates(task, employees, allTasks, now), RanksAtLeast, c)
  {
    if employees == [] then [] else
    RecommendFacts(task, employees, allTasks, now);
    SortBy(Candidates(task, employees, allTasks, now), RanksAtLeast)
  }

  lemma RecommendFacts(task: TaskRequest, employees: seq<Employee>, allTasks: seq<Task>, now: int)
    ensures var r := SortBy(Candidates(task, employees, allTasks, now), RanksAtLeast);
      && multiset(Map(r, EmployeeOf)) == multiset(Filter(employees, IsActiveEmployee))
      && (forall i :: 0 <= i < |r| ==>
            r[i] == Evaluate(r[i].employee, LowerAll(task.requiredSkills), allTasks, now))
      && (forall i, j :: 0 <= i < j < |r| ==> r[i].totalScore >= r[j].totalScore)
      && (forall c :: TiedWith(r, RanksAtLeast, c) == TiedWith(Candidates(task, employees, allTasks, now), RanksAtLeast, c))
  {
    var cands := Candidates(task, employees, allTasks, now);
    var r := SortBy(cands, RanksAtLeast);
    RankedByScore(cands);
    CandidatesEvaluate(task, employees, allTasks, now);
    MapPermutation(r, cands, EmployeeOf);
    forall i | 0 <= i < |r|
      ensures r[i] == Evaluate(r[i].employee, LowerAll(task.requiredSkills), allTasks, now)
    {
      assert r[i] in multiset(cands);
    }
  }

  /** Sorting candidates by score puts higher scores first and keeps the
      input order among equal scores. */
  lemma RankedByScore(cands: seq<Recommendation>)
    ensures forall i, j :: 0 <= i < j < |SortBy(cands, RanksAtLeast)| ==>
              SortBy(cands, RanksAtLeast)[i].totalScore >= SortBy(cands, RanksAtLeast)[j].totalScore
    ensures forall c :: TiedWith(SortBy(cands, RanksAtLeast), RanksAtLeast, c) == TiedWith(cands, RanksAtLeast, c)
  {
    RanksAtLeastIsTotalPreorder();
    SortBySorted(cands, RanksAtLeast);
    forall c ensures TiedWith(SortBy(cands, RanksAtLeast), RanksAtLeast, c) == TiedWith(cands, RanksAtLeast, c) {
      SortByStable(cands, RanksAtLeast, c);
    }
  }

  /** Each candidate is the evaluation of its own employee, and the candidates'
      employees are the active ones in order. */
  lemma CandidatesEvaluate(task: TaskRequest, employees: seq<Employee>, allTasks: seq<Task>, now: int)
    ensures Map(Candidates(task, employees, allTasks, now), EmployeeOf) == Filter(employees, IsActiveEmployee)
    ensures forall c :: c in Candidates(task, employees, allTasks, now) ==>
              c == Evaluate(c.employee, LowerAll(task.requiredSkills), allTasks, now)
  {
    var actives := Filter(employees, IsActiveEmployee);
    var cands := Candidates(task, employees, allTasks, now);
    assert Map(cands, EmployeeOf) == actives;
  }
}
