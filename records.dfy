/** The rows of the three tables the backend reads and writes:
    organizations, employees and tasks. */
module Records {
  import opened Wrappers
  import opened Seqs
  import opened Crypto

  /** The three task statuses the status route accepts. */
  const ASSIGNED: string := "Assigned"
  const IN_PROGRESS: string := "In Progress"
  const COMPLETED: string := "Completed"

  /** An organization: the tenant, and the account of its admin. */
  datatype Organization = Organization(
    id: nat,
    name: string,
    email: string,
    passwordHash: PasswordHash,
    industry: Option<string>)

  /** An employee of one organization. `passwordHash` is absent for an
      employee who cannot log in. */
  datatype Employee = Employee(
    id: nat,
    orgId: nat,
    name: string,
    email: string,
    passwordHash: Option<PasswordHash>,
    role: string,
    department: string,
    skills: seq<string>,
    walletAddress: Option<string>,
    isActive: bool,
    joinedAt: int)

  /** A task of one organization, optionally assigned to one employee.
      Times are timestamps on one integer clock. */
  datatype Task = Task(
    id: nat,
    orgId: nat,
    employeeId: Option<nat>,
    title: string,
    description: Option<string>,
    requiredSkills: seq<string>,
    priority: string,
    status: string,
    dueDate: Option<int>,
    completedAt: Option<int>,
    txHash: Option<string>,
    createdAt: int)

  /** The primary keys of the three tables. */
  function OrganizationKey(o: Organization): nat { o.id }
  function EmployeeKey(e: Employee): nat { e.id }
  function TaskKey(t: Task): nat { t.id }

  /** The columns with a unique constraint on email. */
  function OrganizationEmail(o: Organization): string { o.email }
  function EmployeeEmail(e: Employee): string { e.email }

  function TaskInOrg(orgId: nat): Task -> bool {
    (t: Task) => t.orgId == orgId
  }

  predicate IsActiveEmployee(e: Employee) {
    e.isActive
  }

  function AssignedTo(employeeId: nat): Task -> bool {
    (t: Task) => t.employeeId == Some(employeeId)
  }

  /** `status === 'Completed'`. */
  predicate IsCompleted(t: Task) {
    t.status == COMPLETED
  }

  /** `status !== 'Completed'`: the task is still open. */
  predicate IsActiveTask(t: Task) {
    t.status != COMPLETED
  }

  /** `allTasks.filter(t => t.employee_id === emp.id)`. */
  function TasksOf(tasks: seq<Task>, employeeId: nat): (r: seq<Task>)
    ensures forall t :: t in r <==> t in tasks && t.employeeId == Some(employeeId)
  {
    var r := Filter(tasks, AssignedTo(employeeId));
    assert forall t :: t in r <==> t in tasks && t.employeeId == Some(employeeId) by {
      forall t ensures t in r <==> t in tasks && t.employeeId == Some(employeeId) {
        FilterMembership(tasks, AssignedTo(employeeId), t);
      }
    }
    r
  }
}
