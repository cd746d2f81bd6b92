/** The session routes (`/api/auth`): an organization registers and its
    admin logs in, an employee logs in, anyone logs out, and `/me` reports
    whose session the token cookie holds. */
module AuthRoutes {
  import opened Wrappers
  import opened Seqs
  import opened Crypto
  import opened Records
  import opened Http
  import opened Middleware

  const FIELDS_REQUIRED: string := "Please fill in all required fields"
  const EMAIL_TAKEN: string := "That email is already registered"
  const CREDENTIALS_REQUIRED: string := "Email and password required"
  const BAD_CREDENTIALS: string := "Invalid email or password"
  const NOT_LOGGED_IN: string := "Not logged in"
  const SESSION_INVALID: string := "Session expired"
  const ACCOUNT_NOT_FOUND: string := "Account not found"

  /** The claims of an admin session: the organization is its own tenant. */
  function AdminPayload(org: Organization): (p: Payload)
    ensures p.id == org.id && OrgIdOf(p) == org.id && p.role == ADMIN
    ensures p.name == org.name && p.email == org.email && p.department == None
  {
    Payload(org.id, Some(org.id), org.name, org.email, ADMIN, None)
  }

  /** The claims of an employee session. */
  function EmployeePayload(e: Employee): (p: Payload)
    ensures p.id == e.id && p.role == EMPLOYEE
    ensures e.orgId != 0 ==> OrgIdOf(p) == e.orgId
    ensures p.name == e.name && p.email == e.email && p.department == Some(e.department)
  {
    Payload(e.id, Some(e.orgId), e.name, e.email, EMPLOYEE, Some(e.department))
  }

  /** An admin token, until it expires, passes the middleware and the admin
      guard and acts for the organization itself. */
  lemma AdminSessionActsForItsOrg(org: Organization, signedAt: int, now: int)
    requires now < signedAt + TOKEN_LIFETIME
    ensures Authenticate(Some(Sign(AdminPayload(org), signedAt)), now)
         == Success(OK, Principal(AdminPayload(org), org.id))
    ensures AdminOnly(Some(AdminPayload(org))).Pass? && !EmployeeOnly(Some(AdminPayload(org))).Pass?
  {
    FreshTokenAuthenticates(AdminPayload(org), signedAt, now);
  }

  /** An employee token, until it expires, passes the middleware and the
      employee guard, not the admin guard, and acts for the employee's
      organization (ids start at 1, so `orgId` is never the falsy 0). */
  lemma EmployeeSessionActsForItsOrg(e: Employee, signedAt: int, now: int)
    requires now < signedAt + TOKEN_LIFETIME && e.orgId != 0
    ensures Authenticate(Some(Sign(EmployeePayload(e), signedAt)), now)
         == Success(OK, Principal(EmployeePayload(e), e.orgId))
    ensures EmployeeOnly(Some(EmployeePayload(e))).Pass? && !AdminOnly(Some(EmployeePayload(e))).Pass?
  {
    FreshTokenAuthenticates(EmployeePayload(e), signedAt, now);
  }

  /** What the session routes answer about the logged-in account. */
  datatype Account =
    | AdminAccount(id: nat, name: string, email: string, industry: Option<string>)
    | EmployeeAccount(id: nat, name: string, email: string, role: string, department: string, orgName: string)

  function OrgAccount(org: Organization): Account {
    AdminAccount(org.id, org.name, org.email, org.industry)
  }

  function MemberAccount(e: Employee, org: Organization): Account {
    EmployeeAccount(e.id, e.name, e.email, e.role, e.department, org.name)
  }

  /** A successful login: the token the handler sets as the cookie, and the
      account it answers with. */
  datatype SignedIn = SignedIn(token: Token, account: Account)

  function OrgWithEmail(email: string): Organization -> bool {
    (o: Organization) => o.email == email
  }

  function OrgWithId(id: nat): Organization -> bool {
    (o: Organization) => o.id == id
  }

  /** The organization with that id, as a `JOIN organizations o ON o.id = ...`
      finds it. */
  function OrgOf(orgs: seq<Organization>, id: nat): (r: Option<Organization>)
    ensures r.Some? <==> exists o :: o in orgs && o.id == id
    ensures r.Some? ==> r.value in orgs && r.value.id == id
  {
    First(orgs, OrgWithId(id))
  }

  /** The rows the employee login selects: that email, active, and joined to
      an existing organization. */
  function CanSignIn(orgs: seq<Organization>, email: string): Employee -> bool {
    (e: Employee) => e.email == email && e.isActive && OrgOf(orgs, e.orgId).Some?
  }

  /** The login query selects exactly the active employees with that email
      whose organization exists. */
  lemma CanSignInSelects(orgs: seq<Organization>, email: string, e: Employee)
    ensures CanSignIn(orgs, email)(e) <==>
              e.email == email && e.isActive && exists o :: o in orgs && o.id == e.orgId
  {
  }

  /** The rows `/me` selects for an employee session. */
  function ActiveMember(orgs: seq<Organization>, id: nat): Employee -> bool {
    (e: Employee) => e.id == id && e.isActive && OrgOf(orgs, e.orgId).Some?
  }

  /** `POST /api/auth/login` at time `now`. Both fields are required; an
      unknown email and a wrong password get the same 401, so the answer does
      not tell which emails are registered. */
  function AdminLogin(orgs: seq<Organization>, email: Option<string>, password: Option<string>, now: int): (r: Outcome<SignedIn>)
    ensures !(Truthy(email) && Truthy(password)) ==> r == Failure(BAD_REQUEST, CREDENTIALS_REQUIRED)
    ensures Truthy(email) && Truthy(password) && r.Failure? ==> r == Failure(UNAUTHORIZED, BAD_CREDENTIALS)
    ensures Truthy(email) && Truthy(password) && !(exists o :: o in orgs && o.email == email.value) ==> r.Failure?
    ensures r.Success? ==> && r.status == OK
                           && exists o :: && o in orgs && o.email == email.value
                                          && PasswordMatches(password.value, o.passwordHash)
                                          && r.value == SignedIn(Sign(AdminPayload(o), now), OrgAccount(o))
  {
    if !(Truthy(email) && Truthy(password)) then Failure(BAD_REQUEST, CREDENTIALS_REQUIRED)
    else
      match First(orgs, OrgWithEmail(email.value))
      case None => Failure(UNAUTHORIZED, BAD_CREDENTIALS)
      case Some(org) =>
        if !PasswordMatches(password.value, org.passwordHash) then Failure(UNAUTHORIZED, BAD_CREDENTIALS)
        else Success(OK, SignedIn(Sign(AdminPayload(org), now), OrgAccount(org)))
  }

  /** With org emails unique, an organization's admin logs in with exactly
      its own password. */
  lemma AdminLoginExactlyWithPassword(orgs: seq<Organization>, org: Organization, password: string, now: int)
    requires DistinctBy(orgs, OrganizationEmail) && org in orgs && org.email != "" && password != ""
    ensures AdminLogin(orgs, Some(org.email), Some(password), now).Success?
        <==> PasswordMatches(password, org.passwordHash)
    ensures PasswordMatches(password, org.passwordHash) ==>
              AdminLogin(orgs, Some(org.email), Some(password), now)
              == Success(OK, SignedIn(Sign(AdminPayload(org), now), OrgAccount(org)))
  {
    FirstWithKey(orgs, OrgWithEmail(org.email), OrganizationEmail, org);
  }

  /** `POST /api/auth/employee-login` at time `now`: only an active employee
      of an existing organization, with a stored hash that the password
      matches, logs in; every other failure is the same 401. */
  function EmployeeLogin(employees: seq<Employee>, orgs: seq<Organization>, email: Option<string>,
                         password: Option<string>, now: int): (r: Outcome<SignedIn>)
    ensures !(Truthy(email) && Truthy(password)) ==> r == Failure(BAD_REQUEST, CREDENTIALS_REQUIRED)
    ensures Truthy(email) && Truthy(password) && r.Failure? ==> r == Failure(UNAUTHORIZED, BAD_CREDENTIALS)
    ensures r.Success? ==> && r.status == OK
                           && exists e :: && e in employees && e.email == email.value && e.isActive
                                          && e.passwordHash.Some? && PasswordMatches(password.value, e.passwordHash.value)
                                          && OrgOf(orgs, e.orgId).Some?
                                          && r.value == SignedIn(Sign(EmployeePayload(e), now),
                                                                 MemberAccount(e, OrgOf(orgs, e.orgId).value))
  {
    if !(Truthy(email) && Truthy(password)) then Failure(BAD_REQUEST, CREDENTIALS_REQUIRED)
    else
      match First(employees, CanSignIn(orgs, email.value))
      case None => Failure(UNAUTHORIZED, BAD_CREDENTIALS)
      case Some(e) =>
        if e.passwordHash.None? || !PasswordMatches(password.value, e.passwordHash.value) then
          Failure(UNAUTHORIZED, BAD_CREDENTIALS)
        else
          Success(OK, SignedIn(Sign(EmployeePayload(e), now), MemberAccount(e, OrgOf(orgs, e.orgId).value)))
  }

  /** With employee emails unique, an active employee of an existing
      organization logs in with exactly the password of its stored hash, and
      an inactive one, or one without a hash, never logs in. */
  lemma EmployeeLoginExactlyWithPassword(employees: seq<Employee>, orgs: seq<Organization>, e: Employee,
                                         password: string, now: int)
    requires DistinctBy(employees, EmployeeEmail) && e in employees && e.email != "" && password != ""
    ensures EmployeeLogin(employees, orgs, Some(e.email), Some(password), now).Success?
        <==> && e.isActive && OrgOf(orgs, e.orgId).Some?
             && e.passwordHash.Some? && PasswordMatches(password, e.passwordHash.value)
  {
    if e.isActive && OrgOf(orgs, e.orgId).Some? {
      FirstWithKey(employees, CanSignIn(orgs, e.email), EmployeeEmail, e);
    }
  }

  /** `GET /api/auth/me` at time `now`: the account behind the token cookie.
      An employee session needs its employee still active in an existing
      organization, any other session its organization; each failure is a 401. */
  function Me(cookie: Option<Token>, now: int, orgs: seq<Organization>, employees: seq<Employee>): (r: Outcome<Account>)
    ensures !HasToken(cookie) ==> r == Failure(UNAUTHORIZED, NOT_LOGGED_IN)
    ensures HasToken(cookie) && Verify(cookie.value, now).None? ==> r == Failure(UNAUTHORIZED, SESSION_INVALID)
    ensures HasToken(cookie) && Verify(cookie.value, now).Some? ==>
              var p := cookie.value.payload;
              && (r.Success? <==> if p.role == EMPLOYEE
                                  then exists e :: e in employees && e.id == p.id && e.isActive && OrgOf(orgs, e.orgId).Some?
                                  else exists o :: o in orgs && o.id == p.id)
              && (r.Failure? ==> r == Failure(UNAUTHORIZED, ACCOUNT_NOT_FOUND))
    ensures r.Success? ==>
              var p := cookie.value.payload;
              && r.status == OK
              && (p.role == EMPLOYEE ==> exists e :: && e in employees && e.id == p.id && e.isActive
                                                     && OrgOf(orgs, e.orgId).Some?
                                                     && r.value == MemberAccount(e, OrgOf(orgs, e.orgId).value))
              && (p.role != EMPLOYEE ==> exists o :: o in orgs && o.id == p.id && r.value == OrgAccount(o))
  {
    if !HasToken(cookie) then Failure(UNAUTHORIZED, NOT_LOGGED_IN)
    else
      match Verify(cookie.value, now)
      case None => Failure(UNAUTHORIZED, SESSION_INVALID)
      case Some(p) =>
        if p.role == EMPLOYEE then
          match First(employees, ActiveMember(orgs, p.id))
          case None => Failure(UNAUTHORIZED, ACCOUNT_NOT_FOUND)
          case Some(e) => Success(OK, MemberAccount(e, OrgOf(orgs, e.orgId).value))
        else
          match First(orgs, OrgWithId(p.id))
          case None => Failure(UNAUTHORIZED, ACCOUNT_NOT_FOUND)
          case Some(o) => Success(OK, OrgAccount(o))
  }

  /** Until it expires, the token an admin login issues makes `/me` answer
      with the account that login answered with. */
  lemma AdminLoginThenMe(orgs: seq<Organization>, employees: seq<Employee>, email: Option<string>,
                         password: Option<string>, signedAt: int, now: int)
    requires DistinctBy(orgs, OrganizationKey)
    requires AdminLogin(orgs, email, password, signedAt).Success? && now < signedAt + TOKEN_LIFETIME
    ensures var s := AdminLogin(orgs, email, password, signedAt).value;
            Me(Some(s.token), now, orgs, employees) == Success(OK, s.account)
  {
    var s := AdminLogin(orgs, email, password, signedAt).value;
    var o :| o in orgs && s == SignedIn(Sign(AdminPayload(o), signedAt), OrgAccount(o));
    AdminMe(orgs, employees, o, signedAt, now);
  }

  /** Until it expires, a token with an organization's claims makes `/me`
      answer with that organization. */
  lemma AdminMe(orgs: seq<Organization>, employees: seq<Employee>, o: Organization, signedAt: int, now: int)
    requires DistinctBy(orgs, OrganizationKey) && o in orgs && now < signedAt + TOKEN_LIFETIME
    ensures Me(Some(Sign(AdminPayload(o), signedAt)), now, orgs, employees) == Success(OK, OrgAccount(o))
  {
    FirstWithKey(orgs, OrgWithId(o.id), OrganizationKey, o);
  }

  /** Until it expires, a token with an employee's claims makes `/me` answer
      with that employee while they are active in an existing organization. */
  lemma EmployeeMe(employees: seq<Employee>, orgs: seq<Organization>, e: Employee, signedAt: int, now: int)
    requires DistinctBy(employees, EmployeeKey) && e in employees && e.isActive && OrgOf(orgs, e.orgId).Some?
    requires now < signedAt + TOKEN_LIFETIME
    ensures Me(Some(Sign(EmployeePayload(e), signedAt)), now, orgs, employees)
         == Success(OK, MemberAccount(e, OrgOf(orgs, e.orgId).value))
  {
    FirstWithKey(employees, ActiveMember(orgs, e.id), EmployeeKey, e);
  }

  /** Until it expires, the token an employee login issues makes `/me` answer
      with the account that login answered with. */
  lemma EmployeeLoginThenMe(employees: seq<Employee>, orgs: seq<Organization>, email: Option<string>,
                            password: Option<string>, signedAt: int, now: int)
    requires DistinctBy(employees, EmployeeKey)
    requires EmployeeLogin(employees, orgs, email, password, signedAt).Success? && now < signedAt + TOKEN_LIFETIME
    ensures var s := EmployeeLogin(employees, orgs, email, password, signedAt).value;
            Me(Some(s.token), now, orgs, employees) == Success(OK, s.account)
  {
    var s := EmployeeLogin(employees, orgs, email, password, signedAt).value;
    var e :| && e in employees && e.isActive && OrgOf(orgs, e.orgId).Some?
             && s == SignedIn(Sign(EmployeePayload(e), signedAt), MemberAccount(e, OrgOf(orgs, e.orgId).value));
    EmployeeMe(employees, orgs, e, signedAt, now);
  }

  /** `POST /api/auth/logout`: clears the token cookie and answers ok. */
  method Logout(res: Response) returns (r: Outcome<()>)
    modifies res
    ensures res.cookie == ClearToken && res.status == old(res.status) && res.error == old(res.error)
    ensures r == Success(OK, ())
  {
    res.cookie := ClearToken;
    r := Success(OK, ());
  }

  /** The organizations table. `nextId` stands for the id sequence, which
      starts at 1. */
  class OrgTable {
    var orgs: seq<Organization>
    var nextId: nat

    /** Ids are a positive primary key from the sequence, and emails are unique. */
    ghost predicate Valid()
      reads this
    {
      && DistinctBy(orgs, OrganizationKey)
      && DistinctBy(orgs, OrganizationEmail)
      && 0 < nextId
      && (forall i :: 0 <= i < |orgs| ==> 0 < orgs[i].id < nextId)
    }

    constructor()
      ensures Valid() && orgs == []
    {
      orgs := [];
      nextId := 1;
    }

    /** `POST /api/auth/register` at time `now`: a new organization whose
      admin is logged in at once. Without name, email or password 400, and
      with an email already registered 409; both leave the table and the
      cookie as they were. */
    method Register(res: Response, now: int, name: Option<string>, email: Option<string>,
                    password: Option<string>, industry: Option<string>) returns (r: Outcome<Account>)
      requires Valid()
      modifies this, res
      ensures Valid()
      ensures !(Truthy(name) && Truthy(email) && Truthy(password)) ==> r == Failure(BAD_REQUEST, FIELDS_REQUIRED)
      ensures Truthy(name) && Truthy(email) && Truthy(password) && (exists o :: o in old(orgs) && o.email == email.value)
              ==> r == Failure(CONFLICT, EMAIL_TAKEN)
      ensures r.Success? <==> && Truthy(name) && Truthy(email) && Truthy(password)
                              && !(exists o :: o in old(orgs) && o.email == email.value)
      ensures r.Failure? ==> orgs == old(orgs) && nextId == old(nextId) && unchanged(res)
      ensures r.Success? ==>
                var org := Organization(old(nextId), name.value, email.value, HashPassword(password.value), OrNull(industry));
                && orgs == old(orgs) + [org]
                && r == Success(CREATED, OrgAccount(org))
                && res.cookie == SetToken(Sign(AdminPayload(org), now))
                && res.status == old(res.status) && res.error == old(res.error)
    {
      if !(Truthy(name) && Truthy(email) && Truthy(password)) {
        return Failure(BAD_REQUEST, FIELDS_REQUIRED);
      }
      if exists o :: o in orgs && o.email == email.value {
        return Failure(CONFLICT, EMAIL_TAKEN);
      }
      var org := Organization(nextId, name.value, email.value, HashPassword(password.value), OrNull(industry));
      orgs := orgs + [org];
      nextId := nextId + 1;
      res.cookie := SetToken(Sign(AdminPayload(org), now));
      r := Success(CREATED, OrgAccount(org));
    }
  }

  /** A freshly registered organization's admin logs in with the password
      given at registration and no other. */
  lemma RegisteredAdminLogsIn(orgs: seq<Organization>, org: Organization, password: string, attempt: string, now: int)
    requires DistinctBy(orgs + [org], OrganizationEmail) && org.email != "" && attempt != ""
    requires org.passwordHash == HashPassword(password)
    ensures AdminLogin(orgs + [org], Some(org.email), Some(attempt), now).Success? <==> attempt == password
  {
    AdminLoginExactlyWithPassword(orgs + [org], org, attempt, now);
  }
}
