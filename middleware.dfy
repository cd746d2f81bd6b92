/** The session middleware every protected route runs first, and the two
    role guards that may follow it. */
module Middleware {
  import opened Wrappers
  import opened Crypto
  import opened Http

  /** The two values of a session's `role` claim. */
  const ADMIN: string := "admin"
  const EMPLOYEE: string := "employee"

  const PLEASE_LOG_IN: string := "Please log in"
  const SESSION_EXPIRED: string := "Session expired, please log in again"
  const ADMIN_REQUIRED: string := "Admin access required"
  const EMPLOYEE_REQUIRED: string := "Employee access required"

  /** `req.cookies?.token` is truthy: present and not the empty string. */
  predicate HasToken(cookie: Option<Token>) {
    cookie.Some? && cookie.value != Unverifiable("")
  }

  /** `decoded.orgId || decoded.id`: the tenant a session acts for. A missing
      or zero `orgId` falls back to the principal's own id. */
  function OrgIdOf(p: Payload): (id: nat)
    ensures p.orgId.Some? && p.orgId.value != 0 ==> id == p.orgId.value
    ensures p.orgId == None || p.orgId == Some(0) ==> id == p.id
  {
    match p.orgId
    case Some(o) => if o != 0 then o else p.id
    case None => p.id
  }

  /** What the middleware attaches to a request it lets through:
      `req.user` and `req.org.id`. */
  datatype Principal = Principal(user: Payload, orgId: nat)

  /** The decision `authMiddleware` takes at time `now`: the principal, or the
      401 it answers with. */
  function Authenticate(cookie: Option<Token>, now: int): (r: Outcome<Principal>)
    ensures !HasToken(cookie) ==> r == Failure(UNAUTHORIZED, PLEASE_LOG_IN)
    ensures HasToken(cookie) && Verify(cookie.value, now).None? ==> r == Failure(UNAUTHORIZED, SESSION_EXPIRED)
    ensures r.Success? <==> HasToken(cookie) && Verify(cookie.value, now).Some?
    ensures r.Success? ==> && r.status == OK
                           && r.value.user == cookie.value.payload
                           && r.value.orgId == OrgIdOf(r.value.user)
  {
    if !HasToken(cookie) then Failure(UNAUTHORIZED, PLEASE_LOG_IN)
    else
      match Verify(cookie.value, now)
      case None => Failure(UNAUTHORIZED, SESSION_EXPIRED)
      case Some(decoded) => Success(OK, Principal(decoded, OrgIdOf(decoded)))
  }

  /** A token this server signed is accepted until it expires, and carries
      its payload through unchanged. */
  lemma FreshTokenAuthenticates(p: Payload, signedAt: int, now: int)
    requires now < signedAt + TOKEN_LIFETIME
    ensures Authenticate(Some(Sign(p, signedAt)), now) == Success(OK, Principal(p, OrgIdOf(p)))
  {
    VerifySign(p, signedAt, now);
  }

  /** From its expiry on, the same token is refused as an expired session. */
  lemma ExpiredTokenRejected(p: Payload, signedAt: int, now: int)
    requires now >= signedAt + TOKEN_LIFETIME
    ensures Authenticate(Some(Sign(p, signedAt)), now) == Failure(UNAUTHORIZED, SESSION_EXPIRED)
  {
  }

  /** A guard's verdict: on to the route, or 403. */
  datatype Gate = Pass | Forbidden(error: string)

  /** `adminOnly`: passes exactly the sessions whose role is `admin`. */
  function AdminOnly(user: Option<Payload>): (g: Gate)
    ensures g.Pass? <==> user.Some? && user.value.role == ADMIN
    ensures g.Forbidden? ==> g.error == ADMIN_REQUIRED
  {
    if user.Some? && user.value.role == ADMIN then Pass else Forbidden(ADMIN_REQUIRED)
  }

  /** `employeeOnly`: passes exactly the sessions whose role is `employee`. */
  function EmployeeOnly(user: Option<Payload>): (g: Gate)
    ensures g.Pass? <==> user.Some? && user.value.role == EMPLOYEE
    ensures g.Forbidden? ==> g.error == EMPLOYEE_REQUIRED
  {
    if user.Some? && user.value.role == EMPLOYEE then Pass else Forbidden(EMPLOYEE_REQUIRED)
  }

  /** No session gets past both guards. */
  lemma GuardsExclusive(user: Option<Payload>)
    ensures !(AdminOnly(user).Pass? && EmployeeOnly(user).Pass?)
  {
  }

  /** `authMiddleware` followed by `adminOnly`, the chain in front of every
      admin route. */
  function AuthenticateAdmin(cookie: Option<Token>, now: int): (r: Outcome<Principal>)
    ensures Authenticate(cookie, now).Failure? ==> r == Authenticate(cookie, now)
    ensures r.Success? <==> Authenticate(cookie, now).Success? && Authenticate(cookie, now).value.user.role == ADMIN
    ensures r.Success? ==> r == Authenticate(cookie, now)
    ensures Authenticate(cookie, now).Success? && !r.Success? ==> r == Failure(FORBIDDEN, ADMIN_REQUIRED)
  {
    match Authenticate(cookie, now)
    case Failure(status, error) => Failure(status, error)
    case Success(status, p) =>
      match AdminOnly(Some(p.user))
      case Pass => Success(status, p)
      case Forbidden(error) => Failure(FORBIDDEN, error)
  }

  /** What the middleware may do to the token cookie. */
  datatype CookieAction = Untouched | SetToken(token: Token) | ClearToken

  /** The parts of an Express request the middleware reads and writes. */
  class Request {
    const cookie: Option<Token>
    var user: Option<Payload>
    var org: Option<nat>

    constructor(cookie: Option<Token>)
      ensures this.cookie == cookie && user == None && org == None
    {
      this.cookie := cookie;
      user := None;
      org := None;
    }
  }

  /** The parts of an Express response the handlers set: status, error
      message and the token cookie. */
  class Response {
    var status: nat
    var error: Option<string>
    var cookie: CookieAction

    constructor()
      ensures status == OK && error == None && cookie == Untouched
    {
      status := OK;
      error := None;
      cookie := Untouched;
    }
  }

  /** `authMiddleware(req, res, next)` at time `now`; the result says whether
      `next()` is called. On success the request carries the principal and
      the response is untouched; on failure the request is untouched, the
      response is the 401 of `Authenticate`, and a token that was present
      but failed verification is cleared. */
  method AuthMiddleware(req: Request, res: Response, now: int) returns (next: bool)
    modifies req, res
    ensures var a := Authenticate(req.cookie, now);
            && (next <==> a.Success?)
            && (next ==> req.user == Some(a.value.user) && req.org == Some(a.value.orgId))
            && (next ==> unchanged(res))
            && (!next ==> unchanged(req) && res.status == a.status && res.error == Some(a.error))
            && (!next ==> res.cookie == if HasToken(req.cookie) then ClearToken else old(res.cookie))
  {
    if !HasToken(req.cookie) {
      res.status := UNAUTHORIZED;
      res.error := Some(PLEASE_LOG_IN);
      return false;
    }
    var decoded := Verify(req.cookie.value, now);
    if decoded.None? {
      res.cookie := ClearToken;
      res.status := UNAUTHORIZED;
      res.error := Some(SESSION_EXPIRED);
      return false;
    }
    req.user := decoded;
    req.org := Some(OrgIdOf(decoded.value));
    return true;
  }
}
