/** One browser session shared by several guards: the login, challenge, logout, password and
    impersonation handlers of http/controllers and the middleware in front of them.

    A request is one step. What the services and the users table answer during the request
    (credential checks, code checks, remember cookies, loaded users, the host's policy hook) is
    its input. */
module Sessions {
  import opened OptionType
  import opened SessionKeys

  /** helpers.ImpersonatorMarker without its display email. */
  datatype ImpersonatorMarker = ImpersonatorMarker(guard: string, user: nat, sameGuard: bool)

  /** A session attribute. Stamp is FormatPasswordTimestamp of an instant, which is injective. */
  datatype Value = UserID(id: nat) | Stamp(at: int) | Flag | Marker(marker: ImpersonatorMarker) | Token(text: string)

  type Attributes = map<string, Value>

  /** A row of a guard's users table; the table is keyed by guard and user id. */
  datatype User = User(role: string, disabled: bool, passwordChangedAt: int, twoFactorEnabled: bool)

  type Users = map<(string, nat), User>

  function FindByID(users: Users, guard: string, id: nat): Option<User> {
    if (guard, id) in users then Some(users[(guard, id)]) else None
  }

  /** One guard's configuration. */
  datatype GuardOptions = GuardOptions(
    twoFactor: bool,
    remember: bool,
    sessions: bool,
    allowSensitiveActions: bool,
    roles: seq<string>,
    targetGuards: seq<string>,
    protectedRoles: seq<string>)

  /** Every configured guard with its options. */
  type Site = map<string, GuardOptions>

  datatype Response =
    | LoggedIn(user: nat, rememberCookie: bool)
    | TwoFactorRequired
    | InvalidCredentials
    | AccountDisabled
    | Unauthorized
    | BadRequest
    | InvalidCode
    | Forbidden
    | Conflict
    | NotFound
    | InternalError
    | Switched(target: nat)
    | Done

  // ---------------------------------------------------------------- attributes

  function Put(a: Attributes, kind: Kind, guard: string, value: Value): Attributes {
    a[Key(kind, guard) := value]
  }

  function Forget(a: Attributes, kind: Kind, guard: string): Attributes {
    a - {Key(kind, guard)}
  }

  function Get(a: Attributes, kind: Kind, guard: string): Option<Value> {
    if Key(kind, guard) in a then Some(a[Key(kind, guard)]) else None
  }

  /** helpers.GuardUserID: the user the guard's session names. */
  function GuardUser(a: Attributes, guard: string): Option<nat> {
    match Get(a, GuardID, guard)
    case Some(UserID(id)) => Some(id)
    case _ => None
  }

  /** The pending user id of the two-factor challenge. */
  function PendingUser(a: Attributes, guard: string): Option<nat> {
    match Get(a, TwoFactorUserID, guard)
    case Some(UserID(id)) => Some(id)
    case _ => None
  }

  /** helpers.Impersonator. */
  function MarkerOf(a: Attributes, guard: string): Option<ImpersonatorMarker> {
    match Get(a, Impersonator, guard)
    case Some(Marker(m)) => Some(m)
    case _ => None
  }

  predicate StampValid(a: Attributes, guard: string, changedAt: int) {
    Get(a, PasswordChangedAt, guard) == Some(Stamp(changedAt))
  }

  // ---------------------------------------------------------------- handlers, as functions

  /** completeLogin: session, stamp, no pending login left, tracking token. */
  function CompleteLogin(o: GuardOptions, a: Attributes, guard: string, id: nat, user: User, token: string): Attributes {
    var a := Put(a, GuardID, guard, UserID(id));
    var a := Put(a, PasswordChangedAt, guard, Stamp(user.passwordChangedAt));
    var a := Forget(a, TwoFactorUserID, guard);
    var a := Forget(a, RememberIntent, guard);
    if o.sessions then Put(a, SessionTrackingToken, guard, Token(token)) else a
  }

  /** AuthController.Login; `authenticated` is the answer of Authenticate. */
  function Login(o: GuardOptions, a: Attributes, guard: string, users: Users, authenticated: Option<nat>, remember: bool, token: string)
    : (Attributes, Response)
  {
    if authenticated.None? || FindByID(users, guard, authenticated.value).None? then (a, InvalidCredentials)
    else
      var id := authenticated.value;
      var user := FindByID(users, guard, id).value;
      if user.disabled then (a, AccountDisabled)
      else if o.twoFactor && user.twoFactorEnabled then
        var a := Put(a, TwoFactorUserID, guard, UserID(id));
        var a := if remember then Put(a, RememberIntent, guard, Flag) else a;
        (a, TwoFactorRequired)
      else
        (CompleteLogin(o, a, guard, id, user, token), LoggedIn(id, o.remember && remember))
  }

  /** The outcome of checking the submitted code or recovery code against the pending user. */
  datatype CodeCheck = NoCode | CheckFailed | WrongCode | RightCode

  /** TwoFactorController.Challenge. */
  function Challenge(o: GuardOptions, a: Attributes, guard: string, users: Users, code: CodeCheck, token: string): (Attributes, Response) {
    var pending := PendingUser(a, guard);
    if pending.None? || FindByID(users, guard, pending.value).None? then (a, Unauthorized)
    else
      match code
      case NoCode => (a, BadRequest)
      case CheckFailed => (a, InternalError)
      case WrongCode => (a, InvalidCode)
      case RightCode =>
        var id := pending.value;
        var wanted := Get(a, RememberIntent, guard) == Some(Flag);
        (CompleteLogin(o, a, guard, id, FindByID(users, guard, id).value, token), LoggedIn(id, o.remember && wanted))
  }

  /** What Resolve says about the request's remember cookie, if there is one. */
  datatype Cookie = NoCookie | BadCookie | GoodCookie(user: nat)

  /** The RememberLogin middleware, mounted when the guard remembers logins. */
  function RememberLogin(o: GuardOptions, a: Attributes, guard: string, users: Users, cookie: Cookie, token: string): Attributes {
    if !o.remember || GuardUser(a, guard).Some? || !cookie.GoodCookie? then a
    else
      var a := Put(a, GuardID, guard, UserID(cookie.user));
      var user := FindByID(users, guard, cookie.user);
      if user.None? || user.value.disabled then Forget(a, GuardID, guard)
      else
        var a := Put(a, PasswordChangedAt, guard, Stamp(user.value.passwordChangedAt));
        if o.sessions then Put(a, SessionTrackingToken, guard, Token(token)) else a
  }

  /** The Authenticated middleware: the user it lets through, if any. */
  function Authenticated(a: Attributes, guard: string, users: Users): (Attributes, Option<nat>) {
    var id := GuardUser(a, guard);
    if id.None? || FindByID(users, guard, id.value).None? then (a, None)
    else
      var user := FindByID(users, guard, id.value).value;
      if user.disabled then (Forget(a, GuardID, guard), None)
      else if !StampValid(a, guard, user.passwordChangedAt) then
        (Forget(Forget(a, GuardID, guard), PasswordChangedAt, guard), None)
      else (a, id)
  }

  /** The TrackSession middleware, mounted when the guard tracks sessions: `alive` is whether the
      row of the session's tracking token still exists, and a session without a token passes. */
  function TrackSession(o: GuardOptions, a: Attributes, guard: string, alive: bool): (Attributes, bool) {
    if !o.sessions || alive || Get(a, SessionTrackingToken, guard).None? then (a, true)
    else (Forget(a, GuardID, guard), false)
  }

  /** AuthController.Logout. */
  function Logout(a: Attributes, guard: string): (Attributes, Response) {
    var a := Forget(a, GuardID, guard);
    var a := Forget(a, PasswordChangedAt, guard);
    (Forget(a, SessionTrackingToken, guard), Done)
  }

  /** AuthController.ChangePassword behind RejectWhileImpersonating; `changedAt` is what the
      service re-read from the database, if it accepted the change. */
  function ChangePassword(o: GuardOptions, a: Attributes, guard: string, changedAt: Option<int>): (Attributes, Response) {
    if !o.allowSensitiveActions && MarkerOf(a, guard).Some? then (a, Forbidden)
    else if changedAt.None? then (a, BadRequest)
    else (Put(a, PasswordChangedAt, guard, Stamp(changedAt.value)), Done)
  }

  datatype Hook = NoHook | Allows | Refuses | HookFails

  /** services.Impersonation.CanTargetGuard. */
  predicate CanTargetGuard(o: GuardOptions, targetGuard: string) {
    "*" in o.targetGuards || targetGuard in o.targetGuards
  }

  /** services.Impersonation.Authorize; None means allowed. */
  function Authorize(o: GuardOptions, actor: User, targetGuard: string, target: User, hook: Hook): Option<Response> {
    if o.roles != [] && actor.role !in o.roles then Some(Forbidden)
    else if !CanTargetGuard(o, targetGuard) then Some(Forbidden)
    else if target.role in o.protectedRoles then Some(Forbidden)
    else match hook
         case HookFails => Some(InternalError)
         case Refuses => Some(Forbidden)
         case _ => None
  }

  /** ImpersonationController.Start behind RejectWhileImpersonating. An empty guard name means the
      actor's own guard; `targetID` is None when it does not parse. */
  function Start(site: Site, a: Attributes, guard: string, actorID: nat, users: Users, requested: string, targetID: Option<nat>, hook: Hook)
    : (Attributes, Response)
    requires guard in site
  {
    var targetGuard := if requested == "" then guard else requested;
    if MarkerOf(a, guard).Some? then (a, Forbidden)
    else if FindByID(users, guard, actorID).None? then (a, Unauthorized)
    else if targetID.None? || targetGuard !in site || (targetGuard == guard && targetID.value == actorID) then (a, BadRequest)
    else if MarkerOf(a, targetGuard).Some? then (a, Conflict)
    else if FindByID(users, targetGuard, targetID.value).None? then (a, NotFound)
    else
      var actor := FindByID(users, guard, actorID).value;
      var target := FindByID(users, targetGuard, targetID.value).value;
      var refusal := Authorize(site[guard], actor, targetGuard, target, hook);
      if target.disabled then (a, Forbidden)
      else if refusal.Some? then (a, refusal.value)
      else
        var a := Put(a, GuardID, targetGuard, UserID(targetID.value));
        var a := Put(a, Impersonator, targetGuard, Marker(ImpersonatorMarker(guard, actorID, targetGuard == guard)));
        (Put(a, PasswordChangedAt, targetGuard, Stamp(target.passwordChangedAt)), Switched(targetID.value))
  }

  /** ImpersonationController.Stop. */
  function Stop(a: Attributes, guard: string, users: Users): (Attributes, Response) {
    var marker := MarkerOf(a, guard);
    if marker.None? then (a, BadRequest)
    else
      var actor := FindByID(users, marker.value.guard, marker.value.user);
      var a := if marker.value.sameGuard && actor.Some?
               then Put(Put(a, GuardID, guard, UserID(marker.value.user)),
                        PasswordChangedAt, guard, Stamp(actor.value.passwordChangedAt))
               else Forget(Forget(a, GuardID, guard), PasswordChangedAt, guard);
      (Forget(a, Impersonator, guard), Done)
  }

  // ---------------------------------------------------------------- requests

  datatype Action =
    | Me
    | LogoutAction
    | PasswordAction(changedAt: Option<int>)
    | StartAction(requested: string, targetID: Option<nat>, hook: Hook)
    | StopAction

  datatype Request =
    | LoginRequest(authenticated: Option<nat>, wantsRemember: bool)
    | ChallengeRequest(code: CodeCheck)
    | GuardedRequest(cookie: Cookie, alive: bool, action: Action)

  /** A guarded route once Authenticated has let `id` through. */
  function Act(site: Site, a: Attributes, guard: string, id: nat, users: Users, action: Action): (Attributes, Response)
    requires guard in site
  {
    match action
    case Me => (a, Done)
    case LogoutAction => Logout(a, guard)
    case PasswordAction(changedAt) => ChangePassword(site[guard], a, guard, changedAt)
    case StartAction(requested, targetID, hook) => Start(site, a, guard, id, users, requested, targetID, hook)
    case StopAction => Stop(a, guard, users)
  }

  /** One request to a configured guard. */
  function Serve(site: Site, a: Attributes, guard: string, users: Users, token: string, request: Request): (Attributes, Response)
    requires guard in site
  {
    match request
    case LoginRequest(authenticated, remember) => Login(site[guard], a, guard, users, authenticated, remember, token)
    case ChallengeRequest(code) => Challenge(site[guard], a, guard, users, code, token)
    case GuardedRequest(cookie, alive, action) =>
      var a := RememberLogin(site[guard], a, guard, users, cookie, token);
      var (a, id) := Authenticated(a, guard, users);
      if id.None? then (a, Unauthorized)
      else
        var (a, tracked) := TrackSession(site[guard], a, guard, alive);
        if !tracked then (a, Unauthorized) else Act(site, a, guard, id.value, users, action)
  }

  // ---------------------------------------------------------------- handlers, in place

  /** The session store; the handlers put and forget attributes one at a time. */
  class Session {
    var attributes: Attributes

    constructor ()
      ensures attributes == map[]
    {
      attributes := map[];
    }

    method PutAttribute(kind: Kind, guard: string, value: Value)
      modifies `attributes
      ensures attributes == Put(old(attributes), kind, guard, value)
    {
      attributes := attributes[Key(kind, guard) := value];
    }

    method ForgetAttribute(kind: Kind, guard: string)
      modifies `attributes
      ensures attributes == Forget(old(attributes), kind, guard)
    {
      attributes := attributes - {Key(kind, guard)};
    }
  }

  /** The controllers and middleware mounted for one guard. */
  class Mounted {
    const site: Site
    const guard: string
    const session: Session

    constructor (site: Site, guard: string, session: Session)
      ensures this.site == site && this.guard == guard && this.session == session
    {
      this.site, this.guard, this.session := site, guard, session;
    }

    method Complete(id: nat, user: User, token: string)
      requires guard in site
      modifies session`attributes
      ensures session.attributes == CompleteLogin(site[guard], old(session.attributes), guard, id, user, token)
    {
      session.PutAttribute(GuardID, guard, UserID(id));
      session.PutAttribute(PasswordChangedAt, guard, Stamp(user.passwordChangedAt));
      session.ForgetAttribute(TwoFactorUserID, guard);
      session.ForgetAttribute(RememberIntent, guard);
      if site[guard].sessions {
        session.PutAttribute(SessionTrackingToken, guard, Token(token));
      }
    }

    method HandleLogin(users: Users, authenticated: Option<nat>, remember: bool, token: string) returns (response: Response)
      requires guard in site
      modifies session
      ensures (session.attributes, response) == Login(site[guard], old(session.attributes), guard, users, authenticated, remember, token)
    {
      if authenticated.None? || (guard, authenticated.value) !in users {
        return InvalidCredentials;
      }
      var id := authenticated.value;
      var user := users[(guard, id)];
      if user.disabled {
        return AccountDisabled;
      }
      if site[guard].twoFactor && user.twoFactorEnabled {
        session.PutAttribute(TwoFactorUserID, guard, UserID(id));
        if remember {
          session.PutAttribute(RememberIntent, guard, Flag);
        }
        return TwoFactorRequired;
      }
      Complete(id, user, token);
      return LoggedIn(id, site[guard].remember && remember);
    }

    method HandleChallenge(users: Users, code: CodeCheck, token: string) returns (response: Response)
      requires guard in site
      modifies session
      ensures (session.attributes, response) == Challenge(site[guard], old(session.attributes), guard, users, code, token)
    {
      var pending := PendingUser(session.attributes, guard);
      if pending.None? || (guard, pending.value) !in users {
        return Unauthorized;
      }
      match code {
        case NoCode => return BadRequest;
        case CheckFailed => return InternalError;
        case WrongCode => return InvalidCode;
        case RightCode =>
          var wanted := Get(session.attributes, RememberIntent, guard) == Some(Flag);
          Complete(pending.value, users[(guard, pending.value)], token);
          return LoggedIn(pending.value, site[guard].remember && wanted);
      }
    }

    method HandleRememberLogin(users: Users, cookie: Cookie, token: string)
      requires guard in site
      modifies session
      ensures session.attributes == RememberLogin(site[guard], old(session.attributes), guard, users, cookie, token)
    {
      if !site[guard].remember || GuardUser(session.attributes, guard).Some? || !cookie.GoodCookie? {
        return;
      }
      session.PutAttribute(GuardID, guard, UserID(cookie.user));
      if (guard, cookie.user) !in users || users[(guard, cookie.user)].disabled {
        session.ForgetAttribute(GuardID, guard);
        return;
      }
      session.PutAttribute(PasswordChangedAt, guard, Stamp(users[(guard, cookie.user)].passwordChangedAt));
      if site[guard].sessions {
        session.PutAttribute(SessionTrackingToken, guard, Token(token));
      }
    }

    method HandleAuthenticated(users: Users) returns (id: Option<nat>)
      modifies session`attributes
      ensures (session.attributes, id) == Authenticated(old(session.attributes), guard, users)
    {
      id := GuardUser(session.attributes, guard);
      if id.None? || (guard, id.value) !in users {
        return None;
      }
      var user := users[(guard, id.value)];
      if user.disabled {
        session.ForgetAttribute(GuardID, guard);
        return None;
      }
      if !StampValid(session.attributes, guard, user.passwordChangedAt) {
        session.ForgetAttribute(GuardID, guard);
        session.ForgetAttribute(PasswordChangedAt, guard);
        return None;
      }
    }

    method HandleTrackSession(alive: bool) returns (tracked: bool)
      requires guard in site
      modifies session`attributes
      ensures (session.attributes, tracked) == TrackSession(site[guard], old(session.attributes), guard, alive)
    {
      tracked := true;
      if site[guard].sessions && Get(session.attributes, SessionTrackingToken, guard).Some? && !alive {
        session.ForgetAttribute(GuardID, guard);
        tracked := false;
      }
    }

    method HandleLogout() returns (response: Response)
      modifies session`attributes
      ensures (session.attributes, response) == Logout(old(session.attributes), guard)
    {
      session.ForgetAttribute(GuardID, guard);
      session.ForgetAttribute(PasswordChangedAt, guard);
      session.ForgetAttribute(SessionTrackingToken, guard);
      response := Done;
    }

    method HandleChangePassword(changedAt: Option<int>) returns (response: Response)
      requires guard in site
      modifies session`attributes
      ensures (session.attributes, response) == ChangePassword(site[guard], old(session.attributes), guard, changedAt)
    {
      if !site[guard].allowSensitiveActions && MarkerOf(session.attributes, guard).Some? {
        return Forbidden;
      }
      if changedAt.None? {
        return BadRequest;
      }
      session.PutAttribute(PasswordChangedAt, guard, Stamp(changedAt.value));
      response := Done;
    }

    method HandleStart(actorID: nat, users: Users, requested: string, targetID: Option<nat>, hook: Hook) returns (response: Response)
      requires guard in site
      modifies session`attributes
      ensures (session.attributes, response) == Start(site, old(session.attributes), guard, actorID, users, requested, targetID, hook)
    {
      if MarkerOf(session.attributes, guard).Some? {
        return Forbidden;
      }
      if (guard, actorID) !in users {
        return Unauthorized;
      }
      var targetGuard := if requested == "" then guard else requested;
      if targetID.None? || targetGuard !in site {
        return BadRequest;
      }
      if targetGuard == guard && targetID.value == actorID {
        return BadRequest;
      }
      if MarkerOf(session.attributes, targetGuard).Some? {
        return Conflict;
      }
      if (targetGuard, targetID.value) !in users {
        return NotFound;
      }
      var target := users[(targetGuard, targetID.value)];
      if target.disabled {
        return Forbidden;
      }
      var refusal := Authorize(site[guard], users[(guard, actorID)], targetGuard, target, hook);
      if refusal.Some? {
        return refusal.value;
      }
      session.PutAttribute(GuardID, targetGuard, UserID(targetID.value));
      session.PutAttribute(Impersonator, targetGuard, Marker(ImpersonatorMarker(guard, actorID, targetGuard == guard)));
      session.PutAttribute(PasswordChangedAt, targetGuard, Stamp(target.passwordChangedAt));
      response := Switched(targetID.value);
    }

    method HandleStop(users: Users) returns (response: Response)
      modifies session`attributes
      ensures (session.attributes, response) == Stop(old(session.attributes), guard, users)
    {
      var marker := MarkerOf(session.attributes, guard);
      if marker.None? {
        return BadRequest;
      }
      if marker.value.sameGuard && (marker.value.guard, marker.value.user) in users {
        session.PutAttribute(GuardID, guard, UserID(marker.value.user));
        session.PutAttribute(PasswordChangedAt, guard, Stamp(users[(marker.value.guard, marker.value.user)].passwordChangedAt));
      } else {
        session.ForgetAttribute(GuardID, guard);
        session.ForgetAttribute(PasswordChangedAt, guard);
      }
      session.ForgetAttribute(Impersonator, guard);
      response := Done;
    }

    /** One request through its whole middleware chain. */
    method Handle(users: Users, token: string, request: Request) returns (response: Response)
      requires guard in site
      modifies session
      ensures (session.attributes, response) == Serve(site, old(session.attributes), guard, users, token, request)
    {
      match request {
        case LoginRequest(authenticated, remember) => response := HandleLogin(users, authenticated, remember, token);
        case ChallengeRequest(code) => response := HandleChallenge(users, code, token);
        case GuardedRequest(cookie, alive, action) =>
          HandleRememberLogin(users, cookie, token);
          var id := HandleAuthenticated(users);
          if id.None? {
            return Unauthorized;
          }
          var tracked := HandleTrackSession(alive);
          if !tracked {
            return Unauthorized;
          }
          match action {
            case Me => response := Done;
            case LogoutAction => response := HandleLogout();
            case PasswordAction(changedAt) => response := HandleChangePassword(changedAt);
            case StartAction(requested, targetID, hook) => response := HandleStart(id.value, users, requested, targetID, hook);
            case StopAction => response := HandleStop(users);
          }
      }
    }
  }
}
