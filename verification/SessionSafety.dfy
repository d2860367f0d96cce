/** Who a session can be: facts about every run of requests to the guards of one session. Who has
    proved what is told by the requests alone, never by what a handler did with them. */
module SessionSafety {
  import opened OptionType
  import opened SessionKeys
  import opened Sessions

  // ---------------------------------------------------------------- single attributes

  lemma PutEffect(a: Attributes, kind: Kind, guard: string, value: Value)
    ensures forall k, g :: Get(Put(a, kind, guard, value), k, g) == if k == kind && g == guard then Some(value) else Get(a, k, g)
  {
    forall k, g
      ensures Get(Put(a, kind, guard, value), k, g) == if k == kind && g == guard then Some(value) else Get(a, k, g)
    {
      hide Key;
      if Key(k, g) == Key(kind, guard) {
        KeysNeverCollide(k, kind, g, guard);
      }
    }
  }

  lemma ForgetEffect(a: Attributes, kind: Kind, guard: string)
    ensures forall k, g :: Get(Forget(a, kind, guard), k, g) == if k == kind && g == guard then None else Get(a, k, g)
  {
    forall k, g
      ensures Get(Forget(a, kind, guard), k, g) == if k == kind && g == guard then None else Get(a, k, g)
    {
      hide Key;
      if Key(k, g) == Key(kind, guard) {
        KeysNeverCollide(k, kind, g, guard);
      }
    }
  }

  // ---------------------------------------------------------------- runs

  /** A request with everything the environment answers while it is served. The users table may
      be a different one at every request. */
  datatype Step = Step(guard: string, users: Users, token: string, request: Request)

  ghost predicate Mountable(site: Site, steps: seq<Step>) {
    forall i :: 0 <= i < |steps| ==> steps[i].guard in site
  }

  /** The session after one request. */
  function Served(site: Site, a: Attributes, step: Step): Attributes
    requires step.guard in site
  {
    Serve(site, a, step.guard, step.users, step.token, step.request).0
  }

  function Answer(site: Site, a: Attributes, step: Step): Response
    requires step.guard in site
  {
    Serve(site, a, step.guard, step.users, step.token, step.request).1
  }

  function Run(site: Site, a: Attributes, steps: seq<Step>): Attributes {
    if steps == [] || steps[|steps| - 1].guard !in site then a
    else Served(site, Run(site, a, steps[..|steps| - 1]), steps[|steps| - 1])
  }

  const NEW_SESSION: Attributes := map[]

  // ---------------------------------------------------------------- proofs of identity

  /** The request carries the right password of an enabled user; `owed` is whether the guard and the
      row ask for a second factor. */
  predicate PasswordStep(site: Site, step: Step, guard: string, user: nat, owed: bool) {
    && step.guard == guard && guard in site
    && step.request.LoginRequest? && step.request.authenticated == Some(user)
    && var row := FindByID(step.users, guard, user);
       row.Some? && !row.value.disabled && owed == (site[guard].twoFactor && row.value.twoFactorEnabled)
  }

  /** The request carries a right code, and the user it would be checked for still exists. */
  predicate CodeStep(step: Step, guard: string, user: nat) {
    step.guard == guard && step.request == ChallengeRequest(RightCode) && FindByID(step.users, guard, user).Some?
  }

  /** The request carries a remember cookie of an enabled user. */
  predicate CookieStep(site: Site, step: Step, guard: string, user: nat) {
    && step.guard == guard && guard in site && site[guard].remember
    && step.request.GuardedRequest? && step.request.cookie == GoodCookie(user)
    && var row := FindByID(step.users, guard, user);
       row.Some? && !row.value.disabled
  }

  /** A later password or the code itself settles what a password step left open. */
  ghost predicate Settles(site: Site, step: Step, guard: string, user: nat) {
    CodeStep(step, guard, user) || exists other, owed :: PasswordStep(site, step, guard, other, owed)
  }

  /** Step i gave the user's password, owes the code, and nothing has settled it. */
  ghost predicate OpenChallenge(site: Site, steps: seq<Step>, guard: string, user: nat, i: nat) {
    && i < |steps| && PasswordStep(site, steps[i], guard, user, true)
    && forall k :: i < k < |steps| ==> !Settles(site, steps[k], guard, user)
  }

  /** Step j completes a proof that the session's holder is this user of the guard: a password where
      no code is owed, the code owed since a password, or a remember cookie shown on an empty guard. */
  ghost predicate ProvedAt(site: Site, steps: seq<Step>, guard: string, user: nat, j: nat) {
    && j < |steps|
    && (|| PasswordStep(site, steps[j], guard, user, false)
        || (CodeStep(steps[j], guard, user) && exists i :: OpenChallenge(site, steps[..j], guard, user, i))
        || (CookieStep(site, steps[j], guard, user) && GuardUser(Run(site, NEW_SESSION, steps[..j]), guard).None?))
  }

  ghost predicate ReallySignedIn(site: Site, steps: seq<Step>, guard: string, user: nat) {
    exists j :: ProvedAt(site, steps, guard, user, j)
  }

  // ---------------------------------------------------------------- what each handler does to the seats

  lemma CompleteLoginEffect(o: GuardOptions, a: Attributes, guard: string, id: nat, user: User, token: string)
    ensures
      var a' := CompleteLogin(o, a, guard, id, user, token);
      && GuardUser(a', guard) == Some(id) && PendingUser(a', guard) == None
      && (forall g :: MarkerOf(a', g) == MarkerOf(a, g))
      && (forall g :: g != guard ==> GuardUser(a', g) == GuardUser(a, g) && PendingUser(a', g) == PendingUser(a, g))
  {
    hide Put, Forget, Get;
    var a1 := Put(a, GuardID, guard, UserID(id));
    var a2 := Put(a1, PasswordChangedAt, guard, Stamp(user.passwordChangedAt));
    var a3 := Forget(a2, TwoFactorUserID, guard);
    var a4 := Forget(a3, RememberIntent, guard);
    PutEffect(a, GuardID, guard, UserID(id));
    PutEffect(a1, PasswordChangedAt, guard, Stamp(user.passwordChangedAt));
    ForgetEffect(a2, TwoFactorUserID, guard);
    ForgetEffect(a3, RememberIntent, guard);
    PutEffect(a4, SessionTrackingToken, guard, Token(token));
  }

  lemma PendingEffect(a: Attributes, guard: string, id: nat, remember: bool)
    ensures
      var put := Put(a, TwoFactorUserID, guard, UserID(id));
      var a' := if remember then Put(put, RememberIntent, guard, Flag) else put;
      && (forall g :: GuardUser(a', g) == GuardUser(a, g) && MarkerOf(a', g) == MarkerOf(a, g))
      && (forall g :: PendingUser(a', g) == if g == guard then Some(id) else PendingUser(a, g))
  {
    hide Put, Get;
    var put := Put(a, TwoFactorUserID, guard, UserID(id));
    PutEffect(a, TwoFactorUserID, guard, UserID(id));
    PutEffect(put, RememberIntent, guard, Flag);
    var a' := if remember then Put(put, RememberIntent, guard, Flag) else put;
    forall g
      ensures PendingUser(a', g) == if g == guard then Some(id) else PendingUser(a, g)
      ensures GuardUser(a', g) == GuardUser(a, g) && MarkerOf(a', g) == MarkerOf(a, g)
    {
      assert Get(a', TwoFactorUserID, g) == if g == guard then Some(UserID(id)) else Get(a, TwoFactorUserID, g);
      assert Get(a', GuardID, g) == Get(a, GuardID, g) && Get(a', Impersonator, g) == Get(a, Impersonator, g);
    }
  }

  /** Nothing moves but this guard's user and attributes that carry no identity. */
  ghost predicate OnlyUserMoves(a: Attributes, a': Attributes, guard: string) {
    && (forall g :: MarkerOf(a', g) == MarkerOf(a, g) && PendingUser(a', g) == PendingUser(a, g))
    && (forall g :: g != guard ==> GuardUser(a', g) == GuardUser(a, g))
  }

  lemma RememberLoginEffect(o: GuardOptions, a: Attributes, guard: string, users: Users, cookie: Cookie, token: string)
    ensures
      var a' := RememberLogin(o, a, guard, users, cookie, token);
      && OnlyUserMoves(a, a', guard)
      && (GuardUser(a, guard).Some? || !o.remember || !cookie.GoodCookie? ==> a' == a)
      && (GuardUser(a', guard) != GuardUser(a, guard) ==>
            && GuardUser(a, guard).None? && o.remember && cookie.GoodCookie? && GuardUser(a', guard) == Some(cookie.user)
            && FindByID(users, guard, cookie.user).Some? && !FindByID(users, guard, cookie.user).value.disabled)
  {
    hide Put, Forget, Get;
    if cookie.GoodCookie? {
      var put := Put(a, GuardID, guard, UserID(cookie.user));
      PutEffect(a, GuardID, guard, UserID(cookie.user));
      var row := FindByID(users, guard, cookie.user);
      if row.None? || row.value.disabled {
        ForgetEffect(put, GuardID, guard);
      } else {
        PutEffect(put, PasswordChangedAt, guard, Stamp(row.value.passwordChangedAt));
        PutEffect(Put(put, PasswordChangedAt, guard, Stamp(row.value.passwordChangedAt)), SessionTrackingToken, guard, Token(token));
      }
    }
  }

  lemma AuthenticatedEffect(a: Attributes, guard: string, users: Users)
    ensures
      var (a', id) := Authenticated(a, guard, users);
      && OnlyUserMoves(a, a', guard)
      && (id.Some? ==> a' == a && GuardUser(a, guard) == id)
      && (a' == a || GuardUser(a', guard).None?)
  {
    hide Put, Forget, Get;
    ForgetEffect(a, GuardID, guard);
    ForgetEffect(Forget(a, GuardID, guard), PasswordChangedAt, guard);
  }

  lemma TrackSessionEffect(o: GuardOptions, a: Attributes, guard: string, alive: bool)
    ensures
      var (a', tracked) := TrackSession(o, a, guard, alive);
      OnlyUserMoves(a, a', guard) && (tracked ==> a' == a) && (a' == a || GuardUser(a', guard).None?)
  {
    hide Put, Forget, Get;
    ForgetEffect(a, GuardID, guard);
  }

  lemma LogoutEffect(a: Attributes, guard: string)
    ensures OnlyUserMoves(a, Logout(a, guard).0, guard) && GuardUser(Logout(a, guard).0, guard).None?
  {
    hide Forget, Get;
    var a1 := Forget(a, GuardID, guard);
    ForgetEffect(a, GuardID, guard);
    ForgetEffect(a1, PasswordChangedAt, guard);
    ForgetEffect(Forget(a1, PasswordChangedAt, guard), SessionTrackingToken, guard);
  }

  lemma ChangePasswordEffect(o: GuardOptions, a: Attributes, guard: string, changedAt: Option<int>)
    ensures
      var a' := ChangePassword(o, a, guard, changedAt).0;
      OnlyUserMoves(a, a', guard) && GuardUser(a', guard) == GuardUser(a, guard)
  {
    hide Put, Get;
    PutEffect(a, PasswordChangedAt, guard, Stamp(if changedAt.Some? then changedAt.value else 0));
  }

  /** What a successful switch does to the seats. */
  lemma SwitchEffect(a: Attributes, guard: string, actor: nat, targetGuard: string, target: nat, changedAt: int)
    ensures
      var marker := ImpersonatorMarker(guard, actor, targetGuard == guard);
      var a1 := Put(a, GuardID, targetGuard, UserID(target));
      var a2 := Put(a1, Impersonator, targetGuard, Marker(marker));
      var a3 := Put(a2, PasswordChangedAt, targetGuard, Stamp(changedAt));
      && GuardUser(a3, targetGuard) == Some(target) && MarkerOf(a3, targetGuard) == Some(marker)
      && (forall g :: g != targetGuard ==> GuardUser(a3, g) == GuardUser(a, g) && MarkerOf(a3, g) == MarkerOf(a, g))
      && (forall g :: PendingUser(a3, g) == PendingUser(a, g))
      && (forall k, g :: g != targetGuard ==> Get(a3, k, g) == Get(a, k, g))
  {
    hide Put, Get;
    var marker := ImpersonatorMarker(guard, actor, targetGuard == guard);
    var a1 := Put(a, GuardID, targetGuard, UserID(target));
    var a2 := Put(a1, Impersonator, targetGuard, Marker(marker));
    PutEffect(a, GuardID, targetGuard, UserID(target));
    PutEffect(a1, Impersonator, targetGuard, Marker(marker));
    PutEffect(a2, PasswordChangedAt, targetGuard, Stamp(changedAt));
  }

  /** Who may switch to whom, as one condition without an order. */
  lemma SwitchIffAllowed(site: Site, a: Attributes, guard: string, actorID: nat, users: Users, requested: string,
                         targetID: Option<nat>, hook: Hook)
    requires guard in site
    ensures
      var h := if requested == "" then guard else requested;
      var o := site[guard];
      var actor := FindByID(users, guard, actorID);
      var target := if targetID.Some? then FindByID(users, h, targetID.value) else None;
      Start(site, a, guard, actorID, users, requested, targetID, hook).1.Switched? <==>
        && MarkerOf(a, guard).None? && MarkerOf(a, h).None?
        && actor.Some? && target.Some? && !target.value.disabled && h in site && !(h == guard && targetID == Some(actorID))
        && (o.roles == [] || actor.value.role in o.roles) && ("*" in o.targetGuards || h in o.targetGuards)
        && target.value.role !in o.protectedRoles && (hook.NoHook? || hook.Allows?)
  {
  }

  /** What Start changes, and that it changes it for an actor who is himself only. */
  lemma StartEffect(site: Site, a: Attributes, guard: string, actor: nat, users: Users, requested: string, targetID: Option<nat>, hook: Hook)
    requires guard in site
    ensures
      var (a', response) := Start(site, a, guard, actor, users, requested, targetID, hook);
      var h := if requested == "" then guard else requested;
      && (forall g :: PendingUser(a', g) == PendingUser(a, g))
      && (forall g :: g != h ==> GuardUser(a', g) == GuardUser(a, g) && MarkerOf(a', g) == MarkerOf(a, g))
      && (forall k, g :: g != h ==> Get(a', k, g) == Get(a, k, g))
      && (!response.Switched? ==> a' == a)
      && (response.Switched? ==>
            && MarkerOf(a, guard).None? && MarkerOf(a, h).None? && targetID.Some?
            && h in site && ("*" in site[guard].targetGuards || h in site[guard].targetGuards)
            && GuardUser(a', h) == targetID
            && MarkerOf(a', h) == Some(ImpersonatorMarker(guard, actor, h == guard)))
  {
    var (a', response) := Start(site, a, guard, actor, users, requested, targetID, hook);
    SwitchIffAllowed(site, a, guard, actor, users, requested, targetID, hook);
    if response.Switched? {
      var h := if requested == "" then guard else requested;
      SwitchEffect(a, guard, actor, h, targetID.value, FindByID(users, h, targetID.value).value.passwordChangedAt);
    }
  }

  /** What Stop changes: the actor is restored on his own guard, or the guard is left empty. */
  lemma StopEffect(a: Attributes, guard: string, users: Users)
    ensures
      var a' := Stop(a, guard, users).0;
      && (forall g :: PendingUser(a', g) == PendingUser(a, g))
      && (forall g :: g != guard ==> GuardUser(a', g) == GuardUser(a, g) && MarkerOf(a', g) == MarkerOf(a, g))
      && (MarkerOf(a, guard).None? ==> a' == a)
      && (MarkerOf(a, guard).Some? ==>
            var m := MarkerOf(a, guard).value;
            var actor := FindByID(users, m.guard, m.user);
            && MarkerOf(a', guard).None?
            && (m.sameGuard && actor.Some? ==>
                  GuardUser(a', guard) == Some(m.user) && StampValid(a', guard, actor.value.passwordChangedAt))
            && (!(m.sameGuard && actor.Some?) ==> GuardUser(a', guard).None?))
  {
    if MarkerOf(a, guard).Some? {
      var m := MarkerOf(a, guard).value;
      var actor := FindByID(users, m.guard, m.user);
      var changedAt := if actor.Some? then actor.value.passwordChangedAt else 0;
      hide Put, Forget, Get;
      var put := Put(a, GuardID, guard, UserID(m.user));
      PutEffect(a, GuardID, guard, UserID(m.user));
      PutEffect(put, PasswordChangedAt, guard, Stamp(changedAt));
      ForgetEffect(Put(put, PasswordChangedAt, guard, Stamp(changedAt)), Impersonator, guard);
      var forgot := Forget(a, GuardID, guard);
      ForgetEffect(a, GuardID, guard);
      ForgetEffect(forgot, PasswordChangedAt, guard);
      ForgetEffect(Forget(forgot, PasswordChangedAt, guard), Impersonator, guard);
    }
  }

  /** The session as a guarded route's own handler finds it, if the request gets that far. */
  function Admitted(site: Site, a: Attributes, step: Step): (Attributes, Option<nat>)
    requires step.guard in site && step.request.GuardedRequest?
  {
    var a := RememberLogin(site[step.guard], a, step.guard, step.users, step.request.cookie, step.token);
    var (a, id) := Authenticated(a, step.guard, step.users);
    if id.None? then (a, None)
    else
      var (a, tracked) := TrackSession(site[step.guard], a, step.guard, step.request.alive);
      (a, if tracked then id else None)
  }

  lemma AdmittedEffect(site: Site, a: Attributes, step: Step)
    requires step.guard in site && step.request.GuardedRequest?
    ensures
      var (a', id) := Admitted(site, a, step);
      && OnlyUserMoves(a, a', step.guard)
      && (id.Some? ==> GuardUser(a', step.guard) == id)
      && (GuardUser(a', step.guard) == GuardUser(a, step.guard) || GuardUser(a', step.guard).None?
          || (GuardUser(a, step.guard).None? && CookieStep(site, step, step.guard, GuardUser(a', step.guard).value)))
  {
    var guard := step.guard;
    var a1 := RememberLogin(site[guard], a, guard, step.users, step.request.cookie, step.token);
    RememberLoginEffect(site[guard], a, guard, step.users, step.request.cookie, step.token);
    AuthenticatedEffect(a1, guard, step.users);
    TrackSessionEffect(site[guard], Authenticated(a1, guard, step.users).0, guard, step.request.alive);
    hide RememberLogin, Authenticated, TrackSession, GuardUser, MarkerOf, PendingUser;
  }

  // ---------------------------------------------------------------- one request

  /** The request proves this user on its guard, the session being as it is. */
  predicate Proves(site: Site, a: Attributes, step: Step, user: nat) {
    || PasswordStep(site, step, step.guard, user, false)
    || (CodeStep(step, step.guard, user) && PendingUser(a, step.guard) == Some(user))
    || (CookieStep(site, step, step.guard, user) && GuardUser(a, step.guard).None?)
  }

  predicate StopsOn(guard: string, step: Step) {
    step.guard == guard && step.request.GuardedRequest? && step.request.action.StopAction?
  }

  /** All that one request can do to a seat: it stays, its own guard's user leaves or is proved, it
      is switched by an actor who is himself, or its switch is stopped. */
  ghost predicate SeatMoves(site: Site, a: Attributes, a': Attributes, step: Step, g: string)
    requires step.guard in site
  {
    || (MarkerOf(a', g) == MarkerOf(a, g)
        && (GuardUser(a', g) == GuardUser(a, g)
            || (g == step.guard && (GuardUser(a', g).None? || Proves(site, a, step, GuardUser(a', g).value)))))
    || (SwitchesSeat(site, a, a', step, g))
    || (StopsOn(g, step) && MarkerOf(a, g).Some? && MarkerOf(a', g).None?
        && (GuardUser(a', g).None? || (MarkerOf(a, g).value.sameGuard && GuardUser(a', g) == Some(MarkerOf(a, g).value.user))))
  }

  ghost predicate SwitchesSeat(site: Site, a: Attributes, a': Attributes, step: Step, g: string)
    requires step.guard in site
  {
    && MarkerOf(a, step.guard).None? && MarkerOf(a, g).None? && GuardUser(a', g).Some?
    && MarkerOf(a', g).Some?
    && var m := MarkerOf(a', g).value;
       && m.guard == step.guard && (m.sameGuard <==> g == step.guard)
       && g in site && ("*" in site[step.guard].targetGuards || g in site[step.guard].targetGuards)
       && (GuardUser(a, step.guard) == Some(m.user) || Proves(site, a, step, m.user))
  }

  lemma LoginMoves(site: Site, a: Attributes, step: Step, g: string)
    requires step.guard in site && step.request.LoginRequest?
    ensures SeatMoves(site, a, Served(site, a, step), step, g)
  {
    var id := step.request.authenticated;
    if id.Some? && FindByID(step.users, step.guard, id.value).Some? {
      CompleteLoginEffect(site[step.guard], a, step.guard, id.value, FindByID(step.users, step.guard, id.value).value, step.token);
      PendingEffect(a, step.guard, id.value, step.request.wantsRemember);
    }
    hide CompleteLogin, Put, GuardUser, MarkerOf, PendingUser;
  }

  lemma ChallengeMoves(site: Site, a: Attributes, step: Step, g: string)
    requires step.guard in site && step.request.ChallengeRequest?
    ensures SeatMoves(site, a, Served(site, a, step), step, g)
  {
    var pending := PendingUser(a, step.guard);
    if pending.Some? && FindByID(step.users, step.guard, pending.value).Some? {
      CompleteLoginEffect(site[step.guard], a, step.guard, pending.value,
                          FindByID(step.users, step.guard, pending.value).value, step.token);
    }
    hide CompleteLogin, GuardUser, MarkerOf, PendingUser;
  }

  lemma GuardedServes(site: Site, a: Attributes, step: Step)
    requires step.guard in site && step.request.GuardedRequest?
    ensures
      var (a1, id) := Admitted(site, a, step);
      (Served(site, a, step), Answer(site, a, step)) ==
        if id.None? then (a1, Unauthorized) else Act(site, a1, step.guard, id.value, step.users, step.request.action)
  {
  }

  lemma GuardedMoves(site: Site, a: Attributes, step: Step, g: string)
    requires step.guard in site && step.request.GuardedRequest?
    ensures SeatMoves(site, a, Served(site, a, step), step, g)
  {
    var guard := step.guard;
    var (a1, id) := Admitted(site, a, step);
    GuardedServes(site, a, step);
    AdmittedEffect(site, a, step);
    LogoutEffect(a1, guard);
    StopEffect(a1, guard, step.users);
    hide Served, Admitted, GuardUser, MarkerOf, PendingUser, Start, Stop, Logout, ChangePassword;
    if id.Some? {
      match step.request.action {
        case Me =>
        case LogoutAction =>
        case PasswordAction(changedAt) => ChangePasswordEffect(site[guard], a1, guard, changedAt);
        case StartAction(requested, targetID, hook) =>
          StartEffect(site, a1, guard, id.value, step.users, requested, targetID, hook);
        case StopAction =>
      }
    }
  }

  lemma ServeMoves(site: Site, a: Attributes, step: Step, g: string)
    requires step.guard in site
    ensures SeatMoves(site, a, Served(site, a, step), step, g)
  {
    hide Served, SeatMoves;
    match step.request {
      case LoginRequest(_, _) => LoginMoves(site, a, step, g);
      case ChallengeRequest(_) => ChallengeMoves(site, a, step, g);
      case GuardedRequest(_, _, _) => GuardedMoves(site, a, step, g);
    }
  }

  // ---------------------------------------------------------------- the pending login

  lemma GuardedKeepsPending(site: Site, a: Attributes, step: Step, g: string)
    requires step.guard in site && step.request.GuardedRequest?
    ensures PendingUser(Served(site, a, step), g) == PendingUser(a, g)
  {
    var guard := step.guard;
    var (a1, id) := Admitted(site, a, step);
    GuardedServes(site, a, step);
    AdmittedEffect(site, a, step);
    LogoutEffect(a1, guard);
    StopEffect(a1, guard, step.users);
    hide Served, Admitted, GuardUser, MarkerOf, PendingUser, Start, Stop, Logout, ChangePassword;
    if id.Some? {
      match step.request.action {
        case Me =>
        case LogoutAction =>
        case PasswordAction(changedAt) => ChangePasswordEffect(site[guard], a1, guard, changedAt);
        case StartAction(requested, targetID, hook) =>
          StartEffect(site, a1, guard, id.value, step.users, requested, targetID, hook);
        case StopAction =>
      }
    }
  }

  /** What one request does to a guard's pending login. */
  lemma PendingStep(site: Site, a: Attributes, step: Step, g: string, user: nat)
    requires step.guard in site
    ensures PendingUser(Served(site, a, step), g) == Some(user) <==>
      PasswordStep(site, step, g, user, true) || (PendingUser(a, g) == Some(user) && !Settles(site, step, g, user))
  {
    match step.request {
      case GuardedRequest(_, _, _) =>
        GuardedKeepsPending(site, a, step, g);
        hide Served;
      case LoginRequest(authenticated, remember) =>
        if authenticated.Some? && FindByID(step.users, step.guard, authenticated.value).Some? {
          var id := authenticated.value;
          var row := FindByID(step.users, step.guard, id).value;
          CompleteLoginEffect(site[step.guard], a, step.guard, id, row, step.token);
          PendingEffect(a, step.guard, id, remember);
          assert !row.disabled ==>
            PasswordStep(site, step, step.guard, id, site[step.guard].twoFactor && row.twoFactorEnabled);
        }
        hide CompleteLogin, Put, GuardUser, MarkerOf, PendingUser;
      case ChallengeRequest(code) =>
        var pending := PendingUser(a, step.guard);
        if pending.Some? && FindByID(step.users, step.guard, pending.value).Some? {
          CompleteLoginEffect(site[step.guard], a, step.guard, pending.value,
                              FindByID(step.users, step.guard, pending.value).value, step.token);
        }
        hide CompleteLogin, GuardUser, MarkerOf, PendingUser;
    }
  }

  /** Main result: in every reachable session a login is pending for a user exactly if his password
      was given with a code owed, and neither the code nor another password came since. */
  lemma {:induction false} PendingByHistory(site: Site, steps: seq<Step>, g: string, user: nat)
    requires Mountable(site, steps)
    ensures PendingUser(Run(site, NEW_SESSION, steps), g) == Some(user) <==>
      exists i :: OpenChallenge(site, steps, g, user, i)
  {
    hide Served, PasswordStep, Settles;
    if steps != [] {
      var n := |steps| - 1;
      var front := steps[..n];
      PendingByHistory(site, front, g, user);
      PendingStep(site, Run(site, NEW_SESSION, front), steps[n], g, user);
      hide PendingUser;
      OpenStep(site, steps, g, user);
    } else {
      assert Get(NEW_SESSION, TwoFactorUserID, g).None?;
    }
  }

  lemma OpenStep(site: Site, steps: seq<Step>, g: string, user: nat)
    requires steps != []
    ensures
      var n := |steps| - 1;
      (exists i :: OpenChallenge(site, steps, g, user, i)) <==>
        PasswordStep(site, steps[n], g, user, true)
        || ((exists i :: OpenChallenge(site, steps[..n], g, user, i)) && !Settles(site, steps[n], g, user))
  {
    hide PasswordStep, Settles;
    var n := |steps| - 1;
    if i: nat :| OpenChallenge(site, steps, g, user, i) {
      if i < n { assert OpenChallenge(site, steps[..n], g, user, i); }
    }
    if PasswordStep(site, steps[n], g, user, true) {
      assert OpenChallenge(site, steps, g, user, n);
    }
    if i: nat :| OpenChallenge(site, steps[..n], g, user, i) {
      if !Settles(site, steps[n], g, user) { assert OpenChallenge(site, steps, g, user, i); }
    }
  }

  // ---------------------------------------------------------------- every run

  /** What a request proves, the run proves at that step. */
  lemma ProvesIsProved(site: Site, steps: seq<Step>, user: nat)
    requires Mountable(site, steps) && steps != []
    requires Proves(site, Run(site, NEW_SESSION, steps[..|steps| - 1]), steps[|steps| - 1], user)
    ensures ProvedAt(site, steps, steps[|steps| - 1].guard, user, |steps| - 1)
  {
    hide Run, PasswordStep, CodeStep, CookieStep, OpenChallenge;
    var front, step := steps[..|steps| - 1], steps[|steps| - 1];
    PendingByHistory(site, front, step.guard, user);
  }

  lemma ProvedStays(site: Site, steps: seq<Step>, n: nat, guard: string, user: nat, j: nat)
    requires n <= |steps| && ProvedAt(site, steps[..n], guard, user, j)
    ensures ProvedAt(site, steps, guard, user, j)
  {
    hide Run, PasswordStep, CodeStep, CookieStep, OpenChallenge;
    assert steps[..n][..j] == steps[..j];
  }

  lemma SignedInStays(site: Site, steps: seq<Step>, n: nat, guard: string, user: nat)
    requires n <= |steps| && ReallySignedIn(site, steps[..n], guard, user)
    ensures ReallySignedIn(site, steps, guard, user)
  {
    hide ProvedAt;
    var j :| ProvedAt(site, steps[..n], guard, user, j);
    ProvedStays(site, steps, n, guard, user, j);
  }

  /** A guard without a marker holds nobody or somebody who really signed in there; a marker names
      somebody who really signed in where it says, on a guard whose policy allows the switch. */
  ghost predicate HonestSeat(site: Site, steps: seq<Step>, g: string) {
    var a := Run(site, NEW_SESSION, steps);
    && (MarkerOf(a, g).None? && GuardUser(a, g).Some? ==> ReallySignedIn(site, steps, g, GuardUser(a, g).value))
    && (MarkerOf(a, g).Some? ==>
          var m := MarkerOf(a, g).value;
          && ReallySignedIn(site, steps, m.guard, m.user) && (m.sameGuard <==> m.guard == g)
          && m.guard in site && ("*" in site[m.guard].targetGuards || g in site[m.guard].targetGuards))
  }

  lemma SeatStaysHonest(site: Site, steps: seq<Step>, g: string)
    requires Mountable(site, steps) && steps != []
    requires HonestSeat(site, steps[..|steps| - 1], g) && HonestSeat(site, steps[..|steps| - 1], steps[|steps| - 1].guard)
    ensures HonestSeat(site, steps, g)
  {
    var n := |steps| - 1;
    var front, step := steps[..n], steps[n];
    var a, a' := Run(site, NEW_SESSION, front), Run(site, NEW_SESSION, steps);
    ServeMoves(site, a, step, g);
    hide Run, Served, GuardUser, MarkerOf, Proves, ReallySignedIn, Mountable;
    forall h, u | ReallySignedIn(site, front, h, u) ensures ReallySignedIn(site, steps, h, u) {
      SignedInStays(site, steps, n, h, u);
    }
    forall u | Proves(site, a, step, u) ensures ReallySignedIn(site, steps, step.guard, u) {
      ProvedReally(site, steps, u);
    }
  }

  lemma ProvedReally(site: Site, steps: seq<Step>, user: nat)
    requires Mountable(site, steps) && steps != []
    requires Proves(site, Run(site, NEW_SESSION, steps[..|steps| - 1]), steps[|steps| - 1], user)
    ensures ReallySignedIn(site, steps, steps[|steps| - 1].guard, user)
  {
    ProvesIsProved(site, steps, user);
  }

  /** Main result: in every reachable session, whatever the requests, the users tables and the
      answers of the services, every seat is honest. In particular the right password alone puts
      nobody on a guard whose site and row ask for a second factor. */
  lemma {:induction false} EverySessionHonest(site: Site, steps: seq<Step>, g: string)
    requires Mountable(site, steps)
    ensures HonestSeat(site, steps, g)
  {
    if steps == [] {
      assert Get(NEW_SESSION, GuardID, g).None? && Get(NEW_SESSION, Impersonator, g).None?;
    } else {
      hide HonestSeat;
      var n := |steps| - 1;
      EverySessionHonest(site, steps[..n], g);
      EverySessionHonest(site, steps[..n], steps[n].guard);
      SeatStaysHonest(site, steps, g);
    }
  }

  /** Switches never chain: whoever starts one is, at that moment, himself on his guard. */
  lemma ActorsAreThemselves(site: Site, steps: seq<Step>)
    requires Mountable(site, steps) && steps != []
    requires
      var step := steps[|steps| - 1];
      && step.request.GuardedRequest? && step.request.action.StartAction?
      && Answer(site, Run(site, NEW_SESSION, steps[..|steps| - 1]), step).Switched?
    ensures
      var step := steps[|steps| - 1];
      var (admitted, id) := Admitted(site, Run(site, NEW_SESSION, steps[..|steps| - 1]), step);
      id.Some? && MarkerOf(admitted, step.guard).None? && ReallySignedIn(site, steps, step.guard, id.value)
  {
    var n := |steps| - 1;
    var front, step := steps[..n], steps[n];
    var a := Run(site, NEW_SESSION, front);
    var (admitted, id) := Admitted(site, a, step);
    GuardedServes(site, a, step);
    AdmittedEffect(site, a, step);
    EverySessionHonest(site, front, step.guard);
    hide Run, Admitted, Answer, GuardUser, MarkerOf, ReallySignedIn, Start, Mountable;
    var action := step.request.action;
    StartEffect(site, admitted, step.guard, id.value, step.users, action.requested, action.targetID, action.hook);
    if GuardUser(a, step.guard) == id {
      SignedInStays(site, steps, n, step.guard, id.value);
    } else {
      ProvedReally(site, steps, id.value);
    }
  }
}
