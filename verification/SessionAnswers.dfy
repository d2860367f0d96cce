/** When each session handler answers what, and what every attribute of every guard is afterwards.
    Said of the request's inputs and of single attributes, so independently of the order in which a
    handler tests, puts and forgets. */
module SessionAnswers {
  import opened OptionType
  import opened SessionKeys
  import opened Sessions
  import opened SessionSafety
  import opened SwitchAndBack
  import opened SignedIn

  // ---------------------------------------------------------------- login and challenge

  /** The attributes a completed login leaves. */
  ghost predicate LoggedInAttributes(o: GuardOptions, a: Attributes, a': Attributes, guard: string, id: nat, changedAt: int, token: string) {
    forall k, g :: Get(a', k, g) ==
      if g != guard then Get(a, k, g)
      else match k
           case GuardID => Some(UserID(id))
           case PasswordChangedAt => Some(Stamp(changedAt))
           case TwoFactorUserID => None
           case RememberIntent => None
           case SessionTrackingToken => if o.sessions then Some(Token(token)) else Get(a, k, g)
           case Impersonator => Get(a, k, g)
  }

  lemma CompletionAttributes(o: GuardOptions, a: Attributes, guard: string, id: nat, user: User, token: string)
    ensures LoggedInAttributes(o, a, CompleteLogin(o, a, guard, id, user, token), guard, id, user.passwordChangedAt, token)
  {
    hide Put, Forget, Get;
    var a1 := Put(a, GuardID, guard, UserID(id));
    var a2 := Put(a1, PasswordChangedAt, guard, Stamp(user.passwordChangedAt));
    var a3 := Forget(a2, TwoFactorUserID, guard);
    var a4 := Forget(a3, RememberIntent, guard);
    PutEffect(a, GuardID, guard, UserID(id));
    PutEffect(a1, PasswordChangedAt, guard, Stamp(user.passwordChangedAt));
    ForgetEffect(a2, TwoFactorUserID, guard);
    ForgetEffect(a3, RememberIntent, guard);
    PutEffect(a4, SessionTrackingToken, guard, Token(token));
  }

  /** Main result: what a login request is answered, by the password check and the user's row: signed
      in exactly for the right password of an enabled user who owes no code, with a cookie exactly if
      the guard remembers and it was asked for; asked for a code exactly if he owes one. */
  lemma LoginAnswers(site: Site, a: Attributes, step: Step)
    requires step.guard in site && step.request.LoginRequest?
    ensures
      var o, answer, a' := site[step.guard], Answer(site, a, step), Served(site, a, step);
      var row := if step.request.authenticated.Some? then FindByID(step.users, step.guard, step.request.authenticated.value) else None;
      && (answer.LoggedIn? <==> row.Some? && !row.value.disabled && !(o.twoFactor && row.value.twoFactorEnabled))
      && (answer == TwoFactorRequired <==> row.Some? && !row.value.disabled && o.twoFactor && row.value.twoFactorEnabled)
      && (answer == AccountDisabled <==> row.Some? && row.value.disabled)
      && (answer == InvalidCredentials <==> row.None?)
      && (answer.LoggedIn? ==>
            && step.request.authenticated == Some(answer.user)
            && (answer.rememberCookie <==> o.remember && step.request.wantsRemember)
            && LoggedInAttributes(o, a, a', step.guard, answer.user, row.value.passwordChangedAt, step.token))
      && (answer == TwoFactorRequired ==>
            forall k, g :: Get(a', k, g) ==
              if g == step.guard && k == TwoFactorUserID then Some(UserID(step.request.authenticated.value))
              else if g == step.guard && k == RememberIntent && step.request.wantsRemember then Some(Flag)
              else Get(a, k, g))
      && (answer == AccountDisabled || answer == InvalidCredentials ==> a' == a)
  {
    hide Put, Get, CompleteLogin;
    if step.request.authenticated.Some? {
      var id := step.request.authenticated.value;
      var row := FindByID(step.users, step.guard, id);
      if row.Some? {
        CompletionAttributes(site[step.guard], a, step.guard, id, row.value, step.token);
        var put := Put(a, TwoFactorUserID, step.guard, UserID(id));
        PutEffect(a, TwoFactorUserID, step.guard, UserID(id));
        PutEffect(put, RememberIntent, step.guard, Flag);
      }
    }
    hide LoggedInAttributes;
  }

  /** Main result: over every run, a challenge signs somebody in exactly if its code is right and his
      password step is still open, and it is he. */
  lemma ChallengeAnswers(site: Site, before: seq<Step>, step: Step, id: nat)
    requires Mountable(site, before) && step.guard in site && step.request.ChallengeRequest?
    ensures
      var a := Run(site, NEW_SESSION, before);
      var answer := Answer(site, a, step);
      && (answer.LoggedIn? && answer.user == id <==>
            && step.request.code == RightCode && FindByID(step.users, step.guard, id).Some?
            && exists i :: OpenChallenge(site, before, step.guard, id, i))
      && (!answer.LoggedIn? ==> Served(site, a, step) == a)
      && (answer.LoggedIn? && answer.user == id ==>
            LoggedInAttributes(site[step.guard], a, Served(site, a, step), step.guard, id,
                               FindByID(step.users, step.guard, id).value.passwordChangedAt, step.token))
  {
    var a := Run(site, NEW_SESSION, before);
    PendingByHistory(site, before, step.guard, id);
    if FindByID(step.users, step.guard, id).Some? {
      CompletionAttributes(site[step.guard], a, step.guard, id, FindByID(step.users, step.guard, id).value, step.token);
    }
    hide Run, CompleteLogin, PendingUser, OpenChallenge, LoggedInAttributes;
  }

  /** What a challenge that signs nobody in is told. */
  lemma ChallengeRefusals(site: Site, a: Attributes, step: Step)
    requires step.guard in site && step.request.ChallengeRequest?
    ensures
      var answer, pending := Answer(site, a, step), PendingUser(a, step.guard);
      && (answer == Unauthorized <==> pending.None? || FindByID(step.users, step.guard, pending.value).None?)
      && (answer != Unauthorized ==>
            && (answer == BadRequest <==> step.request.code == NoCode)
            && (answer == InternalError <==> step.request.code == CheckFailed)
            && (answer == InvalidCode <==> step.request.code == WrongCode))
  {
  }

  // ---------------------------------------------------------------- the middleware chain

  /** The session is signed in as this user and the stamp is that of his row. */
  predicate GoodSeat(a: Attributes, step: Step, id: nat) {
    && Get(a, GuardID, step.guard) == Some(UserID(id))
    && var row := FindByID(step.users, step.guard, id);
       row.Some? && !row.value.disabled && Get(a, PasswordChangedAt, step.guard) == Some(Stamp(row.value.passwordChangedAt))
  }

  /** Nobody is signed in, and the request carries the cookie of an enabled user of a guard that
      remembers. */
  predicate GoodCookieShown(site: Site, a: Attributes, step: Step, id: nat)
    requires step.request.GuardedRequest?
  {
    GuardUser(a, step.guard).None? && CookieStep(site, step, step.guard, id)
  }

  /** What a cookie sign-in leaves on its guard. */
  lemma CookieAttributes(o: GuardOptions, a: Attributes, guard: string, users: Users, id: nat, token: string)
    requires o.remember && GuardUser(a, guard).None?
    requires FindByID(users, guard, id).Some? && !FindByID(users, guard, id).value.disabled
    ensures
      forall k, g :: Get(RememberLogin(o, a, guard, users, GoodCookie(id), token), k, g) ==
        if g != guard then Get(a, k, g)
        else match k
             case GuardID => Some(UserID(id))
             case PasswordChangedAt => Some(Stamp(FindByID(users, guard, id).value.passwordChangedAt))
             case SessionTrackingToken => if o.sessions then Some(Token(token)) else Get(a, k, g)
             case _ => Get(a, k, g)
  {
    hide Put, Forget, Get;
    var put := Put(a, GuardID, guard, UserID(id));
    var stamp := Stamp(FindByID(users, guard, id).value.passwordChangedAt);
    PutEffect(a, GuardID, guard, UserID(id));
    PutEffect(put, PasswordChangedAt, guard, stamp);
    PutEffect(Put(put, PasswordChangedAt, guard, stamp), SessionTrackingToken, guard, Token(token));
  }

  lemma SeatAdmits(site: Site, a: Attributes, step: Step, id: nat)
    requires step.guard in site && step.request.GuardedRequest? && GuardUser(a, step.guard) == Some(id)
    ensures Admitted(site, a, step).1 ==
      if GoodSeat(a, step, id)
         && (!site[step.guard].sessions || step.request.alive || Get(a, SessionTrackingToken, step.guard).None?)
      then Some(id) else None
  {
  }

  lemma CookieAdmits(site: Site, a: Attributes, step: Step)
    requires step.guard in site && step.request.GuardedRequest? && GuardUser(a, step.guard).None?
    ensures Admitted(site, a, step).1 ==
      if step.request.cookie.GoodCookie? && CookieStep(site, step, step.guard, step.request.cookie.user)
         && (!site[step.guard].sessions || step.request.alive)
      then Some(step.request.cookie.user) else None
  {
    var o, guard := site[step.guard], step.guard;
    if step.request.cookie.GoodCookie? {
      var id := step.request.cookie.user;
      if CookieStep(site, step, guard, id) {
        CookieAttributes(o, a, guard, step.users, id, step.token);
        SeatAdmitsAfter(site, RememberLogin(o, a, guard, step.users, step.request.cookie, step.token), step, id);
      } else {
        hide Put;
        RememberLoginEffect(o, a, guard, step.users, step.request.cookie, step.token);
      }
    }
  }

  lemma SeatAdmitsAfter(site: Site, a1: Attributes, step: Step, id: nat)
    requires step.guard in site && step.request.GuardedRequest? && GoodSeat(a1, step, id)
    requires site[step.guard].sessions ==> Get(a1, SessionTrackingToken, step.guard).Some?
    ensures
      var (a2, admitted) := Authenticated(a1, step.guard, step.users);
      && admitted == Some(id) && a2 == a1
      && (TrackSession(site[step.guard], a2, step.guard, step.request.alive).1 <==> !site[step.guard].sessions || step.request.alive)
  {
  }

  /** Main result: whom a guarded route lets through: the signed-in user whose row is there, enabled
      and unchanged, or the owner of a good cookie on an empty guard; and neither if the guard tracks
      sessions and the tracked row is gone. */
  lemma GuardedAdmits(site: Site, a: Attributes, step: Step, id: nat)
    requires step.guard in site && step.request.GuardedRequest?
    ensures Admitted(site, a, step).1 == Some(id) <==>
      || (GoodSeat(a, step, id)
          && (!site[step.guard].sessions || step.request.alive || Get(a, SessionTrackingToken, step.guard).None?))
      || (GoodCookieShown(site, a, step, id) && (!site[step.guard].sessions || step.request.alive))
    ensures Admitted(site, a, step).1.None? ==> Answer(site, a, step) == Unauthorized
  {
    GuardedServes(site, a, step);
    if GuardUser(a, step.guard).Some? {
      SeatAdmits(site, a, step, GuardUser(a, step.guard).value);
    } else {
      CookieAdmits(site, a, step);
    }
    hide Admitted, Served, Answer;
  }

  /** A request that only looks, and signs a cookie's owner in on the way. */
  ghost predicate CookieSignsIn(site: Site, a: Attributes, step: Step, id: nat) {
    && step.guard in site && step.request.GuardedRequest? && step.request.action == Me
    && GoodCookieShown(site, a, step, id) && (site[step.guard].sessions ==> step.request.alive)
  }

  lemma CookieSeats(site: Site, a: Attributes, step: Step, id: nat)
    requires CookieSignsIn(site, a, step, id)
    ensures Answer(site, a, step) == Done
    ensures Seated(Served(site, a, step), step.guard, id, FindByID(step.users, step.guard, id).value.passwordChangedAt)
    ensures site[step.guard].sessions ==> Get(Served(site, a, step), SessionTrackingToken, step.guard) == Some(Token(step.token))
  {
    var o, guard := site[step.guard], step.guard;
    var a1 := RememberLogin(o, a, guard, step.users, step.request.cookie, step.token);
    CookieAttributes(o, a, guard, step.users, id, step.token);
    SeatAdmitsAfter(site, a1, step, id);
    GuardedServes(site, a, step);
    TrackSessionEffect(o, a1, guard, step.request.alive);
    hide Served, Answer, RememberLogin, Authenticated, TrackSession;
    assert Admitted(site, a, step) == (a1, Some(id));
    hide Admitted;
  }

  /** Main result: a cookie sign-in is good for as long as a login. Through every undisturbed run the
      guard serves the cookie's owner exactly while no request has ended the seat and his row is as it
      was at the sign-in. */
  lemma CookieIsServed(site: Site, a: Attributes, step: Step, id: nat, between: seq<Step>, users: Users)
    requires CookieSignsIn(site, a, step, id)
    requires Mountable(site, between) && Undisturbed(site, Served(site, a, step), between, step.guard)
    ensures
      var a' := Served(site, a, step);
      var changedAt := FindByID(step.users, step.guard, id).value.passwordChangedAt;
      ServedUser(site, a', between, step.guard, users) ==
        if !SomeStepEnds(site, a', between, step.guard, id, changedAt) && StillGood(users, step.guard, id, changedAt)
        then Some(id) else None
  {
    CookieSeats(site, a, step, id);
    hide Served, Answer, Seated, ServedUser, Undisturbed, SomeStepEnds;
    SeatIsServed(site, Served(site, a, step), between, step.guard, id,
                 FindByID(step.users, step.guard, id).value.passwordChangedAt, users);
  }

  /** Main result: a cookie sign-in is tracked. On a tracking site the guard then holds this request's
      token, and from the first request that finds the tracked row gone the guard is empty, through
      every undisturbed run. */
  lemma CookieIsTracked(site: Site, a: Attributes, step: Step, id: nat, between: seq<Step>, k: nat)
    requires CookieSignsIn(site, a, step, id) && site[step.guard].sessions
    requires Mountable(site, between) && Undisturbed(site, Served(site, a, step), between, step.guard)
    requires k < |between| && between[k].guard == step.guard && between[k].request.GuardedRequest? && !between[k].request.alive
    requires FindByID(between[k].users, step.guard, id).Some?
    ensures Get(Served(site, a, step), SessionTrackingToken, step.guard) == Some(Token(step.token))
    ensures GuardUser(Run(site, Served(site, a, step), between), step.guard).None?
  {
    CookieSeats(site, a, step, id);
    hide Served, Answer, Seated, Run, Undisturbed;
    TerminatedIsOut(site, Served(site, a, step), between, step.guard, id,
                    FindByID(step.users, step.guard, id).value.passwordChangedAt, k);
  }

  /** What the refused request of a signed-in user leaves: a disabled user keeps his stamp, a stale one
      loses it too, and a terminated session keeps both its stamp and its token. */
  lemma RefusedAttributes(o: GuardOptions, a: Attributes, guard: string, users: Users, alive: bool, id: nat)
    requires GuardUser(a, guard) == Some(id) && FindByID(users, guard, id).Some?
    ensures
      var row := FindByID(users, guard, id).value;
      var stale := !row.disabled && Get(a, PasswordChangedAt, guard) != Some(Stamp(row.passwordChangedAt));
      var a' := Authenticated(a, guard, users).0;
      forall k, g :: Get(a', k, g) ==
        if g == guard && ((k == GuardID && (row.disabled || stale)) || (k == PasswordChangedAt && stale)) then None else Get(a, k, g)
    ensures forall k, g ::
      Get(TrackSession(o, a, guard, alive).0, k, g) ==
      if g == guard && k == GuardID && o.sessions && !alive && Get(a, SessionTrackingToken, guard).Some? then None else Get(a, k, g)
  {
    hide Put, Forget, Get;
    ForgetEffect(a, GuardID, guard);
    ForgetEffect(Forget(a, GuardID, guard), PasswordChangedAt, guard);
  }

  // ---------------------------------------------------------------- the guarded actions

  lemma LogoutAttributes(a: Attributes, guard: string)
    ensures Logout(a, guard).1 == Done
    ensures forall k, g ::
      Get(Logout(a, guard).0, k, g) ==
      if g == guard && (k == GuardID || k == PasswordChangedAt || k == SessionTrackingToken) then None else Get(a, k, g)
  {
    hide Forget, Get;
    var a1 := Forget(a, GuardID, guard);
    ForgetEffect(a, GuardID, guard);
    ForgetEffect(a1, PasswordChangedAt, guard);
    ForgetEffect(Forget(a1, PasswordChangedAt, guard), SessionTrackingToken, guard);
  }

  lemma PasswordAnswers(o: GuardOptions, a: Attributes, guard: string, changedAt: Option<int>)
    ensures
      var (a', answer) := ChangePassword(o, a, guard, changedAt);
      var switched := Get(a, Impersonator, guard).Some? && Get(a, Impersonator, guard).value.Marker?;
      && (answer == Forbidden <==> switched && !o.allowSensitiveActions)
      && (answer == Done <==> changedAt.Some? && !(switched && !o.allowSensitiveActions))
      && (answer == BadRequest <==> changedAt.None? && !(switched && !o.allowSensitiveActions))
      && (forall k, g :: Get(a', k, g) ==
            if answer == Done && g == guard && k == PasswordChangedAt then Some(Stamp(changedAt.value)) else Get(a, k, g))
  {
    hide Put;
    PutEffect(a, PasswordChangedAt, guard, Stamp(if changedAt.Some? then changedAt.value else 0));
    hide Get;
  }

  /** What a switch is answered, refusal by refusal, and what it leaves. */
  lemma StartAnswers(site: Site, a: Attributes, guard: string, actorID: nat, users: Users, requested: string,
                     targetID: Option<nat>, hook: Hook)
    requires guard in site
    ensures
      var h := if requested == "" then guard else requested;
      var (a', answer) := Start(site, a, guard, actorID, users, requested, targetID, hook);
      var readable := targetID.Some? && h in site && !(h == guard && targetID == Some(actorID));
      var actor := FindByID(users, guard, actorID);
      && (answer == Unauthorized <==> MarkerOf(a, guard).None? && actor.None?)
      && (answer == BadRequest <==> MarkerOf(a, guard).None? && actor.Some? && !readable)
      && (answer == Conflict <==> MarkerOf(a, guard).None? && actor.Some? && readable && MarkerOf(a, h).Some?)
      && (answer == NotFound <==>
            MarkerOf(a, guard).None? && actor.Some? && readable && MarkerOf(a, h).None? && FindByID(users, h, targetID.value).None?)
      && (answer.Switched? ==>
            && targetID == Some(answer.target) && FindByID(users, h, answer.target).Some?
            && forall k, g :: Get(a', k, g) ==
                 if g != h then Get(a, k, g)
                 else match k
                      case GuardID => Some(UserID(answer.target))
                      case PasswordChangedAt => Some(Stamp(FindByID(users, h, answer.target).value.passwordChangedAt))
                      case Impersonator => Some(Marker(ImpersonatorMarker(guard, actorID, h == guard)))
                      case _ => Get(a, k, g))
      && (!answer.Switched? ==> a' == a)
  {
    var answer := Start(site, a, guard, actorID, users, requested, targetID, hook).1;
    if answer.Switched? {
      var h := if requested == "" then guard else requested;
      var marker := ImpersonatorMarker(guard, actorID, h == guard);
      var stamp := Stamp(FindByID(users, h, targetID.value).value.passwordChangedAt);
      hide Put, Get;
      var a1 := Put(a, GuardID, h, UserID(targetID.value));
      var a2 := Put(a1, Impersonator, h, Marker(marker));
      PutEffect(a, GuardID, h, UserID(targetID.value));
      PutEffect(a1, Impersonator, h, Marker(marker));
      PutEffect(a2, PasswordChangedAt, h, stamp);
    }
  }

  /** The policy's answers: an enabled target is refused by role, guard or protection before the hook
      is asked, and a failing hook is an internal error. */
  lemma StartRefusals(site: Site, a: Attributes, guard: string, actorID: nat, users: Users, requested: string,
                      targetID: Option<nat>, hook: Hook)
    requires guard in site
    ensures
      var h := if requested == "" then guard else requested;
      var answer := Start(site, a, guard, actorID, users, requested, targetID, hook).1;
      var actor, o := FindByID(users, guard, actorID), site[guard];
      var target := if targetID.Some? then FindByID(users, h, targetID.value) else None;
      var found := MarkerOf(a, guard).None? && MarkerOf(a, h).None? && actor.Some? && target.Some? && h in site
                   && !(h == guard && targetID == Some(actorID));
      var granted := found && !target.value.disabled && (o.roles == [] || actor.value.role in o.roles)
                     && ("*" in o.targetGuards || h in o.targetGuards) && target.value.role !in o.protectedRoles;
      && (answer == InternalError <==> granted && hook.HookFails?)
      && (answer == Forbidden <==> MarkerOf(a, guard).Some? || (found && !granted) || (granted && hook.Refuses?))
  {
  }

  lemma StopAnswers(a: Attributes, guard: string, users: Users)
    ensures
      var (a', answer) := Stop(a, guard, users);
      var marker := MarkerOf(a, guard);
      && answer == (if marker.None? then BadRequest else Done)
      && (marker.None? ==> a' == a)
      && (marker.Some? ==>
            var actor := FindByID(users, marker.value.guard, marker.value.user);
            var back := marker.value.sameGuard && actor.Some?;
            forall k, g :: Get(a', k, g) ==
              if g != guard then Get(a, k, g)
              else match k
                   case GuardID => if back then Some(UserID(marker.value.user)) else None
                   case PasswordChangedAt => if back then Some(Stamp(actor.value.passwordChangedAt)) else None
                   case Impersonator => None
                   case _ => Get(a, k, g))
  {
    if MarkerOf(a, guard).Some? {
      var m := MarkerOf(a, guard).value;
      var actor := FindByID(users, m.guard, m.user);
      var changedAt := if actor.Some? then actor.value.passwordChangedAt else 0;
      hide Put, Forget, Get;
      var put := Put(a, GuardID, guard, UserID(m.user));
      PutEffect(a, GuardID, guard, UserID(m.user));
      PutEffect(put, PasswordChangedAt, guard, Stamp(changedAt));
      ForgetEffect(Put(put, PasswordChangedAt, guard, Stamp(changedAt)), Impersonator, guard);
      var forgot := Forget(a, GuardID, guard);
      ForgetEffect(a, GuardID, guard);
      ForgetEffect(forgot, PasswordChangedAt, guard);
      ForgetEffect(Forget(forgot, PasswordChangedAt, guard), Impersonator, guard);
    }
  }
}
