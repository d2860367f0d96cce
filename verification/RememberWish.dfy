/** When a two-factor login issues a persistent cookie: the "remember me" wish of the password step
    is stashed in the session and honoured by the challenge (http/controllers/auth.go,
    http/controllers/twofactor.go). */
module RememberWish {
  import opened OptionType
  import opened SessionKeys
  import opened Sessions
  import opened SessionSafety

  predicate Stashed(a: Attributes, guard: string) {
    Get(a, RememberIntent, guard) == Some(Flag)
  }

  ghost predicate SameWishes(a: Attributes, b: Attributes) {
    forall g :: Get(a, RememberIntent, g) == Get(b, RememberIntent, g)
  }

  /** The password step of a two-step login that asked to be remembered. */
  predicate Asks(site: Site, a: Attributes, step: Step, guard: string)
    requires step.guard in site
  {
    step.guard == guard && step.request.LoginRequest? && step.request.wantsRemember && Answer(site, a, step) == TwoFactorRequired
  }

  /** A login that completed, with or without a challenge. */
  predicate Completes(site: Site, a: Attributes, step: Step, guard: string)
    requires step.guard in site
  {
    step.guard == guard && Answer(site, a, step).LoggedIn?
  }

  // ---------------------------------------------------------------- single handlers

  lemma CompletionForgets(o: GuardOptions, a: Attributes, guard: string, id: nat, user: User, token: string)
    ensures
      var a' := CompleteLogin(o, a, guard, id, user, token);
      forall g :: Get(a', RememberIntent, g) == if g == guard then None else Get(a, RememberIntent, g)
  {
    hide Put, Forget, Get;
    var a1 := Put(a, GuardID, guard, UserID(id));
    var a2 := Put(a1, PasswordChangedAt, guard, Stamp(user.passwordChangedAt));
    var a3 := Forget(a2, TwoFactorUserID, guard);
    var a4 := Forget(a3, RememberIntent, guard);
    PutEffect(a, GuardID, guard, UserID(id));
    PutEffect(a1, PasswordChangedAt, guard, Stamp(user.passwordChangedAt));
    ForgetEffect(a2, TwoFactorUserID, guard);
    ForgetEffect(a3, RememberIntent, guard);
    PutEffect(a4, SessionTrackingToken, guard, Token(token));
  }

  lemma PendingStashes(a: Attributes, guard: string, id: nat, remember: bool)
    ensures
      var put := Put(a, TwoFactorUserID, guard, UserID(id));
      var a' := if remember then Put(put, RememberIntent, guard, Flag) else put;
      forall g :: Get(a', RememberIntent, g) == if g == guard && remember then Some(Flag) else Get(a, RememberIntent, g)
  {
    hide Put, Get;
    var put := Put(a, TwoFactorUserID, guard, UserID(id));
    PutEffect(a, TwoFactorUserID, guard, UserID(id));
    PutEffect(put, RememberIntent, guard, Flag);
  }

  lemma RememberLoginKeeps(o: GuardOptions, a: Attributes, guard: string, users: Users, cookie: Cookie, token: string)
    ensures SameWishes(RememberLogin(o, a, guard, users, cookie, token), a)
  {
    if cookie.GoodCookie? {
      hide Put, Forget, Get;
      var put := Put(a, GuardID, guard, UserID(cookie.user));
      PutEffect(a, GuardID, guard, UserID(cookie.user));
      ForgetEffect(put, GuardID, guard);
      var user := FindByID(users, guard, cookie.user);
      var changedAt := if user.Some? then user.value.passwordChangedAt else 0;
      PutEffect(put, PasswordChangedAt, guard, Stamp(changedAt));
      PutEffect(Put(put, PasswordChangedAt, guard, Stamp(changedAt)), SessionTrackingToken, guard, Token(token));
    }
  }

  lemma ForgettingKeeps(a: Attributes, guard: string)
    ensures
      var a1 := Forget(a, GuardID, guard);
      var a2 := Forget(a1, PasswordChangedAt, guard);
      SameWishes(a1, a) && SameWishes(a2, a) && SameWishes(Forget(a2, SessionTrackingToken, guard), a)
      && SameWishes(Forget(a2, Impersonator, guard), a)
  {
    hide Forget, Get;
    var a1 := Forget(a, GuardID, guard);
    var a2 := Forget(a1, PasswordChangedAt, guard);
    ForgetEffect(a, GuardID, guard);
    ForgetEffect(a1, PasswordChangedAt, guard);
    ForgetEffect(a2, SessionTrackingToken, guard);
    ForgetEffect(a2, Impersonator, guard);
  }

  lemma SwitchingKeeps(a: Attributes, guard: string, id: nat, marker: ImpersonatorMarker, changedAt: int)
    ensures
      var a1 := Put(a, GuardID, guard, UserID(id));
      SameWishes(Put(Put(a1, Impersonator, guard, Marker(marker)), PasswordChangedAt, guard, Stamp(changedAt)), a)
  {
    hide Put, Get;
    var a1 := Put(a, GuardID, guard, UserID(id));
    PutEffect(a, GuardID, guard, UserID(id));
    PutEffect(a1, Impersonator, guard, Marker(marker));
    PutEffect(Put(a1, Impersonator, guard, Marker(marker)), PasswordChangedAt, guard, Stamp(changedAt));
  }

  lemma StampingKeeps(a: Attributes, guard: string, id: nat, changedAt: int)
    ensures
      var a1 := Put(a, GuardID, guard, UserID(id));
      && SameWishes(Put(a, PasswordChangedAt, guard, Stamp(changedAt)), a)
      && SameWishes(Forget(Put(a1, PasswordChangedAt, guard, Stamp(changedAt)), Impersonator, guard), a)
  {
    hide Put, Forget, Get;
    var a1 := Put(a, GuardID, guard, UserID(id));
    PutEffect(a, PasswordChangedAt, guard, Stamp(changedAt));
    PutEffect(a, GuardID, guard, UserID(id));
    PutEffect(a1, PasswordChangedAt, guard, Stamp(changedAt));
    ForgetEffect(Put(a1, PasswordChangedAt, guard, Stamp(changedAt)), Impersonator, guard);
  }

  lemma StartKeeps(site: Site, a: Attributes, guard: string, actorID: nat, users: Users, requested: string, targetID: Option<nat>, hook: Hook)
    requires guard in site
    ensures SameWishes(Start(site, a, guard, actorID, users, requested, targetID, hook).0, a)
  {
    var response := Start(site, a, guard, actorID, users, requested, targetID, hook).1;
    if response.Switched? {
      var h := if requested == "" then guard else requested;
      SwitchingKeeps(a, h, targetID.value, ImpersonatorMarker(guard, actorID, h == guard),
                     FindByID(users, h, targetID.value).value.passwordChangedAt);
    }
  }

  lemma StopKeeps(a: Attributes, guard: string, users: Users)
    ensures SameWishes(Stop(a, guard, users).0, a)
  {
    ForgettingKeeps(a, guard);
    if MarkerOf(a, guard).Some? {
      var m := MarkerOf(a, guard).value;
      var actor := FindByID(users, m.guard, m.user);
      StampingKeeps(a, guard, m.user, if actor.Some? then actor.value.passwordChangedAt else 0);
    }
  }

  lemma ActKeeps(site: Site, a: Attributes, guard: string, id: nat, users: Users, action: Action)
    requires guard in site
    ensures SameWishes(Act(site, a, guard, id, users, action).0, a)
    ensures !Act(site, a, guard, id, users, action).1.LoggedIn?
  {
    hide Put, Forget, Get;
    match action {
      case Me =>
      case LogoutAction => ForgettingKeeps(a, guard);
      case PasswordAction(changedAt) => if changedAt.Some? { StampingKeeps(a, guard, 0, changedAt.value); }
      case StartAction(requested, targetID, hook) => StartKeeps(site, a, guard, id, users, requested, targetID, hook);
      case StopAction => StopKeeps(a, guard, users);
    }
  }

  lemma GuardedKeeps(site: Site, a: Attributes, step: Step)
    requires step.guard in site && step.request.GuardedRequest?
    ensures SameWishes(Served(site, a, step), a)
    ensures !Answer(site, a, step).LoggedIn?
  {
    hide Put, Forget, Get, RememberLogin, Act, StampValid;
    var a1 := RememberLogin(site[step.guard], a, step.guard, step.users, step.request.cookie, step.token);
    RememberLoginKeeps(site[step.guard], a, step.guard, step.users, step.request.cookie, step.token);
    ForgettingKeeps(a1, step.guard);
    var (a2, id) := Authenticated(a1, step.guard, step.users);
    if id.Some? {
      ActKeeps(site, a2, step.guard, id.value, step.users, step.request.action);
    }
  }

  // ---------------------------------------------------------------- requests

  /** One request: a completed login on the guard forgets the wish, a password step that asked
      stashes it, nothing else touches it. */
  lemma StepEffect(site: Site, a: Attributes, step: Step, guard: string)
    requires step.guard in site
    ensures
      Stashed(Served(site, a, step), guard) <==>
        !Completes(site, a, step, guard) && (Asks(site, a, step, guard) || Stashed(a, guard))
  {
    var a := a;
    match step.request {
      case GuardedRequest(_, _, _) =>
        GuardedKeeps(site, a, step);
        hide Serve, Get;
      case LoginRequest(authenticated, remember) =>
        hide Get, Put, CompleteLogin;
        if authenticated.Some? && FindByID(step.users, step.guard, authenticated.value).Some? {
          var id := authenticated.value;
          CompletionForgets(site[step.guard], a, step.guard, id, FindByID(step.users, step.guard, id).value, step.token);
          PendingStashes(a, step.guard, id, remember);
        }
      case ChallengeRequest(code) =>
        hide Put, CompleteLogin;
        var pending := PendingUser(a, step.guard);
        if pending.Some? && FindByID(step.users, step.guard, pending.value).Some? {
          CompletionForgets(site[step.guard], a, step.guard, pending.value,
                            FindByID(step.users, step.guard, pending.value).value, step.token);
        }
    }
  }

  /** Step i of the run asked to be remembered and no login on the guard has completed since. */
  ghost predicate OpenWish(site: Site, steps: seq<Step>, guard: string, i: nat)
    requires Mountable(site, steps)
  {
    && i < |steps| && Asks(site, Run(site, NEW_SESSION, steps[..i]), steps[i], guard)
    && forall j :: i < j < |steps| ==> !Completes(site, Run(site, NEW_SESSION, steps[..j]), steps[j], guard)
  }

  /** Main result: over every run, the wish is stashed exactly if some password step since the last
      completed login on that guard asked for it; logouts, switches and other guards never count. */
  lemma {:induction false} WishByHistory(site: Site, steps: seq<Step>, guard: string)
    requires Mountable(site, steps)
    ensures Stashed(Run(site, NEW_SESSION, steps), guard) <==> exists i :: OpenWish(site, steps, guard, i)
  {
    hide Serve, Asks, Completes;
    if steps == [] {
      assert !Stashed(NEW_SESSION, guard);
    } else {
      var n := |steps| - 1;
      var front, step := steps[..n], steps[n];
      WishByHistory(site, front, guard);
      StepEffect(site, Run(site, NEW_SESSION, front), step, guard);
      hide Stashed;
      WishStep(site, steps, guard);
    }
  }

  lemma WishStep(site: Site, steps: seq<Step>, guard: string)
    requires Mountable(site, steps) && steps != []
    ensures
      var n := |steps| - 1;
      var a := Run(site, NEW_SESSION, steps[..n]);
      (exists i :: OpenWish(site, steps, guard, i)) <==>
        !Completes(site, a, steps[n], guard) && (Asks(site, a, steps[n], guard) || exists i :: OpenWish(site, steps[..n], guard, i))
  {
    hide Run, Asks, Completes, Mountable;
    var n := |steps| - 1;
    var front := steps[..n];
    MountablePrefix(site, steps, n);
    assert forall j :: 0 <= j <= n ==> front[..j] == steps[..j];
    if i: nat :| OpenWish(site, steps, guard, i) {
      AsksDoesNotComplete(site, Run(site, NEW_SESSION, steps[..n]), steps, n, guard);
      if i < n {
        assert OpenWish(site, front, guard, i);
      }
    }
    var a := Run(site, NEW_SESSION, steps[..n]);
    StepMounted(site, steps, n);
    if !Completes(site, a, steps[n], guard) {
      if Asks(site, a, steps[n], guard) {
        assert OpenWish(site, steps, guard, n);
      }
      if i: nat :| OpenWish(site, front, guard, i) {
        assert OpenWish(site, steps, guard, i);
      }
    }
  }

  lemma MountablePrefix(site: Site, steps: seq<Step>, n: nat)
    requires Mountable(site, steps) && n <= |steps|
    ensures Mountable(site, steps[..n])
  {
  }

  lemma StepMounted(site: Site, steps: seq<Step>, n: nat)
    requires Mountable(site, steps) && n < |steps|
    ensures steps[n].guard in site
  {
  }

  lemma AsksDoesNotComplete(site: Site, a: Attributes, steps: seq<Step>, n: nat, guard: string)
    requires Mountable(site, steps) && n < |steps|
    ensures Asks(site, a, steps[n], guard) ==> !Completes(site, a, steps[n], guard)
  {
  }

  /** Main result: a successful challenge issues the cookie exactly if the guard remembers logins and
      some password step since the last completed login asked, not necessarily the last one. */
  lemma ChallengeHonoursHistory(site: Site, before: seq<Step>, step: Step)
    requires Mountable(site, before) && step.guard in site && step.request.ChallengeRequest?
    requires Answer(site, Run(site, NEW_SESSION, before), step).LoggedIn?
    ensures Answer(site, Run(site, NEW_SESSION, before), step).rememberCookie <==>
      site[step.guard].remember && exists i :: OpenWish(site, before, step.guard, i)
  {
    WishByHistory(site, before, step.guard);
    hide Run, OpenWish, CompleteLogin;
  }

  /** A run in which the last password step did not ask and the challenge still issues the cookie:
      the earlier step's wish is not withdrawn. */
  lemma WishOutlivesItsLogin() returns (site: Site, steps: seq<Step>)
    ensures |steps| == 3 && Mountable(site, steps)
    ensures steps[0].request == LoginRequest(Some(1), true)
    ensures steps[1].request == LoginRequest(Some(2), false)
    ensures Answer(site, Run(site, NEW_SESSION, steps[..2]), steps[2]) == LoggedIn(2, true)
  {
    site := map["web" := GuardOptions(true, true, false, false, [], [], [])];
    var users: Users := map[("web", 1) := User("user", false, 0, true), ("web", 2) := User("user", false, 0, true)];
    var one := Step("web", users, "", LoginRequest(Some(1), true));
    var two := Step("web", users, "", LoginRequest(Some(2), false));
    var three := Step("web", users, "", ChallengeRequest(RightCode));
    steps := [one, two, three];
    assert steps[..2] == [one, two] && [one, two][..1] == [one] && [one][..0] == [];
    var a1 := Run(site, NEW_SESSION, [one]);
    PasswordStepStashes(site, NEW_SESSION, one, 1, true);
    var a2 := Run(site, NEW_SESSION, [one, two]);
    hide Serve;
    PasswordStepStashes(site, a1, two, 2, false);
    ChallengeEffect(site, a2, three, 2);
  }

  lemma PasswordStepStashes(site: Site, a: Attributes, step: Step, id: nat, remember: bool)
    requires step.guard in site && site[step.guard].twoFactor && step.request == LoginRequest(Some(id), remember)
    requires FindByID(step.users, step.guard, id).Some?
    requires FindByID(step.users, step.guard, id).value.twoFactorEnabled && !FindByID(step.users, step.guard, id).value.disabled
    ensures
      var a' := Served(site, a, step);
      PendingUser(a', step.guard) == Some(id) && (remember || Stashed(a, step.guard) ==> Stashed(a', step.guard))
  {
  }

  lemma ChallengeEffect(site: Site, a: Attributes, step: Step, id: nat)
    requires step.guard in site && step.request == ChallengeRequest(RightCode)
    requires PendingUser(a, step.guard) == Some(id) && FindByID(step.users, step.guard, id).Some?
    ensures Answer(site, a, step) == LoggedIn(id, site[step.guard].remember && Stashed(a, step.guard))
  {
  }
}
