/** What a sign-in is good for: which later requests the Authenticated middleware lets through, after
    a login, a remember cookie, a switch, a password change and a logout. */
module SignedIn {
  import opened OptionType
  import opened SessionKeys
  import opened Sessions
  import opened SessionSafety
  import opened SwitchAndBack

  /** The row still exists, is enabled, and its password has not changed since. */
  predicate StillGood(users: Users, guard: string, id: nat, changedAt: int) {
    var row := FindByID(users, guard, id);
    row.Some? && !row.value.disabled && row.value.passwordChangedAt == changedAt
  }

  /** The session is signed in as this user, with this stamp. */
  predicate Seated(a: Attributes, guard: string, id: nat, changedAt: int) {
    GuardUser(a, guard) == Some(id) && StampValid(a, guard, changedAt)
  }

  /** A seated user is let through exactly while the row he signed in with is still good; otherwise
      the guard is signed out. */
  lemma SeatedIsAccepted(a: Attributes, guard: string, id: nat, changedAt: int, users: Users)
    requires Seated(a, guard, id, changedAt)
    ensures
      var (a', admitted) := Authenticated(a, guard, users);
      && (StillGood(users, guard, id, changedAt) <==> admitted == Some(id))
      && (!StillGood(users, guard, id, changedAt) <==> admitted == None)
      && (FindByID(users, guard, id).Some? && admitted.None? ==> GuardUser(a', guard).None?)
  {
  }

  lemma CompletionSeats(o: GuardOptions, a: Attributes, guard: string, id: nat, user: User, token: string)
    ensures
      var a' := CompleteLogin(o, a, guard, id, user, token);
      && Seated(a', guard, id, user.passwordChangedAt)
      && (o.sessions ==> Get(a', SessionTrackingToken, guard) == Some(Token(token)))
  {
    hide Put, Forget, Get;
    var a1 := Put(a, GuardID, guard, UserID(id));
    var a2 := Put(a1, PasswordChangedAt, guard, Stamp(user.passwordChangedAt));
    var a3 := Forget(a2, TwoFactorUserID, guard);
    var a4 := Forget(a3, RememberIntent, guard);
    PutEffect(a, GuardID, guard, UserID(id));
    PutEffect(a1, PasswordChangedAt, guard, Stamp(user.passwordChangedAt));
    ForgetEffect(a2, TwoFactorUserID, guard);
    ForgetEffect(a3, RememberIntent, guard);
    PutEffect(a4, SessionTrackingToken, guard, Token(token));
  }

  lemma SwitchSeats(a: Attributes, guard: string, id: nat, marker: ImpersonatorMarker, changedAt: int)
    ensures
      var a1 := Put(Put(a, GuardID, guard, UserID(id)), Impersonator, guard, Marker(marker));
      Seated(Put(a1, PasswordChangedAt, guard, Stamp(changedAt)), guard, id, changedAt)
  {
  }

  // ---------------------------------------------------------------- over runs

  /** The request takes the seat away from its user without anybody asking for it: his row is there
      but disabled or changed, or the row of his tracked session is gone. */
  predicate Ends(site: Site, a: Attributes, step: Step, g: string, id: nat, changedAt: int) {
    && step.guard == g && g in site && step.request.GuardedRequest? && FindByID(step.users, g, id).Some?
    && (!StillGood(step.users, g, id, changedAt)
        || (site[g].sessions && !step.request.alive && Get(a, SessionTrackingToken, g).Some?))
  }

  /** The request gives the guard another user or stamp: a completed login, a cookie on an empty guard,
      a logout, an accepted password change, a switch onto the guard or back. */
  predicate Replaces(site: Site, a: Attributes, step: Step, g: string)
    requires step.guard in site
  {
    || (step.guard == g && Answer(site, a, step).LoggedIn?)
    || (step.guard == g && step.request.GuardedRequest?
        && (|| (step.request.cookie.GoodCookie? && GuardUser(a, g).None?)
            || step.request.action.LogoutAction?
            || (step.request.action.PasswordAction? && step.request.action.changedAt.Some?)
            || (step.request.action.StopAction? && MarkerOf(a, g).Some?)))
    || (step.request.GuardedRequest? && step.request.action.StartAction? && Answer(site, a, step).Switched?
        && g == if step.request.action.requested == "" then step.guard else step.request.action.requested)
  }

  ghost predicate Undisturbed(site: Site, a: Attributes, steps: seq<Step>, g: string)
    requires Mountable(site, steps)
  {
    forall k :: 0 <= k < |steps| ==> !Replaces(site, Run(site, a, steps[..k]), steps[k], g)
  }

  ghost predicate SomeStepEnds(site: Site, a: Attributes, steps: seq<Step>, g: string, id: nat, changedAt: int) {
    exists k :: 0 <= k < |steps| && Ends(site, Run(site, a, steps[..k]), steps[k], g, id, changedAt)
  }

  predicate SameSeat(a: Attributes, b: Attributes, g: string) {
    && GuardUser(a, g) == GuardUser(b, g) && Get(a, PasswordChangedAt, g) == Get(b, PasswordChangedAt, g)
    && Get(a, SessionTrackingToken, g) == Get(b, SessionTrackingToken, g)
  }

  /** A request of another guard that does not switch onto this one. */
  lemma ElsewhereKeeps(site: Site, a: Attributes, step: Step, g: string)
    requires step.guard in site && g != step.guard && !Replaces(site, a, step, g)
    ensures SameSeat(Served(site, a, step), a, g)
  {
    if g in Concerned(step) {
      GuardedServes(site, a, step);
      var (a1, id) := Admitted(site, a, step);
      AdmittedInside(site, a, step, {step.guard});
      SameOutsideSame(a1, a, {step.guard}, GuardID, g);
      SameOutsideSame(a1, a, {step.guard}, PasswordChangedAt, g);
      SameOutsideSame(a1, a, {step.guard}, SessionTrackingToken, g);
      hide Served, Answer, Admitted, Start, SameOutside;
      if id.Some? {
        StartEffect(site, a1, step.guard, id.value, step.users, step.request.action.requested, step.request.action.targetID,
                    step.request.action.hook);
      }
    } else {
      OthersUntouched(site, a, step);
      hide Served, Answer, SameOutside;
    }
  }

  /** A login or challenge that does not complete. */
  lemma UnfinishedKeeps(site: Site, a: Attributes, step: Step)
    requires step.guard in site && !step.request.GuardedRequest? && !Answer(site, a, step).LoggedIn?
    ensures SameSeat(Served(site, a, step), a, step.guard)
  {
  }

  lemma EmptyIsNotAdmitted(site: Site, a: Attributes, step: Step)
    requires step.guard in site && step.request.GuardedRequest?
    requires GuardUser(a, step.guard).None? && !step.request.cookie.GoodCookie?
    ensures Served(site, a, step) == a
  {
  }

  /** A guarded request of a seated user gets through exactly if it does not end the seat and his row
      is there; where the row is missing it is refused and changes nothing. */
  lemma SeatedIsAdmittedOrEnds(site: Site, a: Attributes, step: Step, id: nat, changedAt: int)
    requires step.guard in site && step.request.GuardedRequest? && Seated(a, step.guard, id, changedAt)
    ensures
      var (a1, admitted) := Admitted(site, a, step);
      if Ends(site, a, step, step.guard, id, changedAt) then admitted.None? && GuardUser(a1, step.guard).None?
      else a1 == a && admitted == if FindByID(step.users, step.guard, id).Some? then Some(id) else None
  {
  }

  lemma AdmittedKeeps(site: Site, a: Attributes, step: Step, id: nat)
    requires step.guard in site && step.request.GuardedRequest? && !Replaces(site, a, step, step.guard)
    requires Admitted(site, a, step) == (a, Some(id))
    ensures SameSeat(Served(site, a, step), a, step.guard)
  {
    GuardedServes(site, a, step);
    var guard := step.guard;
    StopEffect(a, guard, step.users);
    hide Served, Answer, Admitted, Start, Stop, GuardUser, MarkerOf;
    match step.request.action {
      case StartAction(requested, targetID, hook) =>
        StartEffect(site, a, guard, id, step.users, requested, targetID, hook);
      case _ =>
    }
  }

  lemma SeatStep(site: Site, a: Attributes, step: Step, g: string, id: nat, changedAt: int)
    requires step.guard in site && !Replaces(site, a, step, g)
    ensures GuardUser(a, g).None? ==> GuardUser(Served(site, a, step), g).None?
    ensures Seated(a, g, id, changedAt) ==>
      if Ends(site, a, step, g, id, changedAt) then GuardUser(Served(site, a, step), g).None?
      else Seated(Served(site, a, step), g, id, changedAt)
           && Get(Served(site, a, step), SessionTrackingToken, g) == Get(a, SessionTrackingToken, g)
  {
    if g != step.guard {
      ElsewhereKeeps(site, a, step, g);
      hide Served, Answer;
    } else if !step.request.GuardedRequest? {
      UnfinishedKeeps(site, a, step);
      hide Served, Answer;
    } else if GuardUser(a, g).None? {
      EmptyIsNotAdmitted(site, a, step);
    } else if Seated(a, g, id, changedAt) {
      SeatedIsAdmittedOrEnds(site, a, step, id, changedAt);
      GuardedServes(site, a, step);
      hide Served, Answer, Admitted;
      if Admitted(site, a, step).1.Some? {
        AdmittedKeeps(site, a, step, id);
      }
    }
  }

  /** Through every undisturbed run the seat stays as it is until some step ends it. */
  lemma {:induction false} SeatLasts(site: Site, a: Attributes, steps: seq<Step>, g: string, id: nat, changedAt: int)
    requires Mountable(site, steps) && Seated(a, g, id, changedAt) && Undisturbed(site, a, steps, g)
    ensures
      if SomeStepEnds(site, a, steps, g, id, changedAt) then GuardUser(Run(site, a, steps), g).None?
      else Seated(Run(site, a, steps), g, id, changedAt)
           && Get(Run(site, a, steps), SessionTrackingToken, g) == Get(a, SessionTrackingToken, g)
  {
    hide Served, Get, Seated, GuardUser, Ends, Replaces;
    if steps != [] {
      var n := |steps| - 1;
      var front := steps[..n];
      assert forall k :: 0 <= k <= n ==> front[..k] == steps[..k];
      assert Run(site, a, steps) == Served(site, Run(site, a, front), steps[n]);
      SeatLasts(site, a, front, g, id, changedAt);
      SeatStep(site, Run(site, a, front), steps[n], g, id, changedAt);
      hide Run;
      EndsStep(site, a, steps, g, id, changedAt);
    }
  }

  /** Main result: a terminated session is out. Once a request of the guard finds the row of a tracked
      seat's session gone, the guard is empty from then on, through every undisturbed run. */
  lemma TerminatedIsOut(site: Site, a: Attributes, steps: seq<Step>, g: string, id: nat, changedAt: int, k: nat)
    requires Mountable(site, steps) && Seated(a, g, id, changedAt) && Undisturbed(site, a, steps, g)
    requires g in site && site[g].sessions && Get(a, SessionTrackingToken, g).Some?
    requires k < |steps| && steps[k].guard == g && steps[k].request.GuardedRequest? && !steps[k].request.alive
    requires FindByID(steps[k].users, g, id).Some?
    ensures GuardUser(Run(site, a, steps), g).None?
  {
    hide Run, Seated, GuardUser, Get, Replaces;
    SeatLasts(site, a, steps, g, id, changedAt);
    var front := steps[..k];
    assert forall j :: 0 <= j <= k ==> front[..j] == steps[..j];
    SeatLasts(site, a, front, g, id, changedAt);
    if SomeStepEnds(site, a, front, g, id, changedAt) {
      var j :| 0 <= j < |front| && Ends(site, Run(site, a, front[..j]), front[j], g, id, changedAt);
      assert Ends(site, Run(site, a, steps[..j]), steps[j], g, id, changedAt);
    } else {
      assert Ends(site, Run(site, a, steps[..k]), steps[k], g, id, changedAt);
    }
  }

  lemma EndsStep(site: Site, a: Attributes, steps: seq<Step>, g: string, id: nat, changedAt: int)
    requires steps != []
    ensures
      var n := |steps| - 1;
      SomeStepEnds(site, a, steps, g, id, changedAt) <==>
        SomeStepEnds(site, a, steps[..n], g, id, changedAt) || Ends(site, Run(site, a, steps[..n]), steps[n], g, id, changedAt)
  {
    hide Run, Ends;
    var n := |steps| - 1;
    var front := steps[..n];
    assert forall k :: 0 <= k <= n ==> front[..k] == steps[..k];
    if SomeStepEnds(site, a, front, g, id, changedAt) {
      var k :| 0 <= k < |front| && Ends(site, Run(site, a, front[..k]), front[k], g, id, changedAt);
      assert Ends(site, Run(site, a, steps[..k]), steps[k], g, id, changedAt);
    }
  }

  /** Whom the guard serves after an undisturbed run, given the users table of the next request. */
  function ServedUser(site: Site, a: Attributes, steps: seq<Step>, g: string, users: Users): Option<nat> {
    Authenticated(Run(site, a, steps), g, users).1
  }

  lemma SeatIsServed(site: Site, a: Attributes, steps: seq<Step>, g: string, id: nat, changedAt: int, users: Users)
    requires Mountable(site, steps) && Seated(a, g, id, changedAt) && Undisturbed(site, a, steps, g)
    ensures ServedUser(site, a, steps, g, users) ==
      if !SomeStepEnds(site, a, steps, g, id, changedAt) && StillGood(users, g, id, changedAt) then Some(id) else None
  {
    SeatLasts(site, a, steps, g, id, changedAt);
    if !SomeStepEnds(site, a, steps, g, id, changedAt) {
      SeatedIsAccepted(Run(site, a, steps), g, id, changedAt, users);
    }
    hide Run, SomeStepEnds, Undisturbed;
  }

  /** Main result: from a completed login, with or without a challenge, through every undisturbed run
      (requests to other guards are free), the guard serves that user exactly while no request has
      found his row disabled or changed or his tracked session gone, and his row is as it was at the
      login. */
  lemma LoginIsAccepted(site: Site, a: Attributes, step: Step, between: seq<Step>, users: Users)
    requires step.guard in site && !step.request.GuardedRequest? && Answer(site, a, step).LoggedIn?
    requires Mountable(site, between) && Undisturbed(site, Served(site, a, step), between, step.guard)
    ensures
      var id := Answer(site, a, step).user;
      var row := FindByID(step.users, step.guard, id);
      && row.Some?
      && (site[step.guard].sessions ==> Get(Served(site, a, step), SessionTrackingToken, step.guard) == Some(Token(step.token)))
      && var changedAt := row.value.passwordChangedAt;
         ServedUser(site, Served(site, a, step), between, step.guard, users) ==
           if !SomeStepEnds(site, Served(site, a, step), between, step.guard, id, changedAt)
              && StillGood(users, step.guard, id, changedAt) then Some(id) else None
  {
    var id := Answer(site, a, step).user;
    var user := FindByID(step.users, step.guard, id).value;
    CompletionSeats(site[step.guard], a, step.guard, id, user, step.token);
    assert Served(site, a, step) == CompleteLogin(site[step.guard], a, step.guard, id, user, step.token);
    hide CompleteLogin, Seated, Run, SomeStepEnds, Undisturbed, ServedUser;
    SeatIsServed(site, Served(site, a, step), between, step.guard, id, user.passwordChangedAt, users);
  }

  /** Main result: from a switch, through every undisturbed run, the target's guard serves the target
      exactly as long, by the row he had at the switch. */
  lemma SwitchIsAccepted(site: Site, a: Attributes, step: Step, between: seq<Step>, users: Users)
    requires step.guard in site && step.request.GuardedRequest? && step.request.action.StartAction?
    requires Answer(site, a, step).Switched?
    requires
      var h := if step.request.action.requested == "" then step.guard else step.request.action.requested;
      Mountable(site, between) && Undisturbed(site, Served(site, a, step), between, h)
    ensures
      var h := if step.request.action.requested == "" then step.guard else step.request.action.requested;
      var target := step.request.action.targetID;
      && target.Some? && FindByID(step.users, h, target.value).Some?
      && var changedAt := FindByID(step.users, h, target.value).value.passwordChangedAt;
         ServedUser(site, Served(site, a, step), between, h, users) ==
           if !SomeStepEnds(site, Served(site, a, step), between, h, target.value, changedAt)
              && StillGood(users, h, target.value, changedAt) then target else None
  {
    var action := step.request.action;
    var h := if action.requested == "" then step.guard else action.requested;
    var (a1, actor) := Admitted(site, a, step);
    GuardedServes(site, a, step);
    hide Admitted, Served, Answer, Run, SomeStepEnds, Undisturbed, ServedUser;
    var changedAt := FindByID(step.users, h, action.targetID.value).value.passwordChangedAt;
    SwitchSeats(a1, h, action.targetID.value, ImpersonatorMarker(step.guard, actor.value, h == step.guard), changedAt);
    hide Seated, GuardUser, Put;
    SeatIsServed(site, Served(site, a, step), between, h, action.targetID.value, changedAt, users);
  }

  /** A good remember cookie on an empty guard is let through at once exactly if its user
      exists and is enabled, and otherwise leaves the guard empty. */
  lemma CookieIsAccepted(o: GuardOptions, a: Attributes, guard: string, users: Users, id: nat, token: string)
    requires o.remember && GuardUser(a, guard).None?
    ensures
      var a' := RememberLogin(o, a, guard, users, GoodCookie(id), token);
      var row := FindByID(users, guard, id);
      && Authenticated(a', guard, users).1 == (if row.Some? && !row.value.disabled then Some(id) else None)
      && (row.None? || row.value.disabled ==> GuardUser(a', guard).None?)
  {
  }

  /** After a logout nobody is let through on the guard, and its tracking token is gone. */
  lemma LogoutEnds(a: Attributes, guard: string, users: Users)
    ensures
      var a' := Logout(a, guard).0;
      && Authenticated(a', guard, users).1.None?
      && Get(a', PasswordChangedAt, guard).None? && Get(a', SessionTrackingToken, guard).None?
  {
  }

  /** A password change keeps this session: it is let through as before exactly while the row holds
      the instant the service read back. */
  lemma ChangerIsAccepted(o: GuardOptions, a: Attributes, guard: string, id: nat, changedAt: int, users: Users)
    requires GuardUser(a, guard) == Some(id)
    requires ChangePassword(o, a, guard, Some(changedAt)).1 == Done
    ensures
      var a' := ChangePassword(o, a, guard, Some(changedAt)).0;
      Authenticated(a', guard, users).1 == if StillGood(users, guard, id, changedAt) then Some(id) else None
  {
  }
}
