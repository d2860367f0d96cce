/** What a sign-out ends and what it does not. The marker of a switch survives it
    (http/controllers/auth.go, http/controllers/impersonation.go), so one thing one would expect of
    a session does not hold of every run: that the user on a guard which is not switched has proved
    who he is since that guard's last sign-out. */
module SignOuts {
  import opened OptionType
  import opened SessionKeys
  import opened Sessions
  import opened SessionSafety
  import opened SignedIn

  /** The request takes the guard's user away and leaves nobody: a logout, a stale or disabled row, a
      terminated session, or a Stop without an actor to restore. */
  ghost predicate SignsOut(site: Site, a: Attributes, step: Step, g: string)
    requires step.guard in site
  {
    GuardUser(a, g).Some? && GuardUser(Served(site, a, step), g).None?
  }

  /** The guard carries the marker of a switch that started on it. */
  predicate SwitchedAtHome(a: Attributes, g: string) {
    MarkerOf(a, g).Some? && MarkerOf(a, g).value.sameGuard
  }

  /** Some step proves the user, and the guard has not been signed out from then on. */
  ghost predicate ProvedSince(site: Site, steps: seq<Step>, g: string, user: nat)
    requires Mountable(site, steps)
  {
    exists j :: ProvedAndStayed(site, steps, g, user, j)
  }

  ghost predicate ProvedAndStayed(site: Site, steps: seq<Step>, g: string, user: nat, j: nat)
    requires Mountable(site, steps)
  {
    && ProvedAt(site, steps, g, user, j)
    && forall k :: j <= k < |steps| ==> !SignsOut(site, Run(site, NEW_SESSION, steps[..k]), steps[k], g)
  }

  /** The expectation. */
  ghost predicate FreshlyProved(site: Site, steps: seq<Step>, g: string)
    requires Mountable(site, steps)
  {
    var a := Run(site, NEW_SESSION, steps);
    MarkerOf(a, g).None? && GuardUser(a, g).Some? ==> ProvedSince(site, steps, g, GuardUser(a, g).value)
  }

  /** Every sign-out of the guard from step n on leaves it without the marker of a switch at home. */
  ghost predicate CleanSignOuts(site: Site, steps: seq<Step>, n: nat, g: string)
    requires Mountable(site, steps)
  {
    forall k :: n <= k < |steps| && SignsOut(site, Run(site, NEW_SESSION, steps[..k]), steps[k], g) ==>
      !SwitchedAtHome(Run(site, NEW_SESSION, steps[..k + 1]), g)
  }

  // ---------------------------------------------------------------- when it holds

  lemma ProvedSinceStays(site: Site, steps: seq<Step>, g: string, user: nat)
    requires Mountable(site, steps) && steps != []
    requires
      var n := |steps| - 1;
      ProvedSince(site, steps[..n], g, user) && !SignsOut(site, Run(site, NEW_SESSION, steps[..n]), steps[n], g)
    ensures ProvedSince(site, steps, g, user)
  {
    hide SignsOut, ProvedAt, Run;
    var n := |steps| - 1;
    var j :| ProvedAndStayed(site, steps[..n], g, user, j);
    ProvedStays(site, steps, n, g, user, j);
    assert forall k :: 0 <= k <= n ==> steps[..n][..k] == steps[..k];
    assert ProvedAndStayed(site, steps, g, user, j) by {
      JustBefore(site, steps[..n], g, user, j);
    }
  }

  lemma JustBefore(site: Site, steps: seq<Step>, g: string, user: nat, j: nat)
    requires ProvedAt(site, steps, g, user, j)
    ensures j < |steps|
  {
  }

  lemma JustProved(site: Site, steps: seq<Step>, user: nat)
    requires Mountable(site, steps) && steps != []
    requires
      var front, step := steps[..|steps| - 1], steps[|steps| - 1];
      && Proves(site, Run(site, NEW_SESSION, front), step, user)
      && !SignsOut(site, Run(site, NEW_SESSION, front), step, step.guard)
    ensures ProvedSince(site, steps, steps[|steps| - 1].guard, user)
  {
    hide Proves, SignsOut, ProvedAt, Run;
    ProvesIsProved(site, steps, user);
    assert ProvedAndStayed(site, steps, steps[|steps| - 1].guard, user, |steps| - 1);
  }

  /** The seat as the expectation needs it: the user of a guard that is not switched, and the actor of
      one that is switched at home, have proved themselves since the last sign-out. */
  ghost predicate FreshSeat(site: Site, steps: seq<Step>, g: string)
    requires Mountable(site, steps)
  {
    var a := Run(site, NEW_SESSION, steps);
    && FreshlyProved(site, steps, g)
    && (SwitchedAtHome(a, g) ==> ProvedSince(site, steps, g, MarkerOf(a, g).value.user))
  }

  lemma SeatStaysFresh(site: Site, steps: seq<Step>, g: string)
    requires Mountable(site, steps) && steps != [] && FreshSeat(site, steps[..|steps| - 1], g)
    requires
      var n := |steps| - 1;
      SignsOut(site, Run(site, NEW_SESSION, steps[..n]), steps[n], g) ==> !SwitchedAtHome(Run(site, NEW_SESSION, steps), g)
    ensures FreshSeat(site, steps, g)
  {
    var n := |steps| - 1;
    var front, step := steps[..n], steps[n];
    var a, a' := Run(site, NEW_SESSION, front), Run(site, NEW_SESSION, steps);
    ServeMoves(site, a, step, g);
    assert a' == Served(site, a, step);
    hide Run, Served, GuardUser, MarkerOf, Proves, ProvedSince, Mountable;
    if SignsOut(site, a, step, g) {
    } else {
      forall u | ProvedSince(site, front, g, u) ensures ProvedSince(site, steps, g, u) {
        ProvedSinceStays(site, steps, g, u);
      }
      if g == step.guard {
        forall u | Proves(site, a, step, u) ensures ProvedSince(site, steps, g, u) {
          JustProved(site, steps, u);
        }
      }
    }
  }

  /** A guard nobody is on, and which is not switched at home, starts afresh. */
  lemma EmptySeatIsFresh(site: Site, steps: seq<Step>, g: string)
    requires Mountable(site, steps)
    requires GuardUser(Run(site, NEW_SESSION, steps), g).None? && !SwitchedAtHome(Run(site, NEW_SESSION, steps), g)
    ensures FreshSeat(site, steps, g)
  {
  }

  lemma {:induction false} FreshWhileClean(site: Site, steps: seq<Step>, n: nat, g: string)
    requires Mountable(site, steps) && n <= |steps|
    requires Mountable(site, steps[..n]) && FreshSeat(site, steps[..n], g) && CleanSignOuts(site, steps, n, g)
    ensures FreshSeat(site, steps, g)
    decreases |steps| - n, |steps|
  {
    hide FreshSeat, SignsOut, SwitchedAtHome, Run;
    if n == |steps| {
      assert steps[..n] == steps;
    } else {
      var m := |steps| - 1;
      assert forall k :: 0 <= k <= m ==> steps[..m][..k] == steps[..k];
      assert steps[..m + 1] == steps;
      FreshWhileClean(site, steps[..m], n, g);
      SeatStaysFresh(site, steps, g);
    }
  }

  /** Main result: while no sign-out of a guard leaves it switched at home, the user on it has proved
      who he is since its last sign-out, in every reachable session in which it is not switched. */
  lemma CleanRunsAreFresh(site: Site, steps: seq<Step>, g: string)
    requires Mountable(site, steps) && CleanSignOuts(site, steps, 0, g)
    ensures FreshlyProved(site, steps, g)
  {
    assert steps[..0] == [];
    assert Get(NEW_SESSION, GuardID, g).None? && Get(NEW_SESSION, Impersonator, g).None?;
    EmptySeatIsFresh(site, [], g);
    FreshWhileClean(site, steps, 0, g);
  }

  // ---------------------------------------------------------------- when it fails

  /** The request of an ordinary login of a user without a second factor. */
  function PlainLogin(g: string, user: nat, actor: ImpersonatorMarker): Step {
    Step(g, Both(g, user, actor), "", LoginRequest(Some(user), false))
  }

  function StopAfter(g: string, user: nat, actor: ImpersonatorMarker): Step {
    Step(g, Both(g, user, actor), "", GuardedRequest(NoCookie, true, StopAction))
  }

  function Both(g: string, user: nat, actor: ImpersonatorMarker): Users {
    map[(actor.guard, actor.user) := User("", false, 0, false), (g, user) := User("", false, 0, false)]
  }

  lemma LoginOnSwitched(site: Site, a: Attributes, g: string, user: nat)
    requires g in site && SwitchedAtHome(a, g) && GuardUser(a, g).None?
    ensures
      var step := PlainLogin(g, user, MarkerOf(a, g).value);
      && Answer(site, a, step).LoggedIn? && Seated(Served(site, a, step), g, user, 0)
      && MarkerOf(Served(site, a, step), g) == MarkerOf(a, g)
  {
    var row := User("", false, 0, false);
    CompletionSeats(site[g], a, g, user, row, "");
    CompleteLoginEffect(site[g], a, g, user, row, "");
    hide CompleteLogin, Seated, GuardUser, MarkerOf;
  }

  lemma StopOnSwitched(site: Site, a: Attributes, g: string, user: nat)
    requires g in site && SwitchedAtHome(a, g) && Seated(a, g, user, 0) && user != MarkerOf(a, g).value.user
    ensures
      var step := StopAfter(g, user, MarkerOf(a, g).value);
      MarkerOf(Served(site, a, step), g).None? && GuardUser(Served(site, a, step), g) == Some(MarkerOf(a, g).value.user)
  {
  }

  /** An ordinary login of somebody else on a guard that was signed out while switched at home is
      refused what switched sessions are, and its Stop signs the old actor in. */
  lemma OldActorSeated(site: Site, a: Attributes, g: string, user: nat)
    requires g in site && SwitchedAtHome(a, g) && GuardUser(a, g).None? && user != MarkerOf(a, g).value.user
    ensures
      var m := MarkerOf(a, g).value;
      var login, stop := PlainLogin(g, user, m), StopAfter(g, user, m);
      var a1 := Served(site, a, login);
      var a2 := Served(site, a1, stop);
      && Answer(site, a, login).LoggedIn? && GuardUser(a1, g) == Some(user)
      && (!site[g].allowSensitiveActions ==> forall c :: ChangePassword(site[g], a1, g, c).1 == Forbidden)
      && MarkerOf(a2, g).None? && GuardUser(a2, g) == Some(m.user)
  {
    LoginOnSwitched(site, a, g, user);
    StopOnSwitched(site, Served(site, a, PlainLogin(g, user, MarkerOf(a, g).value)), g, user);
    hide Served, Answer, MarkerOf, GuardUser;
  }

  /** Main result: the input that shows it. After every sign-out that leaves the guard switched at
      home, an ordinary login of somebody else and his Stop sign the old actor in, who has proved
      nothing since. */
  lemma OldActorReturns(site: Site, steps: seq<Step>, g: string, user: nat)
    requires Mountable(site, steps) && steps != [] && g in site
    requires
      var n := |steps| - 1;
      SignsOut(site, Run(site, NEW_SESSION, steps[..n]), steps[n], g) && SwitchedAtHome(Run(site, NEW_SESSION, steps), g)
    requires user != MarkerOf(Run(site, NEW_SESSION, steps), g).value.user
    ensures
      var m := MarkerOf(Run(site, NEW_SESSION, steps), g).value;
      var all := steps + [PlainLogin(g, user, m), StopAfter(g, user, m)];
      && Mountable(site, all) && CleanSignOuts(site, all, |steps|, g)
      && GuardUser(Run(site, NEW_SESSION, all), g) == Some(m.user) && !FreshlyProved(site, all, g)
  {
    var n := |steps|;
    var a := Run(site, NEW_SESSION, steps);
    var m := MarkerOf(a, g).value;
    var login, stop := PlainLogin(g, user, m), StopAfter(g, user, m);
    var all := steps + [login, stop];
    OldActorSeated(site, a, g, user);
    assert all[..n] == steps && all[..n - 1] == steps[..n - 1] && all[..n + 1] == steps + [login] && all[..n + 2] == all;
    assert Mountable(site, all);
    RunOneMore(site, steps, login);
    RunOneMore(site, steps + [login], stop);
    assert steps + [login] + [stop] == all;
    assert all[n] == login && all[n + 1] == stop;
    hide Run, Served, Answer, MarkerOf, GuardUser, PlainLogin, StopAfter, Mountable, SignsOut, ProvedSince;
    NotProvedSince(site, all, n, g, user, m);
  }

  lemma NotProvedSince(site: Site, all: seq<Step>, n: nat, g: string, user: nat, m: ImpersonatorMarker)
    requires Mountable(site, all) && |all| == n + 2 && n > 0
    requires SignsOut(site, Run(site, NEW_SESSION, all[..n - 1]), all[n - 1], g)
    requires all[n] == PlainLogin(g, user, m) && all[n + 1] == StopAfter(g, user, m) && user != m.user
    ensures !ProvedSince(site, all, g, m.user)
  {
    hide Run, SignsOut, PlainLogin, StopAfter, ProvedAt;
    forall j: nat ensures !ProvedAndStayed(site, all, g, m.user, j) {
      if j >= n {
        NotProvedLater(site, all, n, g, user, m, j);
      }
    }
  }

  lemma RunOneMore(site: Site, steps: seq<Step>, step: Step)
    requires step.guard in site
    ensures Run(site, NEW_SESSION, steps + [step]) == Served(site, Run(site, NEW_SESSION, steps), step)
  {
  }

  lemma NotProvedLater(site: Site, all: seq<Step>, n: nat, g: string, user: nat, m: ImpersonatorMarker, j: nat)
    requires |all| == n + 2 && all[n] == PlainLogin(g, user, m) && all[n + 1] == StopAfter(g, user, m)
    requires user != m.user && n <= j
    ensures !ProvedAt(site, all, g, m.user, j)
  {
  }

  /** Such a sign-out happens: somebody signs in, switches to another user of his guard, and logs out. */
  lemma SwitchedLogoutHappens() returns (site: Site, steps: seq<Step>)
    ensures Mountable(site, steps) && |steps| == 3 && "web" in site
    ensures steps[2].request.GuardedRequest? && steps[2].request.action == LogoutAction
    ensures SignsOut(site, Run(site, NEW_SESSION, steps[..2]), steps[2], "web")
    ensures SwitchedAtHome(Run(site, NEW_SESSION, steps), "web")
  {
    site := map["web" := GuardOptions(false, false, false, false, [], ["web"], [])];
    var row := User("", false, 0, false);
    var users: Users := map[("web", 1) := row, ("web", 2) := row];
    var login := Step("web", users, "", LoginRequest(Some(1), false));
    var start := Step("web", users, "", GuardedRequest(NoCookie, true, StartAction("", Some(2), NoHook)));
    var logout := Step("web", users, "", GuardedRequest(NoCookie, true, LogoutAction));
    steps := [login, start, logout];
    var a1 := Served(site, NEW_SESSION, login);
    LoginSeats(site, NEW_SESSION, login, 1, row);
    assert Get(NEW_SESSION, Impersonator, "web").None?;
    var a2 := Served(site, a1, start);
    StartSeats(site, a1, start, 1, 2, row);
    LogoutUnseats(site, a2, logout, 2, row);
    RunOneMore(site, [], login);
    RunOneMore(site, [login], start);
    RunOneMore(site, [login, start], logout);
    assert [] + [login] == [login] && [login] + [start] == [login, start] && [login, start] + [logout] == steps;
    assert steps[..2] == [login, start];
    hide Run, Served, GuardUser, MarkerOf;
  }

  lemma LoginSeats(site: Site, a: Attributes, step: Step, id: nat, row: User)
    requires step.guard in site && step.request == LoginRequest(Some(id), false)
    requires FindByID(step.users, step.guard, id) == Some(row) && !row.disabled && !row.twoFactorEnabled
    ensures Seated(Served(site, a, step), step.guard, id, row.passwordChangedAt)
    ensures MarkerOf(Served(site, a, step), step.guard) == MarkerOf(a, step.guard)
  {
    CompletionSeats(site[step.guard], a, step.guard, id, row, step.token);
    CompleteLoginEffect(site[step.guard], a, step.guard, id, row, step.token);
    hide CompleteLogin, Seated, MarkerOf;
  }

  lemma StartSeats(site: Site, a: Attributes, step: Step, actor: nat, target: nat, row: User)
    requires step.guard in site && site[step.guard].targetGuards == [step.guard]
    requires site[step.guard].roles == [] && site[step.guard].protectedRoles == []
    requires step.request.GuardedRequest? && step.request.alive && step.request.action == StartAction("", Some(target), NoHook)
    requires FindByID(step.users, step.guard, actor) == FindByID(step.users, step.guard, target) == Some(row)
    requires !row.disabled && actor != target
    requires Seated(a, step.guard, actor, row.passwordChangedAt) && MarkerOf(a, step.guard).None?
    ensures
      var a' := Served(site, a, step);
      Seated(a', step.guard, target, row.passwordChangedAt) && SwitchedAtHome(a', step.guard)
  {
  }

  lemma LogoutUnseats(site: Site, a: Attributes, step: Step, id: nat, row: User)
    requires step.guard in site
    requires step.request.GuardedRequest? && step.request.alive && step.request.action == LogoutAction
    requires FindByID(step.users, step.guard, id) == Some(row) && !row.disabled
    requires Seated(a, step.guard, id, row.passwordChangedAt)
    ensures SignsOut(site, a, step, step.guard) && MarkerOf(Served(site, a, step), step.guard) == MarkerOf(a, step.guard)
  {
  }

  /** Main result: exactly when a sign-out is good for everything after it. Whatever came before, the
      expectation holds after every continuation whose own sign-outs are clean if and only if this
      sign-out leaves the guard without the marker of a switch at home. */
  lemma GoodSignOutIffNotSwitched(site: Site, steps: seq<Step>, g: string)
    requires Mountable(site, steps) && steps != [] && g in site
    requires SignsOut(site, Run(site, NEW_SESSION, steps[..|steps| - 1]), steps[|steps| - 1], g)
    ensures GoodForever(site, steps, g) <==> !SwitchedAtHome(Run(site, NEW_SESSION, steps), g)
  {
    var a := Run(site, NEW_SESSION, steps);
    if SwitchedAtHome(a, g) {
      OldActorReturns(site, steps, g, MarkerOf(a, g).value.user + 1);
    } else {
      assert GuardUser(a, g).None?;
      EmptySeatIsFresh(site, steps, g);
      hide Run, FreshSeat, SignsOut, SwitchedAtHome;
      forall more | Mountable(site, steps + more) && CleanSignOuts(site, steps + more, |steps|, g)
        ensures FreshSeat(site, steps + more, g)
      {
        assert (steps + more)[..|steps|] == steps;
        FreshWhileClean(site, steps + more, |steps|, g);
      }
      FreshSeatsAreFresh(site, steps, g);
    }
  }

  ghost predicate GoodForever(site: Site, steps: seq<Step>, g: string) {
    forall more: seq<Step> :: Mountable(site, steps + more) && CleanSignOuts(site, steps + more, |steps|, g) ==>
      FreshlyProved(site, steps + more, g)
  }

  lemma FreshSeatsAreFresh(site: Site, steps: seq<Step>, g: string)
    requires forall more: seq<Step> :: Mountable(site, steps + more) && CleanSignOuts(site, steps + more, |steps|, g) ==>
      FreshSeat(site, steps + more, g)
    ensures GoodForever(site, steps, g)
  {
  }

  /** An ordinary login is taken for a switched session exactly if its guard carries a marker. */
  lemma LoginTakenForSwitch(site: Site, a: Attributes, step: Step, changedAt: Option<int>)
    requires step.guard in site && Answer(site, a, step).LoggedIn?
    ensures ChangePassword(site[step.guard], Served(site, a, step), step.guard, changedAt).1 == Forbidden <==>
      !site[step.guard].allowSensitiveActions && MarkerOf(a, step.guard).Some?
  {
    LoginKeepsMarker(site, a, step);
    hide Served, Answer, MarkerOf;
  }

  lemma LoginKeepsMarker(site: Site, a: Attributes, step: Step)
    requires step.guard in site && Answer(site, a, step).LoggedIn?
    ensures MarkerOf(Served(site, a, step), step.guard) == MarkerOf(a, step.guard)
  {
    ServeMoves(site, a, step, step.guard);
    if step.request.GuardedRequest? {
      GuardedServes(site, a, step);
      hide Admitted, Served, Start;
      NoGuardedLogin(site, a, step);
    } else {
      var id := Answer(site, a, step).user;
      CompleteLoginEffect(site[step.guard], a, step.guard, id, FindByID(step.users, step.guard, id).value, step.token);
    }
  }

  lemma NoGuardedLogin(site: Site, a: Attributes, step: Step)
    requires step.guard in site && step.request.GuardedRequest?
    ensures !Answer(site, a, step).LoggedIn?
  {
  }
}
