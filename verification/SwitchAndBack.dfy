/** Starting and stopping an impersonation undo each other, and no request reaches into a guard it
    is not about. */
module SwitchAndBack {
  import opened OptionType
  import opened SessionKeys
  import opened Sessions
  import opened SessionSafety

  // ---------------------------------------------------------------- markers

  /** Only a Stop on its own guard removes or replaces a marker; a sign-out does not. */
  lemma {:induction false} MarkerLasts(site: Site, a: Attributes, steps: seq<Step>, h: string)
    requires Mountable(site, steps) && MarkerOf(a, h).Some?
    requires forall i :: 0 <= i < |steps| ==> !StopsOn(h, steps[i])
    ensures MarkerOf(Run(site, a, steps), h) == MarkerOf(a, h)
  {
    hide MarkerOf, GuardUser, Served, StopsOn;
    if steps != [] {
      var front, step := steps[..|steps| - 1], steps[|steps| - 1];
      MarkerLasts(site, a, front, h);
      ServeMoves(site, Run(site, a, front), step, h);
    }
  }

  /** Main result: a switch lasts until it is stopped, and the first Stop that is served on the
      target's guard restores exactly the actor who started it: it clears the marker and brings him
      back with a fresh stamp if it was his own guard and he still exists, and otherwise leaves the
      guard empty. Nothing in between changes that, not even a sign-out and a login of somebody else
      (what this means is in module SignOuts). */
  lemma StopRestoresActor(site: Site, a: Attributes, start: Step, between: seq<Step>, stop: Step)
    requires start.guard in site && stop.guard in site && Mountable(site, between)
    requires start.request.GuardedRequest? && start.request.action.StartAction?
    requires Answer(site, a, start).Switched?
    requires stop.guard == (if start.request.action.requested == "" then start.guard else start.request.action.requested)
    requires forall i :: 0 <= i < |between| ==> !StopsOn(stop.guard, between[i])
    requires StopsOn(stop.guard, stop)
    requires Answer(site, Run(site, Served(site, a, start), between), stop) == Done
    ensures
      var actor := Admitted(site, a, start).1;
      var a' := Served(site, Run(site, Served(site, a, start), between), stop);
      && actor.Some? && MarkerOf(a', stop.guard).None?
      && var row := FindByID(stop.users, start.guard, actor.value);
      && (start.guard == stop.guard && row.Some? ==>
            GuardUser(a', stop.guard) == actor && StampValid(a', stop.guard, row.value.passwordChangedAt))
      && (!(start.guard == stop.guard && row.Some?) ==> GuardUser(a', stop.guard).None?)
  {
    hide MarkerOf, GuardUser, PendingUser, Run, StampValid, Served, Answer, Admitted, FindByID, Start, Stop;
    var (admitted, actor) := Admitted(site, a, start);
    GuardedServes(site, a, start);
    var action := start.request.action;
    StartEffect(site, admitted, start.guard, actor.value, start.users, action.requested, action.targetID, action.hook);
    var a2 := Run(site, Served(site, a, start), between);
    MarkerLasts(site, Served(site, a, start), between, stop.guard);
    AdmittedEffect(site, a2, stop);
    GuardedServes(site, a2, stop);
    StopEffect(Admitted(site, a2, stop).0, stop.guard, stop.users);
  }

  // ---------------------------------------------------------------- other guards' attributes

  /** Whether the key belongs to one of these guards. */
  ghost predicate KeyOf(key: string, guards: set<string>) {
    exists kind, g :: g in guards && key == Key(kind, g)
  }

  /** Every attribute outside these guards is the same in both. */
  ghost predicate SameOutside(a: Attributes, b: Attributes, guards: set<string>) {
    forall key :: !KeyOf(key, guards) ==> (key in a <==> key in b) && (key in a ==> a[key] == b[key])
  }

  lemma PutInside(a: Attributes, kind: Kind, guard: string, value: Value, guards: set<string>)
    requires guard in guards
    ensures SameOutside(Put(a, kind, guard, value), a, guards) && SameOutside(Forget(a, kind, guard), a, guards)
  {
  }

  /** The guards a request is about: its own and, for a Start, the target's. */
  function Concerned(step: Step): set<string> {
    {step.guard} + if step.request.GuardedRequest? && step.request.action.StartAction? && step.request.action.requested != ""
                   then {step.request.action.requested} else {}
  }

  lemma CompleteLoginInside(o: GuardOptions, a: Attributes, guard: string, id: nat, user: User, token: string, guards: set<string>)
    requires guard in guards
    ensures SameOutside(CompleteLogin(o, a, guard, id, user, token), a, guards)
  {
  }

  lemma LoginInside(o: GuardOptions, a: Attributes, guard: string, users: Users, authenticated: Option<nat>, remember: bool,
                    token: string, guards: set<string>)
    requires guard in guards
    ensures SameOutside(Login(o, a, guard, users, authenticated, remember, token).0, a, guards)
  {
  }

  lemma AdmittedInside(site: Site, a: Attributes, step: Step, guards: set<string>)
    requires step.guard in site && step.request.GuardedRequest? && step.guard in guards
    ensures SameOutside(Admitted(site, a, step).0, a, guards)
  {
    hide KeyOf;
    var guard := step.guard;
    var a1 := RememberLogin(site[guard], a, guard, step.users, step.request.cookie, step.token);
    RememberLoginInside(site[guard], a, guard, step.users, step.request.cookie, step.token, guards);
    hide RememberLogin;
    PutInside(a1, GuardID, guard, Flag, guards);
    PutInside(Forget(a1, GuardID, guard), PasswordChangedAt, guard, Flag, guards);
    var a2 := Authenticated(a1, guard, step.users).0;
    assert SameOutside(a2, a1, guards) by {
      hide Forget;
    }
    hide Authenticated, Forget;
    PutInside(a2, GuardID, guard, Flag, guards);
  }

  lemma RememberLoginInside(o: GuardOptions, a: Attributes, guard: string, users: Users, cookie: Cookie, token: string, guards: set<string>)
    requires guard in guards
    ensures SameOutside(RememberLogin(o, a, guard, users, cookie, token), a, guards)
  {
  }

  lemma ActInside(site: Site, a: Attributes, guard: string, id: nat, users: Users, action: Action, guards: set<string>)
    requires guard in site && guard in guards
    requires action.StartAction? && action.requested != "" ==> action.requested in guards
    ensures SameOutside(Act(site, a, guard, id, users, action).0, a, guards)
  {
    hide Put, Forget, KeyOf;
    match action {
      case Me =>
      case LogoutAction =>
        var a1 := Forget(a, GuardID, guard);
        PutInside(a, GuardID, guard, Flag, guards);
        PutInside(a1, PasswordChangedAt, guard, Flag, guards);
        PutInside(Forget(a1, PasswordChangedAt, guard), SessionTrackingToken, guard, Flag, guards);
      case PasswordAction(changedAt) =>
        PutInside(a, PasswordChangedAt, guard, Stamp(if changedAt.Some? then changedAt.value else 0), guards);
      case StartAction(requested, targetID, hook) =>
        StartInside(site, a, guard, id, users, requested, targetID, hook, guards);
      case StopAction => StopInside(a, guard, users, guards);
    }
  }

  lemma StartInside(site: Site, a: Attributes, guard: string, actor: nat, users: Users, requested: string,
                    targetID: Option<nat>, hook: Hook, guards: set<string>)
    requires guard in site && guard in guards && (requested != "" ==> requested in guards)
    ensures SameOutside(Start(site, a, guard, actor, users, requested, targetID, hook).0, a, guards)
  {
  }

  lemma StopInside(a: Attributes, guard: string, users: Users, guards: set<string>)
    requires guard in guards
    ensures SameOutside(Stop(a, guard, users).0, a, guards)
  {
  }

  lemma ServeInside(site: Site, a: Attributes, step: Step, guards: set<string>)
    requires step.guard in site && Concerned(step) <= guards
    ensures SameOutside(Served(site, a, step), a, guards)
  {
    match step.request {
      case LoginRequest(authenticated, remember) =>
        hide KeyOf, Login, CompleteLogin;
        LoginInside(site[step.guard], a, step.guard, step.users, authenticated, remember, step.token, guards);
      case ChallengeRequest(code) =>
        hide KeyOf, CompleteLogin;
        var pending := PendingUser(a, step.guard);
        if pending.Some? && FindByID(step.users, step.guard, pending.value).Some? {
          CompleteLoginInside(site[step.guard], a, step.guard, pending.value,
                              FindByID(step.users, step.guard, pending.value).value, step.token, guards);
        }
      case GuardedRequest(cookie, alive, action) =>
        GuardedServes(site, a, step);
        hide KeyOf, Served, Answer, Admitted, Act;
        AdmittedInside(site, a, step, guards);
        var (a', id) := Admitted(site, a, step);
        if id.Some? {
          ActInside(site, a', step.guard, id.value, step.users, action, guards);
        }
    }
  }

  lemma SameOutsideSame(a: Attributes, b: Attributes, guards: set<string>, kind: Kind, g: string)
    requires SameOutside(a, b, guards) && g !in guards
    ensures Get(a, kind, g) == Get(b, kind, g)
  {
    hide Key;
    if KeyOf(Key(kind, g), guards) {
      var k, h :| h in guards && Key(kind, g) == Key(k, h);
      KeysNeverCollide(kind, k, g, h);
    }
  }

  /** Main result: a request leaves every attribute alone that is not its own guard's, or the
      target guard's of a switch: those of all other guards and those of the host application. */
  lemma OthersUntouched(site: Site, a: Attributes, step: Step)
    requires step.guard in site
    ensures SameOutside(Served(site, a, step), a, Concerned(step))
    ensures forall kind, g :: g !in Concerned(step) ==> Get(Served(site, a, step), kind, g) == Get(a, kind, g)
  {
    ServeInside(site, a, step, Concerned(step));
    hide Served, SameOutside;
    forall kind, g | g !in Concerned(step) ensures Get(Served(site, a, step), kind, g) == Get(a, kind, g) {
      SameOutsideSame(Served(site, a, step), a, Concerned(step), kind, g);
    }
  }
}
