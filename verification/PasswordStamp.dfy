/** How a password change ends the other sessions of a user: the stored password_changed_at against
    the stamp each session holds (services/auth.go, http/controllers/auth.go,
    http/middleware/authenticated.go), with logins, changes and admin resets of one user interleaved
    at every statement.

    A login of a user with a second factor loads the row twice: once for the password, and again for
    the challenge that stamps the session (http/controllers/twofactor.go).

    `round` is what the database makes of an instant; nothing is assumed of it. A stamp prints every
    nanosecond of a stored instant (RFC 3339), so it is modelled by the instant itself.

    `writes` records every (hash, stored instant) the row ever had; the row is the last one. */
module PasswordStamp {
  datatype Write = Write(hash: string, stored: int)

  datatype Origin = ByLogin | ByChallenge | ByChange

  /** `version` is the write whose instant was stamped, `verified` the one whose hash the password was
      checked against (for the session of a change, the hash it set). */
  datatype Session = Session(stamp: int, version: nat, verified: nat, origin: Origin)

  datatype Call =
    | LoginLoaded(version: nat, row: Write)
    | Owing(version: nat)
    | ChallengeLoaded(verified: nat, version: nat, row: Write)
    | ChangeLoaded(sid: nat)
    | ChangeClocked(sid: nat, now: int)
    | ChangeWritten(sid: nat)
    | Reread(sid: nat, version: nat, stored: int)
    | Finished

  datatype State = State(clock: int, writes: seq<Write>, calls: map<nat, Call>, sessions: map<nat, Session>)

  datatype Action =
    | Tick(to: int)
    | LoadForLogin(c: nat)
    | FinishLogin(c: nat, sid: nat)
    | AskCode(c: nat)
    | LoadForChallenge(c: nat, login: nat)
    | FinishChallenge(c: nat, sid: nat)
    | BeginChange(c: nat, sid: nat)
    | ReadClock(c: nat)
    | WriteChange(c: nat, hash: string)
    | ReadBack(c: nat)
    | Restamp(c: nat)
    | Reset(hash: string, now: int)
    | Request(sid: nat)
    | Forget(sid: nat)

  function Row(s: State): Write
    requires s.writes != []
  {
    s.writes[|s.writes| - 1]
  }

  /** sessionPasswordTimestampValid */
  predicate Accepts(s: State, sid: nat)
    requires s.writes != []
  {
    sid in s.sessions && s.sessions[sid].stamp == Row(s).stored
  }

  /** A user row just created. */
  function Start(first: Write): State {
    State(0, [first], map[], map[])
  }

  predicate Enabled(s: State, a: Action) {
    && s.writes != []
    && match a
       case Tick(to) => s.clock <= to
       case LoadForLogin(c) => c !in s.calls
       case FinishLogin(c, _) => c in s.calls && s.calls[c].LoginLoaded?
       case AskCode(c) => c in s.calls && s.calls[c].LoginLoaded?
       case LoadForChallenge(c, login) => c !in s.calls && login in s.calls && s.calls[login].Owing?
       case FinishChallenge(c, _) => c in s.calls && s.calls[c].ChallengeLoaded?
       case BeginChange(c, sid) => c !in s.calls && Accepts(s, sid)
       case ReadClock(c) => c in s.calls && s.calls[c].ChangeLoaded?
       case WriteChange(c, _) => c in s.calls && s.calls[c].ChangeClocked?
       case ReadBack(c) => c in s.calls && s.calls[c].ChangeWritten?
       case Restamp(c) => c in s.calls && s.calls[c].Reread?
       case Reset(_, now) => now <= s.clock
       case Request(_) => true
       case Forget(_) => true
  }

  function Next(s: State, a: Action, round: int -> int): State
    requires Enabled(s, a)
  {
    match a
    case Tick(to) => s.(clock := to)
    case LoadForLogin(c) => s.(calls := s.calls[c := LoginLoaded(|s.writes| - 1, Row(s))])
    case FinishLogin(c, sid) =>
      var call := s.calls[c];
      s.(calls := s.calls[c := Finished], sessions := s.sessions[sid := Session(call.row.stored, call.version, call.version, ByLogin)])
    case AskCode(c) => s.(calls := s.calls[c := Owing(s.calls[c].version)])
    case LoadForChallenge(c, login) =>
      s.(calls := s.calls[c := ChallengeLoaded(s.calls[login].version, |s.writes| - 1, Row(s))])
    case FinishChallenge(c, sid) =>
      var call := s.calls[c];
      s.(calls := s.calls[c := Finished],
         sessions := s.sessions[sid := Session(call.row.stored, call.version, call.verified, ByChallenge)])
    case BeginChange(c, sid) => s.(calls := s.calls[c := ChangeLoaded(sid)])
    case ReadClock(c) => s.(calls := s.calls[c := ChangeClocked(s.calls[c].sid, s.clock)])
    case WriteChange(c, hash) =>
      s.(calls := s.calls[c := ChangeWritten(s.calls[c].sid)], writes := s.writes + [Write(hash, round(s.calls[c].now))])
    case ReadBack(c) => s.(calls := s.calls[c := Reread(s.calls[c].sid, |s.writes| - 1, Row(s).stored)])
    case Restamp(c) =>
      var call := s.calls[c];
      s.(calls := s.calls[c := Finished], sessions := s.sessions[call.sid := Session(call.stored, call.version, call.version, ByChange)])
    case Reset(hash, now) => s.(writes := s.writes + [Write(hash, round(now))])
    case Request(sid) => if Accepts(s, sid) then s else s.(sessions := s.sessions - {sid})
    case Forget(sid) => s.(sessions := s.sessions - {sid})
  }

  ghost predicate IsRun(trace: seq<State>, steps: seq<Action>, round: int -> int) {
    && |trace| == |steps| + 1
    && forall i :: 0 <= i < |steps| ==> Enabled(trace[i], steps[i]) && trace[i + 1] == Next(trace[i], steps[i], round)
  }

  ghost predicate FromStart(trace: seq<State>, steps: seq<Action>, round: int -> int) {
    IsRun(trace, steps, round) && trace[0].writes != [] && trace[0] == Start(trace[0].writes[0])
  }

  // ---------------------------------------------------------------- the invariant

  /** The stamp is the stored instant of the write it was taken from. */
  ghost predicate GoodSession(writes: seq<Write>, x: Session) {
    && x.verified <= x.version < |writes| && x.stamp == writes[x.version].stored
    && (x.origin != ByChallenge ==> x.verified == x.version)
  }

  ghost predicate GoodCall(writes: seq<Write>, call: Call) {
    match call
    case LoginLoaded(version, row) => version < |writes| && row == writes[version]
    case Owing(version) => version < |writes|
    case ChallengeLoaded(verified, version, row) => verified <= version < |writes| && row == writes[version]
    case Reread(_, version, stored) => version < |writes| && stored == writes[version].stored
    case _ => true
  }

  ghost predicate Inv(s: State) {
    && s.writes != []
    && (forall sid :: sid in s.sessions ==> GoodSession(s.writes, s.sessions[sid]))
    && (forall c :: c in s.calls ==> GoodCall(s.writes, s.calls[c]))
  }

  /** More writes make nothing worse, so a step accounts for the call and the session it moves. */
  lemma MovesKeepInv(s: State, s': State, c: nat, sid: nat)
    requires Inv(s) && s.writes <= s'.writes
    requires forall d :: d in s'.calls && d != c ==> d in s.calls && s'.calls[d] == s.calls[d]
    requires forall x :: x in s'.sessions && x != sid ==> x in s.sessions && s'.sessions[x] == s.sessions[x]
    requires c in s'.calls ==> GoodCall(s'.writes, s'.calls[c])
    requires sid in s'.sessions ==> GoodSession(s'.writes, s'.sessions[sid])
    ensures Inv(s')
  {
  }

  function Caller(a: Action): nat {
    match a
    case Tick(_) => 0
    case Reset(_, _) => 0
    case Request(_) => 0
    case Forget(_) => 0
    case _ => a.c
  }

  function Stamped(s: State, a: Action): nat {
    match a
    case FinishLogin(_, sid) => sid
    case FinishChallenge(_, sid) => sid
    case Restamp(c) => if c in s.calls && s.calls[c].Reread? then s.calls[c].sid else 0
    case _ => 0
  }

  lemma StepKeepsInv(s: State, a: Action, round: int -> int)
    requires Inv(s) && Enabled(s, a)
    ensures Inv(Next(s, a, round)) && s.writes <= Next(s, a, round).writes
  {
    var c, sid := Caller(a), Stamped(s, a);
    assert c in s.calls ==> GoodCall(s.writes, s.calls[c]);
    assert sid in s.sessions ==> GoodSession(s.writes, s.sessions[sid]);
    if a.LoadForChallenge? {
      assert GoodCall(s.writes, s.calls[a.login]);
    }
    hide Inv;
    MovesKeepInv(s, Next(s, a, round), c, sid);
  }

  lemma {:induction false} RunKeepsInv(trace: seq<State>, steps: seq<Action>, round: int -> int, k: nat)
    requires FromStart(trace, steps, round) && k < |trace|
    ensures Inv(trace[k])
  {
    hide Next, Enabled;
    if k > 0 {
      RunKeepsInv(trace, steps, round, k - 1);
      hide Inv;
      StepKeepsInv(trace[k - 1], steps[k - 1], round);
    }
  }

  // ---------------------------------------------------------------- who verified what

  /** The hash the session's password was verified against. */
  function Verified(s: State, sid: nat): string
    requires sid in s.sessions && s.sessions[sid].verified < |s.writes|
  {
    s.writes[s.sessions[sid].verified].hash
  }

  /** The last write stored an instant that no earlier write had stored. */
  predicate NewestIsNew(writes: seq<Write>) {
    forall v :: 0 <= v < |writes| - 1 ==> writes[v].stored != writes[|writes| - 1].stored
  }

  /** Main result: a login whose load and stamp straddle any number of changes is accepted only if
      it was verified against the hash now stored, provided the last write stored a new instant. */
  lemma AcceptedLoginIsCurrent(trace: seq<State>, steps: seq<Action>, round: int -> int, k: nat, sid: nat)
    requires FromStart(trace, steps, round) && k < |trace|
    requires trace[k].writes != [] && sid in trace[k].sessions && Accepts(trace[k], sid)
    requires NewestIsNew(trace[k].writes)
    ensures trace[k].sessions[sid].version == |trace[k].writes| - 1
    ensures trace[k].sessions[sid].verified <= trace[k].sessions[sid].version
    ensures trace[k].sessions[sid].verified == trace[k].sessions[sid].version || trace[k].sessions[sid].origin != ByChallenge ==>
      Verified(trace[k], sid) == Row(trace[k]).hash
  {
    RunKeepsInv(trace, steps, round, k);
  }

  /** Every write draws a new salt, so no two hashes are alike. */
  ghost predicate HashesDiffer(writes: seq<Write>) {
    forall i, j :: 0 <= i < j < |writes| ==> writes[i].hash != writes[j].hash
  }

  /** Main result: a session that a challenge stamped, accepted after a last write of a new instant,
      was verified against the stored hash exactly if no write came between the load of its password
      step and the load of its challenge. */
  lemma ChallengeIsCurrentIff(trace: seq<State>, steps: seq<Action>, round: int -> int, k: nat, sid: nat)
    requires FromStart(trace, steps, round) && k < |trace|
    requires trace[k].writes != [] && sid in trace[k].sessions && Accepts(trace[k], sid)
    requires NewestIsNew(trace[k].writes) && HashesDiffer(trace[k].writes)
    ensures trace[k].sessions[sid].verified < |trace[k].writes|
    ensures Verified(trace[k], sid) == Row(trace[k]).hash <==> trace[k].sessions[sid].verified == trace[k].sessions[sid].version
  {
    AcceptedLoginIsCurrent(trace, steps, round, k, sid);
  }

  /** A login session is accepted although the hash it was verified against is no longer stored. */
  ghost predicate Stale(s: State, origin: Origin) {
    exists sid :: sid in s.sessions && s.writes != [] && Accepts(s, sid) && s.sessions[sid].origin == origin
               && s.sessions[sid].verified < |s.writes| && Verified(s, sid) != Row(s).hash
  }

  ghost predicate Reaches(s: State, trace: seq<State>, steps: seq<Action>, round: int -> int) {
    FromStart(trace, steps, round) && trace[|steps|] == s
  }

  ghost predicate Reachable(s: State, round: int -> int) {
    exists trace, steps :: Reaches(s, trace, steps, round)
  }

  /** A history some run can have: everything after the first row came out of the database. */
  ghost predicate Storable(writes: seq<Write>, round: int -> int) {
    writes != [] && forall i :: 1 <= i < |writes| ==> exists now :: writes[i].stored == round(now)
  }

  /** An earlier write stored the same instant with another hash. */
  ghost predicate Collides(writes: seq<Write>, v: nat) {
    v < |writes| && writes[v].stored == writes[|writes| - 1].stored && writes[v].hash != writes[|writes| - 1].hash
  }

  /** Main result: exactly when that fails. For every history of password writes, some run with this
      history has an accepted login that was verified against another hash if and only if an earlier
      write with another hash stored the same instant as the last one. */
  lemma StaleLoginIffCollision(writes: seq<Write>, round: int -> int)
    requires Storable(writes, round)
    ensures (exists s :: Reachable(s, round) && s.writes == writes && Stale(s, ByLogin)) <==> exists v :: Collides(writes, v)
  {
    hide Reachable, Stale, Collides;
    if s :| Reachable(s, round) && s.writes == writes && Stale(s, ByLogin) {
      StaleNeedsCollision(s, round);
    }
    if v: nat :| Collides(writes, v) {
      var s := CollisionGoesStale(writes, round, v);
    }
  }

  lemma StaleNeedsCollision(s: State, round: int -> int)
    requires Reachable(s, round) && Stale(s, ByLogin)
    ensures exists v :: Collides(s.writes, v)
  {
    var trace, steps :| Reaches(s, trace, steps, round);
    RunKeepsInv(trace, steps, round, |steps|);
    var sid :| sid in s.sessions && s.writes != [] && Accepts(s, sid) && s.sessions[sid].origin == ByLogin
            && s.sessions[sid].verified < |s.writes| && Verified(s, sid) != Row(s).hash;
    assert Collides(s.writes, s.sessions[sid].version);
  }

  lemma ReachOneMore(s: State, a: Action, round: int -> int)
    requires Reachable(s, round) && Enabled(s, a)
    ensures Reachable(Next(s, a, round), round)
  {
    hide Next, Enabled;
    var trace, steps :| Reaches(s, trace, steps, round);
    assert Reaches(Next(s, a, round), trace + [Next(s, a, round)], steps + [a], round);
  }

  /** Admin resets can extend a history to any storable one, without touching sessions. */
  lemma {:induction false} ResetsExtend(s: State, round: int -> int, writes: seq<Write>) returns (s': State)
    requires Reachable(s, round) && Storable(writes, round) && s.writes != [] && s.writes <= writes
    ensures Reachable(s', round) && s'.writes == writes && s'.sessions == s.sessions && s'.calls == s.calls
    decreases |writes| - |s.writes|
  {
    hide Reachable;
    s' := s;
    if |s.writes| < |writes| {
      var next := writes[|s.writes|];
      var now :| next.stored == round(now);
      var later := if now > s.clock then now else s.clock;
      ReachOneMore(s, Tick(later), round);
      ReachOneMore(Next(s, Tick(later), round), Reset(next.hash, now), round);
      s' := Next(Next(s, Tick(later), round), Reset(next.hash, now), round);
      assert s'.writes == writes[..|s.writes| + 1];
      s' := ResetsExtend(s', round, writes);
    } else {
      assert s.writes == writes;
    }
  }

  lemma CollisionGoesStale(writes: seq<Write>, round: int -> int, v: nat) returns (s: State)
    requires Storable(writes, round) && Collides(writes, v)
    ensures Reachable(s, round) && s.writes == writes && Stale(s, ByLogin)
  {
    hide Reachable;
    s := Start(writes[0]);
    assert Reachable(s, round) by { StartIsReachable(writes[0], round); }
    assert Storable(writes[..v + 1], round);
    s := ResetsExtend(s, round, writes[..v + 1]);
    ReachOneMore(s, LoadForLogin(0), round);
    s := Next(s, LoadForLogin(0), round);
    ReachOneMore(s, FinishLogin(0, 0), round);
    s := Next(s, FinishLogin(0, 0), round);
    s := ResetsExtend(s, round, writes);
    assert 0 in s.sessions && s.sessions[0] == Session(writes[v].stored, v, v, ByLogin);
  }

  /** Main result: with a second factor it fails for more. For every history of password writes, some
      run with this history accepts a challenge's session that was verified against another hash if
      and only if some earlier write had another hash, whatever instants were stored. */
  lemma StaleChallengeIffChange(writes: seq<Write>, round: int -> int)
    requires Storable(writes, round)
    ensures (exists s :: Reachable(s, round) && s.writes == writes && Stale(s, ByChallenge)) <==>
      exists v :: 0 <= v < |writes| && writes[v].hash != writes[|writes| - 1].hash
  {
    hide Reachable;
    if s :| Reachable(s, round) && s.writes == writes && Stale(s, ByChallenge) {
      var sid :| sid in s.sessions && s.writes != [] && Accepts(s, sid) && s.sessions[sid].origin == ByChallenge
              && s.sessions[sid].verified < |s.writes| && Verified(s, sid) != Row(s).hash;
      assert writes[s.sessions[sid].verified].hash != writes[|writes| - 1].hash;
    }
    hide Stale;
    if v: nat :| v < |writes| && writes[v].hash != writes[|writes| - 1].hash {
      var s := ChallengeGoesStale(writes, round, v);
    }
  }

  lemma ChallengeGoesStale(writes: seq<Write>, round: int -> int, v: nat) returns (s: State)
    requires Storable(writes, round) && v < |writes| && writes[v].hash != writes[|writes| - 1].hash
    ensures Reachable(s, round) && s.writes == writes && Stale(s, ByChallenge)
  {
    hide Reachable;
    s := Start(writes[0]);
    StartIsReachable(writes[0], round);
    assert Storable(writes[..v + 1], round);
    s := ResetsExtend(s, round, writes[..v + 1]);
    s := PasswordThenCode(s, round);
    s := ResetsExtend(s, round, writes);
    ReachOneMore(s, LoadForChallenge(1, 0), round);
    s := Next(s, LoadForChallenge(1, 0), round);
    ReachOneMore(s, FinishChallenge(1, 0), round);
    s := Next(s, FinishChallenge(1, 0), round);
    assert 0 in s.sessions && s.sessions[0] == Session(Row(s).stored, |writes| - 1, v, ByChallenge);
  }

  lemma PasswordThenCode(s: State, round: int -> int) returns (s': State)
    requires Reachable(s, round) && s.writes != [] && s.calls == map[] && s.sessions == map[]
    ensures Reachable(s', round) && s'.writes == s.writes && s'.calls == map[0 := Owing(|s.writes| - 1)]
    ensures s'.sessions == map[]
  {
    hide Reachable;
    ReachOneMore(s, LoadForLogin(0), round);
    s' := Next(s, LoadForLogin(0), round);
    ReachOneMore(s', AskCode(0), round);
    s' := Next(s', AskCode(0), round);
  }

  lemma StartIsReachable(first: Write, round: int -> int)
    ensures Reachable(Start(first), round)
  {
    assert Reaches(Start(first), [Start(first)], [], round);
  }

  // ---------------------------------------------------------------- after a change

  /** A step that gives the session another stamp or ends it for a reason of its own. */
  predicate Replaces(s: State, a: Action, sid: nat) {
    || (a.FinishLogin? && a.sid == sid)
    || (a.FinishChallenge? && a.sid == sid)
    || (a.Restamp? && a.c in s.calls && s.calls[a.c].Reread? && s.calls[a.c].sid == sid)
    || (a.Forget? && a.sid == sid)
  }

  lemma StepKeepsSession(s: State, a: Action, round: int -> int, sid: nat)
    requires Enabled(s, a) && !Replaces(s, a, sid)
    ensures Accepts(s, sid) ==> sid in Next(s, a, round).sessions
    ensures sid in Next(s, a, round).sessions ==> sid in s.sessions && Next(s, a, round).sessions[sid] == s.sessions[sid]
    ensures |Next(s, a, round).writes| >= |s.writes|
    ensures |Next(s, a, round).writes| == |s.writes| ==> Next(s, a, round).writes == s.writes
  {
  }

  lemma {:induction false} WritesOnlyGrow(trace: seq<State>, steps: seq<Action>, round: int -> int, i: nat, k: nat)
    requires IsRun(trace, steps, round) && i <= k < |trace|
    ensures trace[i].writes <= trace[k].writes
    decreases k - i
  {
    hide Next, Enabled;
    if i < k {
      WritesOnlyGrow(trace, steps, round, i, k - 1);
      assert trace[k] == Next(trace[k - 1], steps[k - 1], round);
      StepOnlyGrows(trace[k - 1], steps[k - 1], round);
    }
  }

  lemma StepOnlyGrows(s: State, a: Action, round: int -> int)
    requires Enabled(s, a)
    ensures s.writes <= Next(s, a, round).writes
  {
  }

  /** Main result: whatever the database rounds to, the session that changed the password stays
      accepted, until another write follows the reading its stamp was taken from. */
  lemma {:induction false} ChangerStaysAccepted(trace: seq<State>, steps: seq<Action>, round: int -> int, i: nat, k: nat)
    requires FromStart(trace, steps, round) && i < k < |trace|
    requires steps[i].Restamp? && steps[i].c in trace[i].calls && trace[i].calls[steps[i].c].Reread?
    requires trace[i].calls[steps[i].c].version == |trace[k].writes| - 1
    requires forall j :: i < j < k ==> !Replaces(trace[j], steps[j], trace[i].calls[steps[i].c].sid)
    ensures trace[k].writes != [] && Accepts(trace[k], trace[i].calls[steps[i].c].sid)
    decreases k
  {
    hide Next, Enabled, GoodCall, GoodSession;
    var sid := trace[i].calls[steps[i].c].sid;
    RunKeepsInv(trace, steps, round, k);
    RunKeepsInv(trace, steps, round, i);
    RereadIsPast(trace[i], steps[i].c);
    hide Inv;
    WritesOnlyGrow(trace, steps, round, i, k);
    assert trace[i].writes == trace[k].writes;
    if k == i + 1 {
      RestampIsCurrent(trace[i], steps[i], round);
    } else {
      WritesOnlyGrow(trace, steps, round, i, k - 1);
      WritesOnlyGrow(trace, steps, round, k - 1, k);
      assert trace[k - 1].writes == trace[k].writes;
      ChangerStaysAccepted(trace, steps, round, i, k - 1);
      StepKeepsSession(trace[k - 1], steps[k - 1], round, sid);
    }
  }

  lemma RereadIsPast(s: State, c: nat)
    requires Inv(s) && c in s.calls && s.calls[c].Reread?
    ensures s.calls[c].version < |s.writes|
  {
  }

  lemma RestampIsCurrent(s: State, a: Action, round: int -> int)
    requires Inv(s) && a.Restamp? && Enabled(s, a) && s.calls[a.c].version == |s.writes| - 1
    ensures Accepts(Next(s, a, round), s.calls[a.c].sid)
  {
  }

  /** Main result: every other session that was accepted before a password write and not stamped
      anew is rejected after it exactly if the write changed the stored instant. */
  lemma OthersAreRejected(trace: seq<State>, steps: seq<Action>, round: int -> int, i: nat, k: nat, sid: nat)
    requires FromStart(trace, steps, round) && i < k < |trace|
    requires steps[i].WriteChange? || steps[i].Reset?
    requires |trace[k].writes| == |trace[i].writes| + 1
    requires trace[i].writes != [] && Accepts(trace[i], sid)
    requires sid in trace[k].sessions ==> trace[k].sessions[sid] == trace[i].sessions[sid]
    ensures trace[k].writes != []
    ensures Row(trace[k]).stored != Row(trace[i]).stored ==> !Accepts(trace[k], sid)
    ensures (forall j :: i < j < k ==> !Replaces(trace[j], steps[j], sid)) ==>
      (Accepts(trace[k], sid) <==> Row(trace[k]).stored == Row(trace[i]).stored)
  {
    hide Next, Enabled;
    if (forall j :: i < j < k ==> !Replaces(trace[j], steps[j], sid)) && Row(trace[k]).stored == Row(trace[i]).stored {
      UnchangedInstantKeeps(trace, steps, round, i, k, sid);
    }
  }

  lemma {:induction false} UnchangedInstantKeeps(trace: seq<State>, steps: seq<Action>, round: int -> int, i: nat, k: nat, sid: nat)
    requires IsRun(trace, steps, round) && i < k < |trace|
    requires (steps[i].WriteChange? || steps[i].Reset?) && |trace[k].writes| == |trace[i].writes| + 1
    requires trace[i].writes != [] && Accepts(trace[i], sid)
    requires Row(trace[k]).stored == Row(trace[i]).stored
    requires forall j :: i < j < k ==> !Replaces(trace[j], steps[j], sid)
    ensures Accepts(trace[k], sid)
    decreases k
  {
    hide Next, Enabled;
    assert trace[i + 1] == Next(trace[i], steps[i], round);
    StepKeepsSession(trace[i], steps[i], round, sid);
    WriteAppends(trace[i], steps[i], round);
    WritesOnlyGrow(trace, steps, round, i + 1, k);
    if k > i + 1 {
      WritesOnlyGrow(trace, steps, round, i + 1, k - 1);
      WritesOnlyGrow(trace, steps, round, k - 1, k);
      assert trace[k - 1].writes == trace[k].writes;
      UnchangedInstantKeeps(trace, steps, round, i, k - 1, sid);
      StepKeepsSession(trace[k - 1], steps[k - 1], round, sid);
    }
  }

  lemma WriteAppends(s: State, a: Action, round: int -> int)
    requires Enabled(s, a) && (a.WriteChange? || a.Reset?)
    ensures |Next(s, a, round).writes| == |s.writes| + 1
  {
  }

  // ---------------------------------------------------------------- what a call carries from step to step

  /** How far a call is; no step takes one back. */
  function Rank(call: Call): nat {
    match call
    case LoginLoaded(_, _) => 1
    case Owing(_) => 2
    case ChallengeLoaded(_, _, _) => 1
    case ChangeLoaded(_) => 1
    case ChangeClocked(_, _) => 2
    case ChangeWritten(_) => 3
    case Reread(_, _, _) => 4
    case Finished => 5
  }

  lemma CallProgresses(s: State, a: Action, round: int -> int, c: nat)
    requires Enabled(s, a) && c in s.calls
    ensures c in Next(s, a, round).calls
    ensures Next(s, a, round).calls[c] == s.calls[c] || Rank(Next(s, a, round).calls[c]) > Rank(s.calls[c])
  {
  }

  /** A call keeps what it loaded and read until its own next step. */
  lemma {:induction false} CallStays(trace: seq<State>, steps: seq<Action>, round: int -> int, c: nat, j: nat, i: nat)
    requires IsRun(trace, steps, round) && j <= i < |trace| && c in trace[j].calls
    ensures c in trace[i].calls
    ensures trace[i].calls[c] == trace[j].calls[c] || Rank(trace[i].calls[c]) > Rank(trace[j].calls[c])
    decreases i - j
  {
    hide Next, Enabled, Rank;
    if j < i {
      CallStays(trace, steps, round, c, j, i - 1);
      CallProgresses(trace[i - 1], steps[i - 1], round, c);
    }
  }

  // ---------------------------------------------------------------- a write ends the others

  /** The step gives the session a stamp: a finished login or challenge, or the restamp of a change. */
  predicate Stamps(s: State, a: Action, sid: nat) {
    || (a.FinishLogin? && a.sid == sid)
    || (a.FinishChallenge? && a.sid == sid)
    || (a.Restamp? && a.c in s.calls && s.calls[a.c].Reread? && s.calls[a.c].sid == sid)
  }

  lemma StepKeepsStamp(s: State, a: Action, round: int -> int, sid: nat)
    requires Enabled(s, a) && !Stamps(s, a, sid)
    ensures sid in Next(s, a, round).sessions ==> sid in s.sessions && Next(s, a, round).sessions[sid] == s.sessions[sid]
  {
  }

  lemma {:induction false} RunKeepsStamp(trace: seq<State>, steps: seq<Action>, round: int -> int, sid: nat, i: nat, k: nat)
    requires IsRun(trace, steps, round) && i <= k < |trace|
    requires forall j :: i <= j < k ==> !Stamps(trace[j], steps[j], sid)
    ensures sid in trace[k].sessions ==> sid in trace[i].sessions && trace[k].sessions[sid] == trace[i].sessions[sid]
    decreases k - i
  {
    hide Next, Enabled, Stamps;
    if i < k {
      RunKeepsStamp(trace, steps, round, sid, i, k - 1);
      StepKeepsStamp(trace[k - 1], steps[k - 1], round, sid);
    }
  }

  /** The step writes the password, having read the clock at `now`. */
  ghost predicate WritesAt(trace: seq<State>, steps: seq<Action>, i: nat, now: int)
    requires i < |steps| && i < |trace|
  {
    || (steps[i].Reset? && steps[i].now == now)
    || (steps[i].WriteChange? && exists j :: ReadAt(trace, steps, j, i, now))
  }

  ghost predicate ReadAt(trace: seq<State>, steps: seq<Action>, j: nat, i: nat, now: int)
    requires i < |steps| && i < |trace| && steps[i].WriteChange?
  {
    j < i && steps[j] == ReadClock(steps[i].c) && trace[j].clock == now
  }

  lemma WriteStores(trace: seq<State>, steps: seq<Action>, round: int -> int, i: nat, now: int)
    requires IsRun(trace, steps, round) && i < |steps| && WritesAt(trace, steps, i, now)
    ensures |trace[i + 1].writes| == |trace[i].writes| + 1 && trace[i + 1].writes != []
    ensures Row(trace[i + 1]).stored == round(now)
    ensures Row(trace[i + 1]).hash == steps[i].hash
    ensures trace[i + 1].sessions == trace[i].sessions
  {
    assert trace[i + 1] == Next(trace[i], steps[i], round);
    if steps[i].WriteChange? {
      var c := steps[i].c;
      var j: nat :| ReadAt(trace, steps, j, i, now);
      assert trace[j + 1] == Next(trace[j], steps[j], round);
      CallStays(trace, steps, round, c, j + 1, i);
      assert trace[i].calls[c] == trace[j + 1].calls[c];
    }
  }

  /** Main result: a password change or reset that read the clock at `now` ends every session accepted
      before it exactly if the database stores another instant for that reading than it held. Until the
      next write, such a session is accepted again only if it is stamped anew. */
  lemma WriteEndsOthers(trace: seq<State>, steps: seq<Action>, round: int -> int, i: nat, now: int, k: nat, sid: nat)
    requires FromStart(trace, steps, round) && i < k < |trace| && WritesAt(trace, steps, i, now)
    requires |trace[k].writes| == |trace[i].writes| + 1
    requires trace[i].writes != [] && Accepts(trace[i], sid)
    ensures trace[k].writes != []
    ensures round(now) != Row(trace[i]).stored && (forall j :: i < j < k ==> !Stamps(trace[j], steps[j], sid)) ==>
      !Accepts(trace[k], sid)
    ensures round(now) == Row(trace[i]).stored && (forall j :: i < j < k ==> !Replaces(trace[j], steps[j], sid)) ==>
      Accepts(trace[k], sid)
  {
    hide Next, Enabled, WritesAt;
    WriteStores(trace, steps, round, i, now);
    WritesOnlyGrow(trace, steps, round, i + 1, k);
    assert trace[k].writes == trace[i + 1].writes;
    if forall j :: i < j < k ==> !Stamps(trace[j], steps[j], sid) {
      RunKeepsStamp(trace, steps, round, sid, i + 1, k);
    }
    if round(now) == Row(trace[i]).stored && (forall j :: i < j < k ==> !Replaces(trace[j], steps[j], sid)) {
      IsAWrite(trace, steps, i, now);
      UnchangedInstantKeeps(trace, steps, round, i, k, sid);
    }
  }

  lemma IsAWrite(trace: seq<State>, steps: seq<Action>, i: nat, now: int)
    requires i < |steps| && i < |trace| && WritesAt(trace, steps, i, now)
    ensures steps[i].WriteChange? || steps[i].Reset?
  {
  }

  // ---------------------------------------------------------------- a new session is good

  /** A change stays with the session that began it. */
  predicate ChangeOf(call: Call, sid: nat) {
    match call
    case ChangeLoaded(x) => x == sid
    case ChangeClocked(x, _) => x == sid
    case ChangeWritten(x) => x == sid
    case Reread(x, _, _) => x == sid
    case Finished => true
    case _ => false
  }

  lemma StepKeepsChange(s: State, a: Action, round: int -> int, c: nat, sid: nat)
    requires Enabled(s, a) && c in s.calls && ChangeOf(s.calls[c], sid)
    ensures c in Next(s, a, round).calls && ChangeOf(Next(s, a, round).calls[c], sid)
  {
  }

  lemma {:induction false} RunKeepsChange(trace: seq<State>, steps: seq<Action>, round: int -> int, c: nat, sid: nat, b: nat, k: nat)
    requires IsRun(trace, steps, round) && b < k < |trace| && steps[b] == BeginChange(c, sid)
    ensures c in trace[k].calls && ChangeOf(trace[k].calls[c], sid)
  {
    assert trace[b + 1] == Next(trace[b], steps[b], round);
    hide Next, Enabled, ChangeOf;
    if k > b + 1 {
      RunKeepsChange(trace, steps, round, c, sid, b, k - 1);
      StepKeepsChange(trace[k - 1], steps[k - 1], round, c, sid);
    } else {
      BeginIsOf(trace[b], round, c, sid);
    }
  }

  lemma BeginIsOf(s: State, round: int -> int, c: nat, sid: nat)
    requires Enabled(s, BeginChange(c, sid))
    ensures
      var s' := Next(s, BeginChange(c, sid), round);
      c in s'.calls && ChangeOf(s'.calls[c], sid)
  {
  }

  ghost predicate Begun(steps: seq<Action>, c: nat, sid: nat, j: nat)
    requires j <= |steps|
  {
    exists b: nat :: b < j && steps[b] == BeginChange(c, sid)
  }

  /** The step loads the row that step i then stamps into session `sid`. */
  ghost predicate LoadsFor(steps: seq<Action>, j: nat, i: nat, sid: nat)
    requires i < |steps|
  {
    && j < i
    && match steps[i]
       case FinishLogin(c, x) => x == sid && steps[j] == LoadForLogin(c)
       case FinishChallenge(c, x) => x == sid && steps[j].LoadForChallenge? && steps[j].c == c
       case Restamp(c) => steps[j] == ReadBack(c) && Begun(steps, c, sid, j)
       case _ => false
  }

  /** Main result: a session stamped by a login, with or without a challenge, or by a password change of
      its own is accepted at once exactly if the row still holds the instant it held when it was read. */
  lemma StampedIsAccepted(trace: seq<State>, steps: seq<Action>, round: int -> int, j: nat, i: nat, sid: nat)
    requires FromStart(trace, steps, round) && i < |steps| && LoadsFor(steps, j, i, sid)
    ensures trace[j].writes != [] && trace[i].writes != [] && trace[i + 1].writes != []
    ensures sid in trace[i + 1].sessions
    ensures Accepts(trace[i + 1], sid) <==> Row(trace[i]).stored == Row(trace[j]).stored
  {
    RunKeepsInv(trace, steps, round, j);
    RunKeepsInv(trace, steps, round, i);
    assert trace[j + 1] == Next(trace[j], steps[j], round);
    assert trace[i + 1] == Next(trace[i], steps[i], round);
    var c := steps[i].c;
    CallStays(trace, steps, round, c, j + 1, i);
    assert trace[i].calls[c] == trace[j + 1].calls[c];
    if steps[i].Restamp? {
      var b: nat :| b < j && steps[b] == BeginChange(c, sid);
      RunKeepsChange(trace, steps, round, c, sid, b, i);
    }
  }

  /** A request ends exactly a session that is not accepted, and no other; a logout ends its own. */
  lemma RequestsAndLogouts(s: State, sid: nat, other: nat, round: int -> int)
    requires s.writes != []
    ensures
      var s', s'' := Next(s, Request(sid), round), Next(s, Forget(sid), round);
      && s'.writes == s''.writes == s.writes
      && (sid in s'.sessions <==> Accepts(s, sid)) && sid !in s''.sessions
      && (other != sid ==> (other in s'.sessions <==> other in s.sessions) && (other in s''.sessions <==> other in s.sessions))
      && (forall x :: x in s'.sessions ==> s'.sessions[x] == s.sessions[x])
      && (forall x :: x in s''.sessions ==> s''.sessions[x] == s.sessions[x])
  {
  }
}
