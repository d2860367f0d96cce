/** Concurrent requests that carry the same remember cookie are not mistaken for theft. */
module RememberAlarm {
  import opened OptionType
  import opened RememberTokens
  import opened RememberProtocol
  import opened RememberSafety

  predicate Resolving(call: Call) {
    call.Presented? || call.Loaded? || call.Clocked?
  }

  predicate Carries(call: Call, cookie: string) {
    (Resolving(call) || call.Accepted? || call.Refused?) && call.cookie == cookie
  }

  predicate Selects(call: Call, selector: string) {
    Resolving(call) && SplitToken(call.cookie).Some? && SplitToken(call.cookie).value.selector == selector
  }

  predicate StepOf(s: State, a: Action, cookie: string) {
    Caller(a).Some? && Caller(a).value in s.calls && Carries(s.calls[Caller(a).value], cookie)
  }

  /** The row `id` is live, `cookie` is its current cookie, and nobody has used it yet; calls
      under way for the row have at most presented it. */
  ghost predicate Untouched(s: State, id: nat, cookie: string) {
    && id in s.rows
    && SplitToken(cookie).Some? && SplitToken(cookie).value.selector == s.rows[id].selector
    && Sha256(SplitToken(cookie).value.validator) == s.rows[id].validator
    && (forall c :: c in s.calls && Selects(s.calls[c], s.rows[id].selector) ==> s.calls[c] == Presented(cookie))
    && (forall c :: c in s.calls && Carries(s.calls[c], cookie) ==> s.calls[c].Presented?)
  }

  /** An honest stretch of a run. Whoever uses the row presents `cookie`, has no internal error,
      and reads the clock before the expiry the row had at first and, once it was rotated, within
      the grace window. Everything else is free, as long as it does not delete the row. */
  ghost predicate Honest(first: Row, id: nat, cookie: string, s: State, a: Action, s': State) {
    && (a.Present? && SplitToken(a.cookie).Some? && SplitToken(a.cookie).value.selector == first.selector ==> a.cookie == cookie)
    && (a.Fail? ==> !StepOf(s, a, cookie))
    && (a.ReadClock? && StepOf(s, a, cookie) && id in s.rows ==>
          && s.clock <= first.expiresAt
          && (s.rows[id].validator != first.validator && s.rows[id].rotatedAt.Some? ==>
                s.clock - s.rows[id].rotatedAt.value <= GRACE))
    && (!StepOf(s, a, cookie) ==> id in s'.rows)
  }

  /** What holds all along an honest stretch; the row had `m` validators when it began. */
  ghost predicate Calm(s: State, ttl: int, id: nat, m: nat, cookie: string) {
    && id in s.rows && id in s.lineage && id in s.births
    && 1 <= m <= |s.lineage[id]| <= m + 1
    && SplitToken(cookie) == Some(Parts(s.births[id].selector, s.lineage[id][m - 1].validator))
    && (forall c :: c in s.calls && Selects(s.calls[c], s.births[id].selector) ==> s.calls[c].cookie == cookie)
    && (forall c :: c in s.calls && Carries(s.calls[c], cookie) ==> CalmCall(s, ttl, id, m, c, s.calls[c]))
    && (|s.lineage[id]| == m + 1 ==>
          var winner := s.lineage[id][m].call;
          winner in s.calls && Carries(s.calls[winner], cookie) && s.calls[winner].Accepted? && s.calls[winner].newCookie.Some?)
  }

  ghost predicate CalmCall(s: State, ttl: int, id: nat, m: nat, c: nat, call: Call)
    requires id in s.lineage && id in s.births && 1 <= m <= |s.lineage[id]| <= m + 1
  {
    match call
    case Loaded(_, i, _, version) => i == id && version >= m
    case Clocked(_, i, _, version, now) =>
      && i == id && version >= m && now <= s.lineage[id][m - 1].at + ttl
      && (version == m + 1 ==> version <= |s.lineage[id]| && now - s.lineage[id][m].at <= GRACE)
    case Accepted(_, i, _, _, user, newCookie) =>
      && i == id && |s.lineage[id]| == m + 1 && user == s.births[id].user
      && (newCookie.Some? <==> s.lineage[id][m].call == c)
    case Refused(_) => false
    case _ => true
  }

  // ---------------------------------------------------------------- one step

  lemma HistoryOf(s: State, ttl: int, id: nat)
    requires Inv(s, ttl) && id in s.rows
    ensures id in s.lineage && id in s.births && GoodHistory(s.lineage[id], s.clock, s.drawn)
    ensures s.rows[id] == RowAt(s.births[id], s.lineage[id], ttl)
  {
  }

  /** What the two possible snapshots of the row say about the shared cookie. */
  lemma SnapshotVerdict(birth: Birth, history: seq<Entry>, version: nat, m: nat, ttl: int, now: int, clock: int, drawn: set<string>)
    requires GoodHistory(history, clock, drawn) && 1 <= m <= version <= m + 1 && version <= |history|
    requires now <= history[m - 1].at + ttl && (version == m + 1 ==> now - history[m].at <= GRACE)
    ensures Judge(RowAt(birth, history[..version], ttl), history[m - 1].validator, now)
         == if version == m then Current else Superseded
  {
  }

  lemma CarrierVerdict(s: State, ttl: int, id: nat, m: nat, cookie: string, c: nat)
    requires Inv(s, ttl) && Calm(s, ttl, id, m, cookie) && c in s.calls && s.calls[c].Clocked? && s.calls[c].cookie == cookie
    ensures SplitToken(cookie).Some?
    ensures s.calls[c].id == id && m <= s.calls[c].version <= m + 1 && s.calls[c].version <= |s.lineage[id]|
    ensures s.calls[c].row == Seen(s, ttl, id, s.calls[c].version)
    ensures Judge(s.calls[c].row, SplitToken(cookie).value.validator, s.calls[c].now)
         == if s.calls[c].version == m then Current else Superseded
  {
    var call := s.calls[c];
    assert CalmCall(s, ttl, id, m, c, call);
    assert GoodCall(s, ttl, c, call);
    HistoryOf(s, ttl, id);
    hide Inv, SplitToken, CalmCall, Judge, GoodHistory, RowAt, GoodCall;
    SnapshotVerdict(s.births[id], s.lineage[id], call.version, m, ttl, call.now, s.clock, s.drawn);
  }

  /** The row still holds the validator of the version iff no rotation has come after it. */
  lemma SwapWinsIff(s: State, ttl: int, id: nat, version: nat)
    requires Inv(s, ttl) && id in s.rows && id in s.lineage && id in s.births && 1 <= version <= |s.lineage[id]|
    ensures s.rows[id].validator == Seen(s, ttl, id, version).validator <==> version == |s.lineage[id]|
  {
  }

  /** A step that does not rotate the row has to account for its own call only. */
  lemma CalmWithSameHistory(s: State, s': State, ttl: int, id: nat, m: nat, cookie: string, c: nat)
    requires Calm(s, ttl, id, m, cookie)
    requires id in s'.rows && id in s'.lineage && id in s'.births
    requires s'.lineage[id] == s.lineage[id] && s'.births[id] == s.births[id]
    requires forall d :: d in s'.calls && d != c ==> d in s.calls && s'.calls[d] == s.calls[d]
    requires forall d :: d in s.calls && (d != c || s.calls[d].Accepted?) ==> d in s'.calls && s'.calls[d] == s.calls[d]
    requires c in s'.calls && Carries(s'.calls[c], cookie) ==> CalmCall(s', ttl, id, m, c, s'.calls[c])
    requires c in s'.calls && Selects(s'.calls[c], s.births[id].selector) ==> s'.calls[c].cookie == cookie
    ensures Calm(s', ttl, id, m, cookie)
  {
  }

  lemma CarrierWins(s: State, s': State, ttl: int, id: nat, m: nat, cookie: string, c: nat, e: Entry, call: Call)
    requires Calm(s, ttl, id, m, cookie) && |s.lineage[id]| == m && e.call == c
    requires c in s.calls && s.calls[c].Clocked? && s.calls[c].cookie == cookie
    requires id in s'.rows && s'.births == s.births && s'.lineage == s.lineage[id := s.lineage[id] + [e]]
    requires s'.calls == s.calls[c := call]
    requires call.Accepted? && call.cookie == cookie && call.id == id && call.user == s.births[id].user && call.newCookie.Some?
    ensures Calm(s', ttl, id, m, cookie)
  {
  }

  lemma CarrierActs(s: State, ttl: int, id: nat, m: nat, cookie: string, c: nat, validator: string, applied: bool)
    requires Inv(s, ttl) && Calm(s, ttl, id, m, cookie) && Enabled(s, Act(c, validator, applied)) && s.calls[c].cookie == cookie
    ensures
      var s' := Next(s, Act(c, validator, applied), ttl);
      Calm(s', ttl, id, m, cookie) && s'.rows.Keys == s.rows.Keys
  {
    var s', call := Next(s, Act(c, validator, applied), ttl), s.calls[c];
    CarrierVerdict(s, ttl, id, m, cookie, c);
    assert CalmCall(s, ttl, id, m, c, call);
    HistoryOf(s, ttl, id);
    SwapWinsIff(s, ttl, id, call.version);
    hide Inv, Judge, SplitToken, JoinToken, GoodHistory;
    assert call.row.user == s.births[id].user;
    hide RowAt, Seen;
    if call.version == m && |s.lineage[id]| == m {
      CarrierWins(s, s', ttl, id, m, cookie, c, Entry(validator, call.now, c), s'.calls[c]);
    } else {
      assert s'.lineage == s.lineage && s'.rows == s.rows;
      hide Carry;
      CarrierLoses(s, s', ttl, id, m, cookie, c, s'.calls[c]);
    }
  }

  lemma CarrierLoses(s: State, s': State, ttl: int, id: nat, m: nat, cookie: string, c: nat, call: Call)
    requires Calm(s, ttl, id, m, cookie) && |s.lineage[id]| == m + 1
    requires c in s.calls && s.calls[c].Clocked? && s.calls[c].cookie == cookie
    requires s'.rows == s.rows && s'.births == s.births && s'.lineage == s.lineage && s'.calls == s.calls[c := call]
    requires call.Accepted? && call.cookie == cookie && call.id == id && call.user == s.births[id].user && call.newCookie.None?
    ensures Calm(s', ttl, id, m, cookie)
  {
  }

  lemma CarrierFinds(s: State, ttl: int, id: nat, m: nat, cookie: string, c: nat, found: Option<nat>)
    requires Inv(s, ttl) && Calm(s, ttl, id, m, cookie) && Enabled(s, Find(c, found)) && s.calls[c].cookie == cookie
    ensures Calm(Next(s, Find(c, found), ttl), ttl, id, m, cookie)
  {
    HistoryOf(s, ttl, id);
    assert found == Some(id);
    hide Inv, SplitToken;
    CalmWithSameHistory(s, Next(s, Find(c, found), ttl), ttl, id, m, cookie, c);
  }

  /** The row as it was at first, and as it is now, told by the history. */
  lemma FirstRow(s: State, ttl: int, id: nat, m: nat, first: Row)
    requires Inv(s, ttl) && id in s.rows && id in s.lineage && id in s.births && 1 <= m <= |s.lineage[id]| <= m + 1
    requires first == Seen(s, ttl, id, m)
    ensures first.expiresAt == s.lineage[id][m - 1].at + ttl
    ensures |s.lineage[id]| == m + 1 ==> s.rows[id].validator != first.validator && s.rows[id].rotatedAt == Some(s.lineage[id][m].at)
  {
    HistoryOf(s, ttl, id);
    hide Inv;
  }

  lemma CarrierReadsClock(s: State, ttl: int, first: Row, id: nat, m: nat, cookie: string, c: nat)
    requires Inv(s, ttl) && Calm(s, ttl, id, m, cookie) && Enabled(s, ReadClock(c)) && s.calls[c].cookie == cookie
    requires s.clock <= first.expiresAt
    requires s.rows[id].validator != first.validator && s.rows[id].rotatedAt.Some? ==> s.clock - s.rows[id].rotatedAt.value <= GRACE
    requires first == Seen(s, ttl, id, m)
    ensures Calm(Next(s, ReadClock(c), ttl), ttl, id, m, cookie)
  {
    hide Seen, SplitToken, GoodHistory, RowAt;
    FirstRow(s, ttl, id, m, first);
    assert CalmCall(s, ttl, id, m, c, s.calls[c]);
    assert s.calls[c].version <= |s.lineage[id]| by {
      assert GoodCall(s, ttl, c, s.calls[c]);
    }
    hide Inv, GoodCall;
    CalmWithSameHistory(s, Next(s, ReadClock(c), ttl), ttl, id, m, cookie, c);
  }

  /** A call that is about to act on the row carries the cookie. */
  lemma ActorsCarry(s: State, ttl: int, id: nat, m: nat, cookie: string, c: nat)
    requires Inv(s, ttl) && Calm(s, ttl, id, m, cookie) && c in s.calls && s.calls[c].Clocked?
    ensures s.calls[c].id == id ==> Carries(s.calls[c], cookie)
  {
  }

  /** Steps of anybody else leave the row's history alone. */
  lemma OthersLeaveHistory(s: State, ttl: int, id: nat, m: nat, cookie: string, a: Action)
    requires Inv(s, ttl) && Calm(s, ttl, id, m, cookie) && Enabled(s, a) && !StepOf(s, a, cookie)
    ensures
      var s' := Next(s, a, ttl);
      id in s'.lineage && s'.lineage[id] == s.lineage[id] && id in s'.births && s'.births[id] == s.births[id]
  {
    assert id in s.lineage && id in s.births;
    if a.Act? {
      ActorsCarry(s, ttl, id, m, cookie, a.c);
      assert s.calls[a.c].id != id;
      hide *;
      ActElsewhere(s, ttl, id, a);
    } else if a.Create? {
      DrawnIdIsOwn(s, ttl, a.c);
      hide Inv, Calm, SplitToken;
    } else {
      hide *;
      HistoryStep(s, a, ttl);
    }
  }

  lemma ActElsewhere(s: State, ttl: int, id: nat, a: Action)
    requires a.Act? && Enabled(s, a) && s.calls[a.c].id != id && id in s.lineage && id in s.births
    ensures
      var s' := Next(s, a, ttl);
      id in s'.lineage && s'.lineage[id] == s.lineage[id] && id in s'.births && s'.births[id] == s.births[id]
  {
  }

  lemma OnlyCallerMoves(s: State, ttl: int, a: Action, c: nat)
    requires Enabled(s, a) && Caller(a) == Some(c)
    ensures
      var s' := Next(s, a, ttl);
      && c in s'.calls && (c in s.calls && s.calls[c].Accepted? ==> s'.calls[c] == s.calls[c])
      && (forall d :: d in s'.calls && d != c ==> d in s.calls && s'.calls[d] == s.calls[d])
      && (forall d :: d in s.calls && d != c ==> d in s'.calls && s'.calls[d] == s.calls[d])
  {
  }

  /** A call keeps the cookie it was given until it returns. */
  lemma CookiesStay(s: State, ttl: int, a: Action, c: nat)
    requires Enabled(s, a) && Caller(a) == Some(c)
    ensures
      var s' := Next(s, a, ttl);
      && c in s'.calls
      && (forall cookie :: Carries(s'.calls[c], cookie) ==>
            a == Present(c, cookie) || (c in s.calls && Carries(s.calls[c], cookie)))
      && (Resolving(s'.calls[c]) ==>
            || (c in s.calls && Resolving(s.calls[c]) && s'.calls[c].cookie == s.calls[c].cookie)
            || (a == Present(c, s'.calls[c].cookie) && s'.calls[c].Presented?))
  {
    hide SplitToken, Judge, JoinToken;
  }

  lemma OthersStep(s: State, ttl: int, first: Row, id: nat, m: nat, cookie: string, a: Action)
    requires Inv(s, ttl) && Calm(s, ttl, id, m, cookie) && Enabled(s, a) && !StepOf(s, a, cookie)
    requires Honest(first, id, cookie, s, a, Next(s, a, ttl)) && first == Seen(s, ttl, id, m)
    ensures Calm(Next(s, a, ttl), ttl, id, m, cookie)
  {
    var s' := Next(s, a, ttl);
    hide Inv, Enabled, SplitToken, JoinToken;
    OthersLeaveHistory(s, ttl, id, m, cookie, a);
    assert first.selector == s.births[id].selector;
    hide Seen;
    if Caller(a).Some? {
      var c := Caller(a).value;
      OnlyCallerMoves(s, ttl, a, c);
      CookiesStay(s, ttl, a, c);
      assert a == Present(c, cookie) ==> s'.calls[c].Presented?;
      hide Next;
      CalmWithSameHistory(s, s', ttl, id, m, cookie, c);
    } else {
      assert s'.calls == s.calls;
      hide Next;
      NobodysStep(s, s', ttl, id, m, cookie);
    }
  }

  lemma NobodysStep(s: State, s': State, ttl: int, id: nat, m: nat, cookie: string)
    requires Calm(s, ttl, id, m, cookie) && s'.calls == s.calls && id in s'.rows
    requires id in s'.lineage && s'.lineage[id] == s.lineage[id] && id in s'.births && s'.births[id] == s.births[id]
    ensures Calm(s', ttl, id, m, cookie)
  {
  }

  // ---------------------------------------------------------------- the whole stretch

  lemma StretchStep(s: State, ttl: int, first: Row, id: nat, m: nat, cookie: string, a: Action)
    requires Inv(s, ttl) && Calm(s, ttl, id, m, cookie) && Enabled(s, a) && first == Seen(s, ttl, id, m)
    requires Honest(first, id, cookie, s, a, Next(s, a, ttl))
    ensures Calm(Next(s, a, ttl), ttl, id, m, cookie)
    ensures StepOf(s, a, cookie) ==> Next(s, a, ttl).rows.Keys == s.rows.Keys
  {
    if !StepOf(s, a, cookie) {
      OthersStep(s, ttl, first, id, m, cookie, a);
    } else if a.Act? {
      CarrierActs(s, ttl, id, m, cookie, a.c, a.validator, a.applied);
    } else if a.Find? {
      CarrierFinds(s, ttl, id, m, cookie, a.c, a.found);
    } else {
      CarrierReadsClock(s, ttl, first, id, m, cookie, a.c);
    }
  }

  lemma StretchBegins(s: State, ttl: int, id: nat, cookie: string)
    requires Inv(s, ttl) && Untouched(s, id, cookie)
    ensures id in s.lineage && id in s.births && s.lineage[id] != []
    ensures Calm(s, ttl, id, |s.lineage[id]|, cookie) && s.rows[id] == Seen(s, ttl, id, |s.lineage[id]|)
  {
    HistoryOf(s, ttl, id);
    assert s.lineage[id][..|s.lineage[id]|] == s.lineage[id];
    hide Inv, SplitToken;
  }

  /** An honest stretch of the run: from state `b` on, every step is honest. */
  ghost predicate HonestFrom(trace: seq<State>, steps: seq<Action>, b: nat, id: nat, cookie: string) {
    b < |trace| && |trace| == |steps| + 1 && id in trace[b].rows
    && forall i :: b <= i < |steps| ==> Honest(trace[b].rows[id], id, cookie, trace[i], steps[i], trace[i + 1])
  }

  lemma HonestAt(trace: seq<State>, steps: seq<Action>, ttl: int, b: nat, i: nat, id: nat, cookie: string)
    requires FromStart(trace, steps, ttl) && b <= i < |steps| && HonestFrom(trace, steps, b, id, cookie)
    ensures Enabled(trace[i], steps[i]) && trace[i + 1] == Next(trace[i], steps[i], ttl)
    ensures Honest(trace[b].rows[id], id, cookie, trace[i], steps[i], Next(trace[i], steps[i], ttl))
  {
  }

  lemma SeenStays(trace: seq<State>, steps: seq<Action>, ttl: int, b: nat, k: nat, id: nat)
    requires FromStart(trace, steps, ttl) && b <= k < |trace|
    requires id in trace[b].lineage && id in trace[b].births && trace[b].lineage[id] != []
    ensures id in trace[k].lineage && id in trace[k].births && |trace[b].lineage[id]| <= |trace[k].lineage[id]|
    ensures Seen(trace[k], ttl, id, |trace[b].lineage[id]|) == Seen(trace[b], ttl, id, |trace[b].lineage[id]|)
  {
    RunGrows(trace, steps, ttl, b, k);
    hide IsRun;
    assert trace[k].lineage[id][..|trace[b].lineage[id]|] == trace[b].lineage[id][..|trace[b].lineage[id]|];
  }

  lemma StretchGoesOn(trace: seq<State>, steps: seq<Action>, ttl: int, b: nat, i: nat, id: nat, cookie: string, m: nat)
    requires FromStart(trace, steps, ttl) && b <= i < |steps| && HonestFrom(trace, steps, b, id, cookie)
    requires Calm(trace[i], ttl, id, m, cookie) && trace[b].rows[id] == Seen(trace[i], ttl, id, m)
    ensures Calm(trace[i + 1], ttl, id, m, cookie)
    ensures StepOf(trace[i], steps[i], cookie) ==> trace[i + 1].rows.Keys == trace[i].rows.Keys
  {
    hide Inv, Enabled, Honest, Next, Calm, Seen, StepOf;
    RunKeepsInv(trace, steps, ttl, i);
    HonestAt(trace, steps, ttl, b, i, id, cookie);
    hide IsRun, HonestFrom;
    StretchStep(trace[i], ttl, trace[b].rows[id], id, m, cookie, steps[i]);
  }

  lemma {:induction false} StretchStaysCalm(trace: seq<State>, steps: seq<Action>, ttl: int, b: nat, k: nat, id: nat, cookie: string)
    requires FromStart(trace, steps, ttl) && b <= k < |trace|
    requires Untouched(trace[b], id, cookie) && HonestFrom(trace, steps, b, id, cookie)
    ensures id in trace[b].lineage && id in trace[b].births && trace[b].lineage[id] != []
    ensures Calm(trace[k], ttl, id, |trace[b].lineage[id]|, cookie)
    ensures trace[b].rows[id] == Seen(trace[k], ttl, id, |trace[b].lineage[id]|)
    decreases k
  {
    assert id in trace[b].rows;
    hide Inv, Untouched, Calm, Seen, HonestFrom, IsRun;
    RunKeepsInv(trace, steps, ttl, b);
    StretchBegins(trace[b], ttl, id, cookie);
    if b < k {
      StretchStaysCalm(trace, steps, ttl, b, k - 1, id, cookie);
      StretchGoesOn(trace, steps, ttl, b, k - 1, id, cookie, |trace[b].lineage[id]|);
      SeenStays(trace, steps, ttl, b, k, id);
    }
  }

  /** Main result: no false alarm. Let every call on a live row carry its current cookie, reading
      the clock in time. Then in every interleaving each of these calls that has returned was
      authenticated as the row's user, exactly one of them was given the new cookie, the row is
      still there, and none of their steps has removed any row of anybody. */
  lemma NoFalseAlarm(trace: seq<State>, steps: seq<Action>, ttl: int, b: nat, k: nat, id: nat, cookie: string)
    requires FromStart(trace, steps, ttl) && b <= k < |trace|
    requires Untouched(trace[b], id, cookie) && HonestFrom(trace, steps, b, id, cookie)
    ensures id in trace[k].rows
    ensures forall c :: c in trace[k].calls && Carries(trace[k].calls[c], cookie) && Returned(trace[k].calls[c]) ==>
      trace[k].calls[c].Accepted? && trace[k].calls[c].user == trace[b].rows[id].user
    ensures (exists c :: c in trace[k].calls && Carries(trace[k].calls[c], cookie) && Returned(trace[k].calls[c])) ==>
      exists w :: GotNewCookie(trace[k], w, cookie) && forall c :: GotNewCookie(trace[k], c, cookie) ==> c == w
    ensures forall i :: b <= i < k && StepOf(trace[i], steps[i], cookie) ==> trace[i + 1].rows.Keys == trace[i].rows.Keys
  {
    StretchStaysCalm(trace, steps, ttl, b, k, id, cookie);
    hide Inv, Enabled, Untouched, Honest, Next, Calm, Seen;
    var first, m := trace[b].rows[id], |trace[b].lineage[id]|;
    CalmOutcome(trace[k], ttl, id, m, cookie, first);
    forall i | b <= i < k && StepOf(trace[i], steps[i], cookie)
      ensures trace[i + 1].rows.Keys == trace[i].rows.Keys
    {
      StretchStaysCalm(trace, steps, ttl, b, i, id, cookie);
      StretchGoesOn(trace, steps, ttl, b, i, id, cookie, m);
    }
  }

  lemma CalmOutcome(s: State, ttl: int, id: nat, m: nat, cookie: string, first: Row)
    requires Calm(s, ttl, id, m, cookie) && first == Seen(s, ttl, id, m)
    ensures id in s.rows
    ensures forall c :: c in s.calls && Carries(s.calls[c], cookie) && Returned(s.calls[c]) ==>
      s.calls[c].Accepted? && s.calls[c].user == first.user
    ensures (exists c :: c in s.calls && Carries(s.calls[c], cookie) && Returned(s.calls[c])) ==>
      exists w :: GotNewCookie(s, w, cookie) && forall c :: GotNewCookie(s, c, cookie) ==> c == w
  {
    hide SplitToken;
    forall c | c in s.calls && Carries(s.calls[c], cookie) && Returned(s.calls[c])
      ensures s.calls[c].Accepted? && s.calls[c].user == first.user && |s.lineage[id]| == m + 1
      ensures s.calls[c].newCookie.Some? ==> c == s.lineage[id][m].call
    {
      assert CalmCall(s, ttl, id, m, c, s.calls[c]);
    }
    if c :| c in s.calls && Carries(s.calls[c], cookie) && Returned(s.calls[c]) {
      assert GotNewCookie(s, s.lineage[id][m].call, cookie);
    }
  }
}
