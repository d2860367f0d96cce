/** What each step of the remember protocol does to the shared table and tells its caller, said of the
    rows themselves and, over runs, of the history of each row. */
module RememberRows {
  import opened OptionType
  import opened RememberTokens
  import opened RememberProtocol
  import opened RememberSafety

  // ---------------------------------------------------------------- one step

  /** Neither the current validator of the loaded row nor, in the grace window, its predecessor. */
  predicate Unknown(row: Row, validator: string, now: int) {
    && row.validator != Sha256(validator)
    && !(row.previous == Sha256(validator) && row.rotatedAt.Some? && now <= row.rotatedAt.value + 60_000_000_000)
  }

  /** The validator a call presents. */
  function Shown(call: Call): string
    requires call.Clocked? && SplitToken(call.cookie).Some?
  {
    SplitToken(call.cookie).value.validator
  }

  /** The step removes this row: a call that loaded it finds it expired, a call raises the alarm for
      its user, a logout names it, its user's tokens are revoked, or a prune read the clock after its
      expiry. */
  ghost predicate Removes(s: State, a: Action, id: nat)
    requires Enabled(s, a) && id in s.rows
  {
    match a
    case Act(c, _, applied) =>
      && applied
      && var call := s.calls[c];
         || (call.row.expiresAt < call.now && call.id == id)
         || (call.now <= call.row.expiresAt && Unknown(call.row, Shown(call), call.now) && s.rows[id].user == call.row.user)
    case DeleteRevoked(c) => s.calls[c].id == id
    case RevokeAll(user) => s.rows[id].user == user
    case DeletePruned(c) => s.rows[id].expiresAt < s.calls[c].now
    case _ => false
  }

  /** The step rotates this row: a call presents its current validator in time, and nobody has rotated
      it since the call loaded it. */
  ghost predicate Rotates(s: State, a: Action, id: nat)
    requires Enabled(s, a) && id in s.rows
  {
    && a.Act?
    && var call := s.calls[a.c];
       && call.id == id && call.now <= call.row.expiresAt && call.row.validator == Sha256(Shown(call))
       && s.rows[id].validator == call.row.validator
  }

  /** Every step, row by row: what is removed, what is rotated to what, and what is left as it was. */
  lemma TableStep(s: State, a: Action, ttl: int, id: nat)
    requires Enabled(s, a) && id in s.rows && !(a.Create? && s.calls[a.c].id == id)
    ensures
      var s' := Next(s, a, ttl);
      && (id in s'.rows <==> !Removes(s, a, id))
      && (id in s'.rows && !Rotates(s, a, id) ==> s'.rows[id] == s.rows[id])
      && (Rotates(s, a, id) ==>
            s'.rows[id] == Row(s.rows[id].user, s.rows[id].selector, Sha256(a.validator), s.rows[id].validator,
                               Some(s.calls[a.c].now), s.calls[a.c].now + ttl))
  {
    hide SplitToken, JoinToken;
  }

  /** Only a create adds a row, and it adds and hands out the one that was drawn. */
  lemma OnlyCreateAdds(s: State, a: Action, ttl: int, id: nat)
    requires Enabled(s, a) && id !in s.rows
    ensures
      var s' := Next(s, a, ttl);
      && (id in s'.rows <==> a.Create? && s.calls[a.c].id == id)
      && (id in s'.rows ==>
            var call := s.calls[a.c];
            && s'.rows[id] == Row(call.user, call.selector, Sha256(call.validator), NoDigest, None, call.at + ttl)
            && s'.calls[a.c] == Issued(call.selector + ":" + call.validator))
  {
    hide SplitToken;
  }

  /** What the caller is told: he is let in unless the row had expired or the validator is unknown,
      and he gets a new cookie exactly if his call rotated the row. */
  lemma ActAnswers(s: State, c: nat, ttl: int, validator: string, applied: bool)
    requires Enabled(s, Act(c, validator, applied))
    ensures
      var call := s.calls[c];
      var told := Next(s, Act(c, validator, applied), ttl).calls[c];
      && (told.Refused? <==> call.row.expiresAt < call.now || Unknown(call.row, Shown(call), call.now))
      && (!told.Refused? ==> told.Accepted? && told.user == call.row.user && told.id == call.id)
      && (told.Accepted? ==>
            told.newCookie == if call.id in s.rows && Rotates(s, Act(c, validator, applied), call.id)
                              then Some(JoinToken(call.row.selector, validator)) else None)
  {
    hide SplitToken, JoinToken;
  }

  // ---------------------------------------------------------------- the other calls, undisturbed

  /** An issue alone adds its row, expiring `ttl` after its reading, and hands out a text that parses. */
  lemma IssueIsARun(s: State, ttl: int, c: nat, id: nat, user: nat, selector: string, validator: string)
    requires Enabled(s, Draw(c, id, user, selector, validator))
    ensures
      var drawn := Next(s, Draw(c, id, user, selector, validator), ttl);
      && Enabled(drawn, Create(c))
      && var end := Next(drawn, Create(c), ttl);
         && end.rows == s.rows[id := Row(user, selector, Sha256(validator), NoDigest, None, s.clock + ttl)]
         && end.calls[c] == Issued(selector + ":" + validator)
  {
    hide SplitToken;
  }

  /** A logout alone: a cookie that does not parse or names no row removes nothing; otherwise the row it
      names goes, and only it. */
  lemma RevokeIsARun(s: State, ttl: int, c: nat, cookie: string, found: Option<nat>)
    requires c !in s.calls && (SplitToken(cookie).Some? ==> Finds(s.rows, SplitToken(cookie).value.selector, found))
    ensures
      var asked := Next(s, Revoke(c, cookie), ttl);
      && asked.rows == s.rows && (SplitToken(cookie).None? ==> asked.calls[c].Finished?)
      && (SplitToken(cookie).Some? ==>
            && Enabled(asked, FindRevoked(c, found))
            && var looked := Next(asked, FindRevoked(c, found), ttl);
               && looked.rows == s.rows && (found.None? ==> looked.calls[c].Finished?)
               && (found.Some? ==>
                     Enabled(looked, DeleteRevoked(c)) && Next(looked, DeleteRevoked(c), ttl).rows == s.rows - {found.value}))
  {
    hide SplitToken, JoinToken;
  }

  /** A prune alone leaves exactly the rows that are not past their expiry, as they were. */
  lemma PruneIsARun(s: State, ttl: int, c: nat, id: nat)
    requires c !in s.calls
    ensures
      var read := Next(s, Prune(c), ttl);
      && Enabled(read, DeletePruned(c))
      && var end := Next(read, DeletePruned(c), ttl);
         && (id in end.rows <==> id in s.rows && s.clock <= s.rows[id].expiresAt)
         && (id in end.rows ==> end.rows[id] == s.rows[id])
  {
    hide SplitToken, JoinToken;
  }

  // ---------------------------------------------------------------- runs

  /** The validator was, when the call loaded the row, neither its newest nor, in the grace window,
      the one before. */
  predicate Foreign(history: seq<Entry>, version: nat, validator: string, now: int)
    requires 1 <= version <= |history|
  {
    && validator != history[version - 1].validator
    && !(version > 1 && validator == history[version - 2].validator && now <= history[version - 1].at + 60_000_000_000)
  }

  /** Who may remove a row, told by the histories: the call found the row expired, or it raised the
      alarm with a foreign validator for a row of the same user; a logout; a revocation of its user; a
      prune that read the clock after the row's expiry. */
  ghost predicate Cause(s: State, a: Action, ttl: int, id: nat)
    requires Enabled(s, a) && id in s.births && id in s.lineage && s.lineage[id] != []
  {
    match a
    case Act(c, _, applied) =>
      && applied
      && var call := s.calls[c];
         && call.id in s.births && call.id in s.lineage && 1 <= call.version <= |s.lineage[call.id]|
         && var expiry := s.lineage[call.id][call.version - 1].at + ttl;
            || (call.id == id && expiry < call.now)
            || (call.now <= expiry && s.births[id].user == s.births[call.id].user
                && Foreign(s.lineage[call.id], call.version, Shown(call), call.now))
    case DeleteRevoked(c) => s.calls[c].id == id
    case RevokeAll(user) => s.births[id].user == user
    case DeletePruned(c) => s.lineage[id][|s.lineage[id]| - 1].at + ttl < s.calls[c].now
    case _ => false
  }

  lemma UnknownIsForeign(birth: Birth, history: seq<Entry>, version: nat, ttl: int, clock: int, drawn: set<string>,
                         validator: string, now: int)
    requires GoodHistory(history, clock, drawn) && 1 <= version <= |history|
    ensures
      var row := RowAt(birth, history[..version], ttl);
      && row.expiresAt == history[version - 1].at + ttl && row.user == birth.user
      && (Unknown(row, validator, now) <==> Foreign(history, version, validator, now))
  {
  }

  lemma TableTells(s: State, ttl: int, id: nat)
    requires GoodTable(s, ttl) && id in s.rows
    ensures id in s.births && id in s.lineage && s.lineage[id] != []
    ensures s.rows[id].user == s.births[id].user && s.rows[id].expiresAt == s.lineage[id][|s.lineage[id]| - 1].at + ttl
  {
  }

  lemma SnapshotTells(s: State, ttl: int, c: nat)
    requires GoodCalls(s, ttl) && GoodHistories(s) && c in s.calls && s.calls[c].Clocked?
    ensures
      var call := s.calls[c];
      && call.id in s.births && call.id in s.lineage && 1 <= call.version <= |s.lineage[call.id]| && SplitToken(call.cookie).Some?
      && call.row.expiresAt == s.lineage[call.id][call.version - 1].at + ttl && call.row.user == s.births[call.id].user
      && (Unknown(call.row, Shown(call), call.now) <==> Foreign(s.lineage[call.id], call.version, Shown(call), call.now))
  {
    var call := s.calls[c];
    assert GoodCall(s, ttl, c, call);
    assert GoodHistory(s.lineage[call.id], s.clock, s.drawn);
    UnknownIsForeign(s.births[call.id], s.lineage[call.id], call.version, ttl, s.clock, s.drawn, Shown(call), call.now);
    hide GoodHistory, Unknown, Foreign, SplitToken, GoodHistories, GoodCalls;
  }

  lemma RemovesForCause(s: State, a: Action, ttl: int, id: nat)
    requires Inv(s, ttl) && Enabled(s, a) && id in s.rows
    ensures id in s.births && id in s.lineage && s.lineage[id] != []
    ensures Removes(s, a, id) <==> Cause(s, a, ttl, id)
  {
    hide GoodTable, GoodHistories, GoodCalls, GoodBirths, Unknown, Foreign, SplitToken, Shown;
    TableTells(s, ttl, id);
    if a.Act? {
      SnapshotTells(s, ttl, a.c);
    }
  }

  /** Main result: a row is removed by a step of a run exactly for cause, and a row that is not stays
      as it is unless the step rotates it. So no call, revocation or prune ever touches the row of a
      user it is not about. */
  lemma RemovedExactlyForCause(trace: seq<State>, steps: seq<Action>, ttl: int, i: nat, id: nat)
    requires FromStart(trace, steps, ttl) && i < |steps| && id in trace[i].rows
    ensures id in trace[i].births && id in trace[i].lineage && trace[i].lineage[id] != []
    ensures id !in trace[i + 1].rows <==> Cause(trace[i], steps[i], ttl, id)
    ensures id in trace[i + 1].rows ==>
      trace[i + 1].rows[id] == trace[i].rows[id]
      || (steps[i].Act? && trace[i].calls[steps[i].c].id == id && trace[i + 1].rows[id].previous == trace[i].rows[id].validator
          && trace[i + 1].rows[id].validator == Sha256(steps[i].validator))
  {
    RunKeepsInv(trace, steps, ttl, i);
    CreateIsNew(trace[i], steps[i], ttl, id);
    RemovesForCause(trace[i], steps[i], ttl, id);
    TableStep(trace[i], steps[i], ttl, id);
    hide Inv, Next, Removes, Cause;
  }

  lemma CreateIsNew(s: State, a: Action, ttl: int, id: nat)
    requires Inv(s, ttl) && Enabled(s, a) && id in s.rows
    ensures !(a.Create? && s.calls[a.c].id == id)
  {
    if a.Create? {
      assert GoodCall(s, ttl, a.c, s.calls[a.c]);
    }
  }

  /** Main result: one user's calls leave another's cookies alone. While no step is about the row (no
      call that loaded it acts, no alarm, logout or revocation is for its user, and no prune reads the
      clock after its expiry), the row is there unchanged. */
  lemma {:induction false} NobodyElsesBusiness(trace: seq<State>, steps: seq<Action>, ttl: int, i: nat, k: nat, id: nat)
    requires FromStart(trace, steps, ttl) && i <= k < |trace| && id in trace[i].rows
    requires forall j :: i <= j < k ==> Elsewhere(trace[j], steps[j], id, trace[i].rows[id])
    ensures id in trace[k].rows && trace[k].rows[id] == trace[i].rows[id]
    decreases k
  {
    hide Inv, Next, Enabled, Elsewhere;
    if i < k {
      NobodyElsesBusiness(trace, steps, ttl, i, k - 1, id);
      RunKeepsInv(trace, steps, ttl, k - 1);
      CreateIsNew(trace[k - 1], steps[k - 1], ttl, id);
      ElsewhereKeeps(trace[k - 1], steps[k - 1], ttl, id);
    }
  }

  ghost predicate Elsewhere(s: State, a: Action, id: nat, row: Row) {
    match a
    case Act(c, _, _) =>
      c in s.calls && s.calls[c].Clocked? ==>
        && s.calls[c].id != id
        && (s.calls[c].row.user == row.user ==>
              SplitToken(s.calls[c].cookie).Some? && !Unknown(s.calls[c].row, Shown(s.calls[c]), s.calls[c].now))
    case DeleteRevoked(c) => c in s.calls && s.calls[c].RevokeFound? ==> s.calls[c].id != id
    case RevokeAll(user) => user != row.user
    case DeletePruned(c) => c in s.calls && s.calls[c].Pruning? ==> s.calls[c].now <= row.expiresAt
    case _ => true
  }

  lemma ElsewhereKeeps(s: State, a: Action, ttl: int, id: nat)
    requires Enabled(s, a) && id in s.rows && !(a.Create? && s.calls[a.c].id == id) && Elsewhere(s, a, id, s.rows[id])
    ensures id in Next(s, a, ttl).rows && Next(s, a, ttl).rows[id] == s.rows[id]
  {
    TableStep(s, a, ttl, id);
    hide Next, Unknown;
  }
}
