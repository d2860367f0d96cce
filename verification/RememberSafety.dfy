/** What every interleaving of remember calls guarantees, stated on whole runs of the protocol. */
module RememberSafety {
  import opened OptionType
  import opened RememberTokens
  import opened RememberProtocol

  // ---------------------------------------------------------------- runs

  lemma {:induction false} GrowsTransitively(a: State, b: State, c: State)
    requires Grows(a, b) && Grows(b, c)
    ensures Grows(a, c)
  {
  }

  lemma {:induction false} RunKeepsInv(trace: seq<State>, steps: seq<Action>, ttl: int, k: nat)
    requires FromStart(trace, steps, ttl) && k < |trace|
    ensures Inv(trace[k], ttl)
  {
    if k > 0 {
      RunKeepsInv(trace, steps, ttl, k - 1);
      hide Inv, Enabled;
      StepKeepsInv(trace[k - 1], ttl, steps[k - 1]);
    }
  }

  lemma {:induction false} RunGrows(trace: seq<State>, steps: seq<Action>, ttl: int, i: nat, k: nat)
    requires FromStart(trace, steps, ttl) && i <= k < |trace|
    ensures Grows(trace[i], trace[k])
    decreases k
  {
    if i < k {
      RunGrows(trace, steps, ttl, i, k - 1);
      RunKeepsInv(trace, steps, ttl, k - 1);
      hide Inv, Enabled, Grows;
      StepKeepsInv(trace[k - 1], ttl, steps[k - 1]);
      GrowsTransitively(trace[i], trace[k - 1], trace[k]);
    }
  }

  // ---------------------------------------------------------------- one row over time

  /** A row is left alone, removed, or rotated: then its history gains one validator. */
  ghost predicate RowMoves(s: State, s': State, id: nat)
    requires id in s.lineage
  {
    && id in s'.lineage
    && (id !in s.rows ==> id !in s'.rows && s'.lineage[id] == s.lineage[id])
    && (s'.lineage[id] == s.lineage[id]
        || (|s'.lineage[id]| == |s.lineage[id]| + 1 && s.lineage[id] < s'.lineage[id] && id in s.rows && id in s'.rows))
  }

  lemma RowStepOfAct(s: State, c: nat, ttl: int, validator: string, applied: bool, id: nat)
    requires c in s.calls && s.calls[c].Clocked? && SplitToken(s.calls[c].cookie).Some? && id in s.lineage
    ensures RowMoves(s, Carry(s, c, s.calls[c], ttl, validator, applied), id)
  {
  }

  /** All but two kinds of step leave every history as it is. */
  lemma HistoryStep(s: State, a: Action, ttl: int)
    requires Enabled(s, a) && !a.Act? && !a.Create?
    ensures
      var s' := Next(s, a, ttl);
      && s'.lineage == s.lineage && s'.rows.Keys <= s.rows.Keys
      && (forall id :: id in s.births ==> id in s'.births && s'.births[id] == s.births[id])
  {
  }

  lemma RowStep(s: State, a: Action, ttl: int, id: nat)
    requires Inv(s, ttl) && Enabled(s, a) && id in s.lineage
    ensures RowMoves(s, Next(s, a, ttl), id)
  {
    if a.Act? {
      RowStepOfAct(s, a.c, ttl, a.validator, a.applied, id);
    } else if a.Create? {
      DrawnIdIsOwn(s, ttl, a.c);
    } else {
      hide Inv, Next, Enabled;
      HistoryStep(s, a, ttl);
    }
  }

  lemma {:induction false} DeletedStays(trace: seq<State>, steps: seq<Action>, ttl: int, id: nat, i: nat, k: nat)
    requires FromStart(trace, steps, ttl) && i <= k < |trace|
    requires id in trace[i].lineage && id !in trace[i].rows
    ensures id in trace[k].lineage && id !in trace[k].rows && trace[k].lineage[id] == trace[i].lineage[id]
    decreases k
  {
    if i < k {
      DeletedStays(trace, steps, ttl, id, i, k - 1);
      RunKeepsInv(trace, steps, ttl, k - 1);
      RowStep(trace[k - 1], steps[k - 1], ttl, id);
    }
  }

  lemma HadRowHasLineage(trace: seq<State>, steps: seq<Action>, ttl: int, id: nat, i: nat, k: nat)
    requires FromStart(trace, steps, ttl) && i <= k < |trace| && id in trace[i].rows
    ensures id in trace[k].lineage && id in trace[k].births && id in trace[i].births
    ensures trace[k].births[id] == trace[i].births[id]
  {
    RunKeepsInv(trace, steps, ttl, i);
    RunGrows(trace, steps, ttl, i, k);
  }

  /** Main result: a deleted row is final. No later step of any call recreates it. */
  lemma DeletedIsFinal(trace: seq<State>, steps: seq<Action>, ttl: int, id: nat, i: nat, j: nat, k: nat)
    requires FromStart(trace, steps, ttl) && i <= j <= k < |trace|
    requires id in trace[i].rows && id !in trace[j].rows
    ensures id !in trace[k].rows
  {
    HadRowHasLineage(trace, steps, ttl, id, i, j);
    DeletedStays(trace, steps, ttl, id, j, k);
  }

  /** The row and its history at one point of a run. */
  lemma RowTells(trace: seq<State>, steps: seq<Action>, ttl: int, id: nat, k: nat)
    requires FromStart(trace, steps, ttl) && k < |trace| && id in trace[k].rows
    ensures id in trace[k].lineage && id in trace[k].births
    ensures GoodHistory(trace[k].lineage[id], trace[k].clock, trace[k].drawn)
    ensures trace[k].rows[id] == RowAt(trace[k].births[id], trace[k].lineage[id], ttl)
  {
    RunKeepsInv(trace, steps, ttl, k);
  }

  /** Main result: once a step replaces a row's validator, the old one is what the row keeps as its
      predecessor, and it never becomes current again, so it is superseded at most once. */
  lemma SupersededForGood(trace: seq<State>, steps: seq<Action>, ttl: int, id: nat, i: nat, k: nat)
    requires FromStart(trace, steps, ttl) && i < k < |trace|
    requires id in trace[i].rows && id in trace[i + 1].rows && id in trace[k].rows
    requires trace[i + 1].rows[id].validator != trace[i].rows[id].validator
    ensures trace[i + 1].rows[id].previous == trace[i].rows[id].validator
    ensures trace[k].rows[id].validator != trace[i].rows[id].validator
  {
    assert i < |steps|;
    hide Inv, Enabled, IsRun, GoodHistory, RowAt;
    RowTells(trace, steps, ttl, id, i);
    RowTells(trace, steps, ttl, id, i + 1);
    RowTells(trace, steps, ttl, id, k);
    RunRowMoves(trace, steps, ttl, id, i);
    RunGrows(trace, steps, ttl, i, i + 1);
    RunGrows(trace, steps, ttl, i + 1, k);
    var before, after := trace[i].lineage[id], trace[i + 1].lineage[id];
    RotatedRow(trace[i].births[id], before, after, ttl);
    LongerHistoryNewValidator(before, trace[k].lineage[id], trace[k].clock, trace[k].drawn);
    NewestValidator(trace[k].births[id], trace[k].lineage[id], ttl);
  }

  lemma RunRowMoves(trace: seq<State>, steps: seq<Action>, ttl: int, id: nat, i: nat)
    requires FromStart(trace, steps, ttl) && i < |steps| && id in trace[i].lineage
    ensures RowMoves(trace[i], trace[i + 1], id)
  {
    hide Inv, Enabled, RowMoves;
    RunKeepsInv(trace, steps, ttl, i);
    RowStep(trace[i], steps[i], ttl, id);
  }

  lemma NewestValidator(birth: Birth, history: seq<Entry>, ttl: int)
    requires history != []
    ensures RowAt(birth, history, ttl).validator == Sha256(history[|history| - 1].validator)
  {
  }

  lemma RotatedRow(birth: Birth, before: seq<Entry>, after: seq<Entry>, ttl: int)
    requires before != [] && before < after && |after| == |before| + 1
    ensures RowAt(birth, before, ttl).validator == Sha256(before[|before| - 1].validator)
    ensures RowAt(birth, after, ttl).previous == RowAt(birth, before, ttl).validator
  {
  }

  lemma LongerHistoryNewValidator(before: seq<Entry>, after: seq<Entry>, clock: int, drawn: set<string>)
    requires GoodHistory(after, clock, drawn) && before != [] && before < after
    ensures after[|after| - 1].validator != before[|before| - 1].validator
    ensures after[|after| - 1].at >= before[|before| - 1].at
  {
  }

  /** Main result: although a call reads the clock before its compare-and-set, a row's rotation
      time and expiry never move backwards. */
  lemma TimesNeverGoBack(trace: seq<State>, steps: seq<Action>, ttl: int, id: nat, i: nat, k: nat)
    requires FromStart(trace, steps, ttl) && i <= k < |trace|
    requires id in trace[i].rows && id in trace[k].rows
    ensures trace[i].rows[id].expiresAt <= trace[k].rows[id].expiresAt
    ensures trace[i].rows[id].rotatedAt.Some? ==>
      trace[k].rows[id].rotatedAt.Some? && trace[i].rows[id].rotatedAt.value <= trace[k].rows[id].rotatedAt.value
  {
    RowTells(trace, steps, ttl, id, i);
    RowTells(trace, steps, ttl, id, k);
    RunGrows(trace, steps, ttl, i, k);
    hide Inv, IsRun;
    if trace[i].lineage[id] != trace[k].lineage[id] {
      LongerHistoryNewValidator(trace[i].lineage[id], trace[k].lineage[id], trace[k].clock, trace[k].drawn);
    }
  }

  // ---------------------------------------------------------------- one cookie

  ghost predicate GotNewCookie(s: State, c: nat, cookie: string) {
    c in s.calls && s.calls[c].Accepted? && s.calls[c].cookie == cookie && s.calls[c].newCookie.Some?
  }

  /** Where the presented validator of a rewarded call stands in its row's history. */
  lemma WinnerHoldsEntry(s: State, ttl: int, c: nat, cookie: string)
    requires Inv(s, ttl) && GotNewCookie(s, c, cookie)
    ensures SplitToken(cookie).Some?
    ensures
      var call, parts := s.calls[c], SplitToken(cookie).value;
      && call.id in s.lineage && call.id in s.births && s.births[call.id].selector == parts.selector
      && 1 <= call.version < |s.lineage[call.id]|
      && s.lineage[call.id][call.version - 1].validator == parts.validator
      && s.lineage[call.id][call.version].call == c
  {
  }

  /** Main result: however many calls present one cookie, at most one of them is ever given the
      cookie that replaces it. */
  lemma OneWinnerPerCookie(trace: seq<State>, steps: seq<Action>, ttl: int, k: nat, c: nat, d: nat, cookie: string)
    requires FromStart(trace, steps, ttl) && k < |trace|
    requires GotNewCookie(trace[k], c, cookie) && GotNewCookie(trace[k], d, cookie)
    ensures c == d
  {
    var s := trace[k];
    RunKeepsInv(trace, steps, ttl, k);
    WinnerHoldsEntry(s, ttl, c, cookie);
    WinnerHoldsEntry(s, ttl, d, cookie);
    assert s.calls[c].id == s.calls[d].id;
    assert GoodHistory(s.lineage[s.calls[c].id], s.clock, s.drawn);
  }

  // ---------------------------------------------------------------- calls over time

  predicate Returned(call: Call) {
    call.Accepted? || call.Refused? || call.Failed? || call.Issued? || call.Finished?
  }

  /** A call's steps are its own, and none follows its return. */
  lemma CallStep(s: State, a: Action, ttl: int, c: nat)
    requires Enabled(s, a) && c in s.calls
    ensures c in Next(s, a, ttl).calls
    ensures Caller(a) != Some(c) || Returned(s.calls[c]) ==> Next(s, a, ttl).calls[c] == s.calls[c]
  {
  }

  lemma {:induction false} ReturnedStays(trace: seq<State>, steps: seq<Action>, ttl: int, c: nat, i: nat, k: nat)
    requires IsRun(trace, steps, ttl) && i <= k < |trace|
    requires c in trace[i].calls && Returned(trace[i].calls[c])
    ensures c in trace[k].calls && trace[k].calls[c] == trace[i].calls[c]
    decreases k
  {
    if i < k {
      ReturnedStays(trace, steps, ttl, c, i, k - 1);
      CallStep(trace[k - 1], steps[k - 1], ttl, c);
    }
  }

  /** Main result: a lookup made after the row is gone is refused, for good. */
  lemma LookupAfterDeleteFails(trace: seq<State>, steps: seq<Action>, ttl: int, id: nat, i: nat, j: nat, k: nat, c: nat, end: nat)
    requires FromStart(trace, steps, ttl) && i <= j <= k < end < |trace|
    requires id in trace[i].rows && id !in trace[j].rows
    requires steps[k].Find? && steps[k].c == c
    requires SplitToken(trace[k].calls[c].cookie).value.selector == trace[i].rows[id].selector
    ensures c in trace[end].calls && trace[end].calls[c].Refused?
  {
    DeletedIsFinal(trace, steps, ttl, id, i, j, k);
    HadRowHasLineage(trace, steps, ttl, id, i, k);
    RunKeepsInv(trace, steps, ttl, i);
    RunKeepsInv(trace, steps, ttl, k);
    var s := trace[k];
    assert forall other :: other in s.rows && s.rows[other].selector == s.births[id].selector ==> other == id;
    assert trace[k + 1].calls[c].Refused?;
    ReturnedStays(trace, steps, ttl, c, k + 1, end);
  }

  /** Theft detection ends the whole family: after an effective alarm, no cookie of any row the
      user had then is ever looked up successfully again. */
  lemma TheftEndsFamily(trace: seq<State>, steps: seq<Action>, ttl: int, m: nat, id: nat, k: nat, c: nat, end: nat)
    requires FromStart(trace, steps, ttl) && m < k < end < |trace|
    requires steps[m].Act? && steps[m].applied
    requires
      var call := trace[m].calls[steps[m].c];
      && Judge(call.row, SplitToken(call.cookie).value.validator, call.now).Theft?
      && id in trace[m].rows && trace[m].rows[id].user == call.row.user
    requires steps[k].Find? && steps[k].c == c
    requires SplitToken(trace[k].calls[c].cookie).value.selector == trace[m].rows[id].selector
    ensures c in trace[end].calls && trace[end].calls[c].Refused?
  {
    assert id !in trace[m + 1].rows;
    LookupAfterDeleteFails(trace, steps, ttl, id, m, m + 1, k, c, end);
  }

  lemma OnlyActAccepts(s: State, a: Action, ttl: int, c: nat)
    requires Enabled(s, a) && c in Next(s, a, ttl).calls && Next(s, a, ttl).calls[c].Accepted?
    requires c !in s.calls || s.calls[c] != Next(s, a, ttl).calls[c]
    ensures a.Act? && a.c == c
  {
    hide SplitToken, Judge, JoinToken;
  }

  /** Only a winning compare-and-set turns a call into one that carries a new cookie. */
  lemma RewardStep(s: State, ttl: int, c: nat, validator: string, applied: bool)
    requires Inv(s, ttl) && Enabled(s, Act(c, validator, applied))
    requires
      var s' := Next(s, Act(c, validator, applied), ttl);
      s'.calls[c].Accepted? && s'.calls[c].newCookie.Some?
    ensures
      var s' := Next(s, Act(c, validator, applied), ttl);
      var id := s'.calls[c].id;
      && id in s.rows && id in s'.rows && s'.rows[id].validator == Sha256(validator)
      && s'.calls[c].newCookie.value == JoinToken(s.rows[id].selector, validator)
  {
    hide Inv, Seen, SplitToken, Judge, JoinToken;
    assert s.calls[c].id in s.rows && s.rows[s.calls[c].id].validator == s.calls[c].row.validator;
    WinnerSawLatest(s, ttl, c);
  }

  /** Main result: every cookie handed out by a rotation was written to the row by a
      compare-and-set that happened before the row was deleted. */
  lemma HandedOutBeforeDelete(trace: seq<State>, steps: seq<Action>, ttl: int, j: nat, k: nat, c: nat)
      returns (m: nat)
    requires FromStart(trace, steps, ttl) && j <= k < |trace|
    requires c in trace[k].calls && trace[k].calls[c].Accepted? && trace[k].calls[c].newCookie.Some?
    requires trace[k].calls[c].id !in trace[j].rows
    requires exists i :: 0 <= i <= j && trace[k].calls[c].id in trace[i].rows
    ensures m < j && steps[m].Act? && steps[m].c == c
    ensures
      var id := trace[k].calls[c].id;
      && id in trace[m].rows && id in trace[m + 1].rows
      && trace[m + 1].rows[id].validator == Sha256(steps[m].validator)
      && trace[k].calls[c].newCookie == Some(JoinToken(trace[m].rows[id].selector, steps[m].validator))
  {
    hide Next, Enabled, SplitToken;
    var id := trace[k].calls[c].id;
    var i :| 0 <= i <= j && id in trace[i].rows;
    m := RewardedAt(trace, steps, ttl, k, c);
    if j <= m {
      DeletedIsFinal(trace, steps, ttl, id, i, j, m);
    }
  }

  lemma {:induction false} RewardedAt(trace: seq<State>, steps: seq<Action>, ttl: int, k: nat, c: nat) returns (m: nat)
    requires FromStart(trace, steps, ttl) && k < |trace|
    requires c in trace[k].calls && trace[k].calls[c].Accepted? && trace[k].calls[c].newCookie.Some?
    ensures m < k && steps[m].Act? && steps[m].c == c
    ensures
      var id := trace[k].calls[c].id;
      && id in trace[m].rows && id in trace[m + 1].rows
      && trace[m + 1].rows[id].validator == Sha256(steps[m].validator)
      && trace[k].calls[c].newCookie == Some(JoinToken(trace[m].rows[id].selector, steps[m].validator))
  {
    hide Next, Enabled, Inv, SplitToken;
    if c in trace[k - 1].calls && trace[k - 1].calls[c] == trace[k].calls[c] {
      m := RewardedAt(trace, steps, ttl, k - 1, c);
    } else {
      RunKeepsInv(trace, steps, ttl, k - 1);
      OnlyActAccepts(trace[k - 1], steps[k - 1], ttl, c);
      RewardStep(trace[k - 1], ttl, c, steps[k - 1].validator, steps[k - 1].applied);
      m := k - 1;
    }
  }

  // ---------------------------------------------------------------- what a verdict means

  /** Main result: the verdict of a call is decided by where the presented validator stands in
      the history of the row as the call loaded it. In particular the alarm is raised exactly for
      a validator the row never had, one superseded more than once, or one superseded longer ago
      than the grace window. */
  lemma VerdictByHistory(trace: seq<State>, steps: seq<Action>, ttl: int, k: nat, c: nat)
    requires FromStart(trace, steps, ttl) && k < |trace| && c in trace[k].calls && trace[k].calls[c].Clocked?
    ensures
      var call := trace[k].calls[c];
      && SplitToken(call.cookie).Some? && call.id in trace[k].lineage && 1 <= call.version <= |trace[k].lineage[call.id]|
      && var p, history := SplitToken(call.cookie).value.validator, trace[k].lineage[call.id];
      && var last, verdict := call.version - 1, Judge(call.row, p, call.now);
      && (verdict == Expired <==> call.now > history[last].at + ttl)
      && (verdict == Current <==> verdict != Expired && p == history[last].validator)
      && (verdict == Superseded <==> verdict != Expired && last > 0 && p == history[last - 1].validator
                                     && call.now - history[last].at <= GRACE)
      && (verdict == Theft <==> verdict != Expired && p != history[last].validator
                                && (last > 0 && p == history[last - 1].validator ==> call.now - history[last].at > GRACE))
  {
    RunKeepsInv(trace, steps, ttl, k);
    var s, call := trace[k], trace[k].calls[c];
    assert GoodCall(s, ttl, c, call);
    assert GoodHistory(s.lineage[call.id], s.clock, s.drawn);
    hide Inv, IsRun, SplitToken, GoodCall;
  }

  /** Main result: idle tokens die. A call that succeeds with the clock reading t has a row that
      was issued or rotated in [t - ttl, t], and the presented validator was then its newest, or
      was superseded by it at most a grace window before t. */
  lemma SuccessIsRecent(trace: seq<State>, steps: seq<Action>, ttl: int, k: nat, c: nat)
    requires FromStart(trace, steps, ttl) && k < |trace| && c in trace[k].calls && trace[k].calls[c].Accepted?
    ensures
      var call := trace[k].calls[c];
      && SplitToken(call.cookie).Some? && call.id in trace[k].lineage && call.id in trace[k].births
      && 1 <= call.version <= |trace[k].lineage[call.id]| && call.user == trace[k].births[call.id].user
      && var p, history := SplitToken(call.cookie).value.validator, trace[k].lineage[call.id];
      && var stamp := history[call.version - 1].at;
      && call.now - ttl <= stamp <= call.now
      && (|| p == history[call.version - 1].validator
          || (call.version > 1 && p == history[call.version - 2].validator && call.now - stamp <= GRACE))
  {
    RunKeepsInv(trace, steps, ttl, k);
    assert GoodCall(trace[k], ttl, c, trace[k].calls[c]);
    hide Inv, IsRun, SplitToken;
  }

  // ---------------------------------------------------------------- a call on its own

  /** What the caller of Resolve learns from a call that has returned. */
  function OutcomeOf(call: Call): Option<Outcome> {
    match call
    case Accepted(_, _, _, _, user, newCookie) => Some(Authenticated(user, newCookie))
    case Refused(_) => Some(Invalid)
    case _ => None
  }

  lemma PresentAndFind(s: State, ttl: int, c: nat, cookie: string, found: Option<nat>) returns (s': State)
    requires c !in s.calls && SplitToken(cookie).Some? && Finds(s.rows, SplitToken(cookie).value.selector, found)
    ensures IsRun([s, Next(s, Present(c, cookie), ttl), s'], [Present(c, cookie), Find(c, found)], ttl)
    ensures s'.rows == s.rows && s'.clock == s.clock && s'.drawn == s.drawn && c in s'.calls
    ensures s'.calls[c] == match found
                           case None => Refused(cookie)
                           case Some(id) => Loaded(cookie, id, s.rows[id], Version(s, id))
  {
    hide SplitToken;
    var s1 := Next(s, Present(c, cookie), ttl);
    s' := Next(s1, Find(c, found), ttl);
  }

  lemma ReadAndAct(s: State, ttl: int, c: nat, validator: string) returns (s': State)
    requires c in s.calls && s.calls[c].Loaded? && SplitToken(s.calls[c].cookie).Some?
    requires s.calls[c].id in s.rows && s.calls[c].row == s.rows[s.calls[c].id]
    requires validator != "" && validator !in s.drawn
    ensures IsRun([s, Next(s, ReadClock(c), ttl), s'], [ReadClock(c), Act(c, validator, true)], ttl)
    ensures c in s'.calls && OutcomeOf(s'.calls[c]).Some?
    ensures
      (OutcomeOf(s'.calls[c]).value, s'.rows)
      == Alone(s.rows, s.calls[c].id, SplitToken(s.calls[c].cookie).value.validator, s.clock, ttl, validator)
  {
    hide SplitToken, Judge, JoinToken;
    var s1 := Next(s, ReadClock(c), ttl);
    s' := Next(s1, Act(c, validator, true), ttl);
  }

  /** The service method is a run of the protocol: whatever an undisturbed Resolve does, some four
      or fewer steps of the protocol do too, from any state. */
  lemma ResolveIsARun(s: State, ttl: int, c: nat, cookie: string, validator: string, outcome: Outcome, rows: Table)
      returns (trace: seq<State>, steps: seq<Action>)
    requires c !in s.calls && validator != "" && validator !in s.drawn
    requires ResolvesAlone(s.rows, cookie, s.clock, ttl, validator, outcome, rows)
    ensures IsRun(trace, steps, ttl) && trace[0] == s && |steps| <= 4
    ensures
      var end := trace[|steps|];
      end.rows == rows && c in end.calls && OutcomeOf(end.calls[c]) == Some(outcome)
  {
    if SplitToken(cookie).None? {
      steps := [Present(c, cookie)];
      trace := [s, Next(s, steps[0], ttl)];
    } else {
      var parts := SplitToken(cookie).value;
      hide SplitToken, Alone, Next, Enabled, IsRun;
      if id :| id in s.rows && s.rows[id].selector == parts.selector
               && (outcome, rows) == Alone(s.rows, id, parts.validator, s.clock, ttl, validator) {
        var s2 := PresentAndFind(s, ttl, c, cookie, Some(id));
        var s4 := ReadAndAct(s2, ttl, c, validator);
        trace := [s, Next(s, Present(c, cookie), ttl), s2, Next(s2, ReadClock(c), ttl), s4];
        steps := [Present(c, cookie), Find(c, Some(id)), ReadClock(c), Act(c, validator, true)];
        RunsChain(s, trace[1], s2, trace[3], s4, steps[0], steps[1], steps[2], steps[3], ttl);
      } else {
        var s2 := PresentAndFind(s, ttl, c, cookie, None);
        trace := [s, Next(s, Present(c, cookie), ttl), s2];
        steps := [Present(c, cookie), Find(c, None)];
      }
    }
  }

  lemma RunsChain(a: State, b: State, c: State, d: State, e: State, w: Action, x: Action, y: Action, z: Action, ttl: int)
    requires IsRun([a, b, c], [w, x], ttl) && IsRun([c, d, e], [y, z], ttl)
    ensures IsRun([a, b, c, d, e], [w, x, y, z], ttl)
  {
    hide Enabled, Next;
    var first, second := [a, b, c], [c, d, e];
    var before, after := [w, x], [y, z];
    assert Enabled(first[0], before[0]) && first[0 + 1] == Next(first[0], before[0], ttl);
    assert Enabled(first[1], before[1]) && first[1 + 1] == Next(first[1], before[1], ttl);
    assert Enabled(second[0], after[0]) && second[0 + 1] == Next(second[0], after[0], ttl);
    assert Enabled(second[1], after[1]) && second[1 + 1] == Next(second[1], after[1], ttl);
  }
}
