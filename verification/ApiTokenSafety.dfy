/** What holds on every run of the API-token protocol: which texts resolve, that revocation is
    permanent, and how far concurrent issues can overshoot the quota. */
module ApiTokenSafety {
  import opened OptionType
  import opened GoStrings
  import opened Scopes
  import opened TokenText
  import opened ApiTokens
  import opened ApiTokenProtocol

  // ---------------------------------------------------------------- a call between its steps

  predicate Decided(call: Call) {
    call.Verified? || call.Accepted? || call.Rejected? || call.Failed?
  }

  lemma LoadedStep(s: State, a: Action, limits: Limits, c: nat)
    requires Enabled(s, a, limits) && c in s.calls
    ensures c in Next(s, a, limits).calls
    ensures s.calls[c].Loaded? ==> Next(s, a, limits).calls[c] == s.calls[c] || Decided(Next(s, a, limits).calls[c])
    ensures Decided(s.calls[c]) ==> Decided(Next(s, a, limits).calls[c])
  {
  }

  /** A loaded call keeps its snapshot until its own check. */
  lemma {:induction false} SnapshotStays(trace: seq<State>, steps: seq<Action>, limits: Limits, c: nat, i: nat, j: nat)
    requires IsRun(trace, steps, limits) && i <= j < |trace|
    requires c in trace[i].calls && trace[i].calls[c].Loaded?
    ensures c in trace[j].calls && (trace[j].calls[c] == trace[i].calls[c] || Decided(trace[j].calls[c]))
    decreases j - i
  {
    hide Next, Enabled;
    if i < j {
      SnapshotStays(trace, steps, limits, c, i, j - 1);
      LoadedStep(trace[j - 1], steps[j - 1], limits, c);
    }
  }

  // ---------------------------------------------------------------- one call alone is a run

  /** The service's issue is a run of the protocol: begun, counted and written without anybody in
      between, it leaves the same table, and it is stopped at the limit in the same cases. */
  lemma IssueIsARun(s: State, limits: Limits, c: nat, rows: Table, command: Command, allowed: set<string>, id: nat,
                    selector: seq<byte>, validator: seq<byte>, issue: Issue)
    requires IssuesAlone(s.rows, rows, command, s.clock, limits.maxLifetime, limits.maxPerUser, allowed, id, selector, validator, issue)
    requires c !in s.calls && id !in s.issued && |selector| == SELECTOR_BYTES && |validator| == VALIDATOR_BYTES
    requires forall i :: i in s.issued ==> s.issued[i].selector != EncodeToString(selector)
    requires issue.Issued? || issue == Denied(TokenLimit)
    ensures Enabled(s, Begin(c, command.user, command.expiresAt), limits)
    ensures
      var begun := Next(s, Begin(c, command.user, command.expiresAt), limits);
      && Enabled(begun, Count(c), limits)
      && var counted := Next(begun, Count(c), limits);
         && (issue == Denied(TokenLimit) ==> counted.calls[c].AtLimit? && counted.rows == rows)
         && (issue.Issued? ==>
               && id in rows && counted.calls[c].Counted?
               && var create := ApiTokenProtocol.Create(c, id, TrimSpace(command.name), rows[id].scopes, selector, validator);
                  && Enabled(counted, create, limits)
                  && var written := Next(counted, create, limits);
                     written.rows == rows && issue.plaintext == written.issued[id].Text())
  {
    hide EncodeToString, TrimSpace, Validates, ActiveOf;
  }

  // ---------------------------------------------------------------- one step on one row

  /** Every step, row by row: only a prune removes, and exactly what expired or was revoked a retention
      period before its reading; a revocation marks only live rows of its user, a use stamps only the
      row it loaded, and everything else stays as it was. */
  lemma TableStep(s: State, a: Action, limits: Limits, id: nat)
    requires Enabled(s, a, limits) && id in s.rows && !(a.Create? && a.id == id)
    ensures
      var rows', row := Next(s, a, limits).rows, s.rows[id];
      && (id !in rows' <==>
            a.Prune? && (row.expiresAt < a.now - PRUNE_RETENTION || (row.revokedAt.Some? && row.revokedAt.value < a.now - PRUNE_RETENTION)))
      && (id in rows' ==>
            var marks := row.revokedAt.None? && ((a.Revoke? && a.id == id && a.user == row.user) || (a.RevokeAll? && a.user == row.user));
            var stamps := a.Touch? && s.calls[a.c].id == id
                          && !(row.lastUsedAt.Some? && a.now - LAST_USED_INTERVAL <= row.lastUsedAt.value);
            rows'[id] == if marks then row.(revokedAt := Some(a.now)) else if stamps then row.(lastUsedAt := Some(a.now)) else row)
  {
    hide EncodeToString, SplitToken;
  }

  /** Only a create adds a row: the one it was asked for, unrevoked and unused. */
  lemma OnlyCreateAdds(s: State, a: Action, limits: Limits, id: nat)
    requires Enabled(s, a, limits) && id !in s.rows
    ensures
      var rows' := Next(s, a, limits).rows;
      && (id in rows' <==> a.Create? && a.id == id)
      && (id in rows' ==>
            var call := s.calls[a.c];
            rows'[id] == Token(call.user, a.name, EncodeToString(a.selector), Sha256(EncodeToString(a.validator)), a.scopes,
                               call.expiresAt, call.now, None, None))
  {
    hide EncodeToString, SplitToken;
  }

  // ---------------------------------------------------------------- which tokens are revoked

  /** The step is a revocation of this token, or of all tokens, in the name of its owner. */
  ghost predicate Ends(s: State, a: Action, id: nat) {
    && id in s.issued && id in s.rows
    && ((a.Revoke? && a.id == id && a.user == s.issued[id].user) || (a.RevokeAll? && a.user == s.issued[id].user))
  }

  lemma StepRevokes(s: State, a: Action, limits: Limits, id: nat)
    requires Inv(s, limits) && Enabled(s, a, limits)
    ensures id in Next(s, a, limits).revoked <==> id in s.revoked || Ends(s, a, id)
  {
    hide GoodBirths, GoodCalls, EncodeToString, SplitToken;
    assert id in s.rows ==> GoodRow(s, id);
  }

  /** One of the first k steps of the run is such a revocation. */
  ghost predicate EndedBefore(trace: seq<State>, steps: seq<Action>, k: nat, id: nat)
    requires |trace| == |steps| + 1 && k <= |steps|
  {
    exists i: nat :: i < k && Ends(trace[i], steps[i], id)
  }

  lemma EndedOneLater(trace: seq<State>, steps: seq<Action>, k: nat, id: nat)
    requires |trace| == |steps| + 1 && k < |steps|
    ensures EndedBefore(trace, steps, k + 1, id) <==> EndedBefore(trace, steps, k, id) || Ends(trace[k], steps[k], id)
  {
    hide Ends;
  }

  /** Main result: a token is revoked exactly if some step of the run revoked it for its owner. Nobody
      else's revocation, and no other call, ends it. */
  lemma {:induction false} RevokedExactly(trace: seq<State>, steps: seq<Action>, limits: Limits, k: nat, id: nat)
    requires FromStart(trace, steps, limits) && k < |trace|
    ensures id in trace[k].revoked <==> EndedBefore(trace, steps, k, id)
  {
    hide Next, Enabled, Ends, Inv;
    if k > 0 {
      RevokedExactly(trace, steps, limits, k - 1, id);
      RunKeepsInv(trace, steps, limits, k - 1);
      StepRevokes(trace[k - 1], steps[k - 1], limits, id);
      EndedOneLater(trace, steps, k - 1, id);
    }
    hide EndedBefore;
  }

  /** The mark in the table is that of the history. */
  lemma MarkTellsRevoked(s: State, limits: Limits, id: nat)
    requires Inv(s, limits) && id in s.rows
    ensures id in s.issued && (s.rows[id].revokedAt.Some? <==> id in s.revoked)
  {
    hide GoodBirths, GoodCalls;
    assert id in s.issued && GoodRow(s, id);
  }

  // ---------------------------------------------------------------- which texts resolve

  /** The text was handed out for a token that existed unrevoked at the lookup and is unexpired at
      the clock reading of the check. */
  ghost predicate ValidFor(atLookup: State, text: string, now: int) {
    exists id :: id in atLookup.issued && id !in atLookup.revoked
              && text == atLookup.issued[id].Text() && now < atLookup.issued[id].expiresAt
  }

  /** Main result: whatever else runs in between, a Resolve whose lookup is step i and whose check
      is step j succeeds exactly for the plaintext of a token issued and unrevoked at i and
      unexpired at j. Pruning, touching and the table itself do not appear in the condition. */
  lemma ResolveExactly(trace: seq<State>, steps: seq<Action>, limits: Limits, i: nat, j: nat, c: nat, found: Option<nat>)
    requires FromStart(trace, steps, limits) && i < j < |steps|
    requires steps[i] == Find(c, found) && steps[j] == Check(c)
    ensures c in trace[i].calls && trace[i].calls[c].Presented? && c in trace[j + 1].calls
    ensures trace[j + 1].calls[c].Verified? <==> ValidFor(trace[i], trace[i].calls[c].text, trace[j].clock)
    ensures trace[j + 1].calls[c].Rejected? <==> !ValidFor(trace[i], trace[i].calls[c].text, trace[j].clock)
  {
    hide Inv, SplitToken;
    assert trace[i + 1] == Next(trace[i], steps[i], limits);
    assert trace[j + 1] == Next(trace[j], steps[j], limits);
    var loaded := trace[i + 1].calls[c];
    SnapshotStays(trace, steps, limits, c, i + 1, j);
    assert trace[j].calls[c] == loaded;
    DecisionIsValidity(trace, steps, limits, i, j, c, loaded);
  }

  lemma DecisionIsValidity(trace: seq<State>, steps: seq<Action>, limits: Limits, i: nat, j: nat, c: nat, loaded: Call)
    requires FromStart(trace, steps, limits) && i < j < |steps|
    requires c in trace[j].calls && trace[j].calls[c] == loaded && loaded.Loaded?
    requires loaded.live == trace[i].issued.Keys - trace[i].revoked
    ensures loaded.found.Some? && OpensAt(loaded.text, loaded.token, trace[j].clock)
      <==> ValidFor(trace[i], loaded.text, trace[j].clock)
  {
    hide Next, Enabled, GoodCall, OpensAt, SplitToken;
    RunKeepsInv(trace, steps, limits, j);
    RunGrows(trace, steps, limits, i, j);
    assert GoodCall(trace[j], limits, loaded);
    CheckDecides(trace[j], limits, loaded);
    if ValidFor(trace[i], loaded.text, trace[j].clock) {
      var id :| id in trace[i].issued && id !in trace[i].revoked
             && loaded.text == trace[i].issued[id].Text() && trace[j].clock < trace[i].issued[id].expiresAt;
      assert Means(trace[j], loaded.text, id, loaded.live, trace[j].clock);
    }
  }

  lemma {:induction false} RunGrows(trace: seq<State>, steps: seq<Action>, limits: Limits, i: nat, j: nat)
    requires IsRun(trace, steps, limits) && i <= j < |trace|
    ensures Grows(trace[i], trace[j])
    decreases j - i
  {
    hide Next, Enabled;
    if i < j {
      RunGrows(trace, steps, limits, i, j - 1);
      StepGrows(trace[j - 1], steps[j - 1], limits);
    }
  }

  /** Main result: once a token is revoked, no later lookup of its plaintext ever succeeds. */
  lemma RevocationIsPermanent(trace: seq<State>, steps: seq<Action>, limits: Limits, m: nat, id: nat,
                              i: nat, j: nat, c: nat, found: Option<nat>)
    requires FromStart(trace, steps, limits) && m <= i < j < |steps|
    requires id in trace[m].revoked && id in trace[m].issued
    requires steps[i] == Find(c, found) && steps[j] == Check(c)
    requires c in trace[i].calls && trace[i].calls[c].Presented? && trace[i].calls[c].text == trace[m].issued[id].Text()
    ensures c in trace[j + 1].calls && trace[j + 1].calls[c].Rejected?
  {
    hide Next, Enabled, SplitToken;
    RunKeepsInv(trace, steps, limits, i);
    RunGrows(trace, steps, limits, m, i);
    RevokedIsInvalid(trace[i], limits, id, trace[j].clock);
    ResolveExactly(trace, steps, limits, i, j, c, found);
  }

  lemma RevokedIsInvalid(s: State, limits: Limits, id: nat, now: int)
    requires GoodBirths(s, limits) && id in s.issued && id in s.revoked
    ensures !ValidFor(s, s.issued[id].Text(), now)
  {
    hide GoodBirths;
    forall other | other in s.issued && s.issued[other].Text() == s.issued[id].Text() ensures other == id {
      TextNamesToken(s, limits, id, other);
    }
  }

  lemma TextNamesToken(s: State, limits: Limits, id: nat, other: nat)
    requires GoodBirths(s, limits) && id in s.issued && other in s.issued
    requires s.issued[id].Text() == s.issued[other].Text()
    ensures id == other
  {
  }

  /** Main result: a success names a token created less than the maximal lifetime before its check. */
  lemma SuccessIsYoung(trace: seq<State>, steps: seq<Action>, limits: Limits, k: nat, c: nat)
    requires FromStart(trace, steps, limits) && k < |trace|
    requires c in trace[k].calls && (trace[k].calls[c].Verified? || trace[k].calls[c].Accepted?)
    ensures
      var call := trace[k].calls[c];
      && call.id in trace[k].issued && call.text == trace[k].issued[call.id].Text()
      && call.checkedAt < trace[k].issued[call.id].expiresAt
      && call.checkedAt < trace[k].issued[call.id].createdAt + limits.maxLifetime
  {
    hide Next, Enabled, SplitToken;
    RunKeepsInv(trace, steps, limits, k);
    assert GoodCall(trace[k], limits, trace[k].calls[c]);
    assert GoodBirth(trace[k].issued[trace[k].calls[c].id], trace[k].clock, limits);
  }

  /** A user's tokens as they were issued and revoked: those active at a clock reading. */
  function IssuedActive(s: State, user: nat, t: int): set<nat> {
    set id | id in s.issued && id !in s.revoked && s.issued[id].user == user && t < s.issued[id].expiresAt
  }

  lemma RowsTellIssued(s: State, limits: Limits, user: nat, t: int)
    requires Inv(s, limits) && s.clock - PRUNE_RETENTION <= t
    ensures ActiveOf(s.rows, user, t) == IssuedActive(s, user, t)
  {
  }

  lemma RowsTellTexts(s: State, limits: Limits, text: string, t: int)
    requires Inv(s, limits) && s.clock - PRUNE_RETENTION <= t
    ensures (exists id :: id in s.rows && Opens(text, s.rows[id], t)) <==> ValidFor(s, text, t)
  {
    hide SplitToken, GoodCalls;
    if id :| id in s.rows && Opens(text, s.rows[id], t) {
      assert GoodRow(s, id) && GoodBirth(s.issued[id], s.clock, limits);
      SplitIffPrint(text, s.issued[id].selector, s.issued[id].validator);
    }
    if ValidFor(s, text, t) {
      var id :| id in s.issued && id !in s.revoked && text == s.issued[id].Text() && t < s.issued[id].expiresAt;
      assert GoodRow(s, id) && GoodBirth(s.issued[id], s.clock, limits);
    }
  }

  /** Main result: pruning is invisible to every later count and lookup. However many prunes a run
      contains and whenever their clock readings were taken, what a count or a lookup finds in the
      table, at any reading up to the retention period old, is what was issued, not revoked and not
      expired at that reading. */
  lemma PruneIsInvisible(trace: seq<State>, steps: seq<Action>, limits: Limits, k: nat, user: nat, text: string, t: int)
    requires FromStart(trace, steps, limits) && k < |trace| && trace[k].clock - PRUNE_RETENTION <= t
    ensures ActiveOf(trace[k].rows, user, t) == IssuedActive(trace[k], user, t)
    ensures (exists id :: id in trace[k].rows && Opens(text, trace[k].rows[id], t)) <==> ValidFor(trace[k], text, t)
  {
    hide Next, Enabled, Inv, Opens, ActiveOf;
    RunKeepsInv(trace, steps, limits, k);
    RowsTellIssued(trace[k], limits, user, t);
    RowsTellTexts(trace[k], limits, text, t);
  }

  // ---------------------------------------------------------------- the quota

  /** The issue calls of a user that have passed the count and not yet written their row. */
  function Pending(s: State, user: nat): set<nat> {
    set c | c in s.calls && s.calls[c].Counted? && s.calls[c].user == user
  }

  function Active(s: State, user: nat): set<nat> {
    ActiveOf(s.rows, user, s.clock)
  }

  lemma {:induction false} SubsetIsSmaller(a: set<nat>, b: set<nat>)
    requires a <= b
    ensures |a| <= |b|
  {
    if a != {} {
      var x :| x in a;
      SubsetIsSmaller(a - {x}, b - {x});
    }
  }

  /** Time passing only makes tokens inactive, so a count at an older reading is an upper bound. */
  lemma OlderCountIsLarger(rows: Table, user: nat, t: int, now: int)
    requires t <= now
    ensures |ActiveOf(rows, user, now)| <= |ActiveOf(rows, user, t)|
  {
    SubsetIsSmaller(ActiveOf(rows, user, now), ActiveOf(rows, user, t));
  }

  /** A count that lets its call pass saw fewer than the limit, and there are no more now. */
  lemma PassedCount(s: State, limits: Limits, c: nat)
    requires GoodCalls(s, limits) && Enabled(s, Count(c), limits) && Next(s, Count(c), limits).calls[c].Counted?
    ensures |Active(s, s.calls[c].user)| < limits.maxPerUser
  {
    hide ActiveOf;
    assert GoodCall(s, limits, s.calls[c]);
    OlderCountIsLarger(s.rows, s.calls[c].user, s.calls[c].now, s.clock);
  }

  /** A count changes no row, and the pending calls of one user only if his call passes. */
  lemma CountPending(s: State, limits: Limits, c: nat, user: nat)
    requires Enabled(s, Count(c), limits)
    ensures
      var s' := Next(s, Count(c), limits);
      && Active(s', user) == Active(s, user) && c in s'.calls
      && (!(s'.calls[c].Counted? && s.calls[c].user == user) ==> Pending(s', user) == Pending(s, user))
  {
  }

  lemma CountKeepsQuota(s: State, limits: Limits, c: nat, user: nat, n: nat)
    requires Inv(s, limits) && Enabled(s, Count(c), limits) && n >= 1
    requires |Active(s, user)| + |Pending(s, user)| <= limits.maxPerUser + n - 1
    requires |Pending(Next(s, Count(c), limits), user)| <= n
    ensures
      var s' := Next(s, Count(c), limits);
      |Active(s', user)| + |Pending(s', user)| <= limits.maxPerUser + n - 1
  {
    hide Next, Active, Pending, GoodBirths, GoodTable, GoodCalls;
    CountPending(s, limits, c, user);
    if Next(s, Count(c), limits).calls[c].Counted? && s.calls[c].user == user {
      PassedCount(s, limits, c);
    }
  }

  lemma CreatePending(s: State, limits: Limits, a: Action, user: nat)
    requires a.Create? && Enabled(s, a, limits)
    ensures Pending(Next(s, a, limits), user) == if s.calls[a.c].user == user then Pending(s, user) - {a.c} else Pending(s, user)
  {
  }

  lemma CreateActive(s: State, limits: Limits, a: Action, user: nat)
    requires a.Create? && Enabled(s, a, limits) && a.id !in s.rows
    ensures Active(Next(s, a, limits), user) <= Active(s, user) + if s.calls[a.c].user == user then {a.id} else {}
  {
  }

  lemma CreateKeepsQuota(s: State, limits: Limits, a: Action, user: nat)
    requires Inv(s, limits) && a.Create? && Enabled(s, a, limits)
    ensures
      var s' := Next(s, a, limits);
      |Active(s', user)| + |Pending(s', user)| <= |Active(s, user)| + |Pending(s, user)|
  {
    hide EncodeToString, Inv, Next, Active;
    IdIsNew(s, limits, a.id);
    CreatePending(s, limits, a, user);
    CreateActive(s, limits, a, user);
    SubsetIsSmaller(Active(Next(s, a, limits), user), Active(s, user) + if s.calls[a.c].user == user then {a.id} else {});
  }

  lemma IdIsNew(s: State, limits: Limits, id: nat)
    requires Inv(s, limits) && id !in s.issued
    ensures id !in s.rows
  {
  }

  /** Every other step can only lower both numbers. */
  lemma OthersKeepQuota(s: State, limits: Limits, a: Action, user: nat)
    requires Enabled(s, a, limits) && !a.Count? && !a.Create?
    ensures
      var s' := Next(s, a, limits);
      |Active(s', user)| <= |Active(s, user)| && |Pending(s', user)| <= |Pending(s, user)|
  {
    hide EncodeToString, Opens;
    var s' := Next(s, a, limits);
    SubsetIsSmaller(Active(s', user), Active(s, user));
    SubsetIsSmaller(Pending(s', user), Pending(s, user));
  }

  /** Main result: if at most n issue calls of a user are ever between count and create at once,
      active tokens and such calls together never exceed the limit by more than n - 1, although
      each count uses an older clock reading. With n = 1 the quota is exact. */
  lemma {:induction false} QuotaHolds(trace: seq<State>, steps: seq<Action>, limits: Limits, user: nat, n: nat, k: nat)
    requires FromStart(trace, steps, limits) && k < |trace| && n >= 1
    requires forall i :: 0 <= i <= k ==> |Pending(trace[i], user)| <= n
    ensures |Active(trace[k], user)| + |Pending(trace[k], user)| <= limits.maxPerUser + n - 1
    ensures n == 1 ==> |Active(trace[k], user)| <= limits.maxPerUser
  {
    hide Inv, Next, Enabled, Active, Pending;
    if k == 0 {
      NothingAtStart(user);
    } else {
      QuotaHolds(trace, steps, limits, user, n, k - 1);
      RunKeepsInv(trace, steps, limits, k - 1);
      var a := steps[k - 1];
      assert trace[k] == Next(trace[k - 1], a, limits);
      if a.Count? {
        CountKeepsQuota(trace[k - 1], limits, a.c, user, n);
      } else if a.Create? {
        CreateKeepsQuota(trace[k - 1], limits, a, user);
      } else {
        OthersKeepQuota(trace[k - 1], limits, a, user);
      }
    }
  }

  lemma NothingAtStart(user: nat)
    ensures Active(INITIAL, user) == {} && Pending(INITIAL, user) == {}
  {
  }

  // ---------------------------------------------------------------- the bound is tight

  const ZEROES: seq<byte> := seq(VALIDATOR_BYTES, _ => 0)

  /** The state is reached by a run in which never more than n issue calls of the user overlap. */
  ghost predicate Reaches(s: State, trace: seq<State>, steps: seq<Action>, limits: Limits, user: nat, n: nat) {
    && FromStart(trace, steps, limits) && trace[|steps|] == s
    && forall i :: 0 <= i < |trace| ==> |Pending(trace[i], user)| <= n
  }

  ghost predicate Reachable(s: State, limits: Limits, user: nat, n: nat) {
    exists trace, steps :: Reaches(s, trace, steps, limits, user, n)
  }

  lemma ReachOneMore(s: State, a: Action, limits: Limits, user: nat, n: nat)
    requires Reachable(s, limits, user, n) && Enabled(s, a, limits)
    requires |Pending(Next(s, a, limits), user)| <= n
    ensures Reachable(Next(s, a, limits), limits, user, n)
  {
    hide Next, Enabled, Pending;
    var trace, steps :| Reaches(s, trace, steps, limits, user, n);
    assert Reaches(Next(s, a, limits), trace + [Next(s, a, limits)], steps + [a], limits, user, n);
  }

  ghost predicate Wrote(s: State, user: nat, selectors: seq<seq<byte>>, i: nat) {
    && i in s.calls && i in s.issued && i in s.rows && i < |selectors|
    && s.calls[i] == Created(i) && s.issued[i].selector == EncodeToString(selectors[i])
    && s.rows[i].user == user && s.rows[i].expiresAt == 1 && s.rows[i].revokedAt.None?
  }

  ghost predicate Passed(s: State, user: nat, i: nat) {
    i in s.calls && s.calls[i] == Counted(user, 1, 0)
  }

  /** Calls 0 .. written have written their rows, calls written .. begun have passed the count. */
  ghost predicate Shaped(s: State, user: nat, selectors: seq<seq<byte>>, written: nat, begun: nat) {
    && s.clock == 0 && written <= begun && written <= |selectors|
    && (forall i :: i in s.calls <==> 0 <= i < begun)
    && (forall i :: i in s.issued <==> 0 <= i < written)
    && (forall i :: i in s.rows <==> 0 <= i < written)
    && (forall i :: 0 <= i < written ==> Wrote(s, user, selectors, i))
    && (forall i :: written <= i < begun ==> Passed(s, user, i))
  }

  lemma {:induction false} RangeSize(set1: set<nat>, from: nat, to: nat)
    requires from <= to && forall i :: i in set1 <==> from <= i < to
    ensures |set1| == to - from
  {
    if from < to {
      RangeSize(set1 - {to - 1}, from, to - 1);
    } else {
      assert set1 == {};
    }
  }

  lemma ShapeCounts(s: State, user: nat, selectors: seq<seq<byte>>, written: nat, begun: nat)
    requires Shaped(s, user, selectors, written, begun)
    ensures |Active(s, user)| == written && |Pending(s, user)| == begun - written
    ensures |ActiveOf(s.rows, user, 0)| == written
  {
    hide EncodeToString;
    forall i ensures i in Active(s, user) <==> 0 <= i < written {
      if 0 <= i < written { assert Wrote(s, user, selectors, i); }
    }
    forall i ensures i in Pending(s, user) <==> written <= i < begun {
      if 0 <= i < written { assert Wrote(s, user, selectors, i); }
      if written <= i < begun { assert Passed(s, user, i); }
    }
    RangeSize(Active(s, user), 0, written);
    RangeSize(Pending(s, user), written, begun);
  }

  /** In between, the new call has only been validated. */
  lemma BeginShapes(s: State, limits: Limits, user: nat, selectors: seq<seq<byte>>, written: nat, begun: nat)
    requires Shaped(s, user, selectors, written, begun) && limits.maxLifetime >= 1
    ensures Enabled(s, Begin(begun, user, 1), limits)
    ensures
      var between := Next(s, Begin(begun, user, 1), limits);
      && between == s.(calls := s.calls[begun := Validated(user, 1, 0)])
      && Pending(between, user) == Pending(s, user)
  {
  }

  lemma CountPasses(s: State, limits: Limits, user: nat, selectors: seq<seq<byte>>, written: nat, begun: nat)
    requires Shaped(s, user, selectors, written, begun) && written < limits.maxPerUser
    ensures
      var between := s.(calls := s.calls[begun := Validated(user, 1, 0)]);
      && Enabled(between, Count(begun), limits)
      && Next(between, Count(begun), limits) == s.(calls := s.calls[begun := Counted(user, 1, 0)])
  {
    ShapeCounts(s, user, selectors, written, begun);
    hide Shaped, ActiveOf;
    var between := s.(calls := s.calls[begun := Validated(user, 1, 0)]);
    assert between.calls[begun := Counted(user, 1, 0)] == s.calls[begun := Counted(user, 1, 0)];
  }

  lemma CountShapes(s: State, user: nat, selectors: seq<seq<byte>>, written: nat, begun: nat)
    requires Shaped(s, user, selectors, written, begun)
    ensures Shaped(s.(calls := s.calls[begun := Counted(user, 1, 0)]), user, selectors, written, begun + 1)
  {
    hide EncodeToString;
    var s' := s.(calls := s.calls[begun := Counted(user, 1, 0)]);
    forall i | 0 <= i < written ensures Wrote(s', user, selectors, i) {
      assert Wrote(s, user, selectors, i);
    }
    forall i | written <= i < begun + 1 ensures Passed(s', user, i) {
      assert i < begun ==> Passed(s, user, i);
    }
  }

  lemma BeginAndCount(s: State, limits: Limits, user: nat, n: nat, selectors: seq<seq<byte>>, written: nat, begun: nat)
    returns (s': State)
    requires Reachable(s, limits, user, n) && Shaped(s, user, selectors, written, begun)
    requires written < limits.maxPerUser && begun - written < n && limits.maxLifetime >= 1
    ensures Reachable(s', limits, user, n) && Shaped(s', user, selectors, written, begun + 1)
  {
    hide Reachable, Shaped, Enabled, Next, Pending;
    ShapeCounts(s, user, selectors, written, begun);
    BeginShapes(s, limits, user, selectors, written, begun);
    var between := Next(s, Begin(begun, user, 1), limits);
    ReachOneMore(s, Begin(begun, user, 1), limits, user, n);
    CountPasses(s, limits, user, selectors, written, begun);
    CountShapes(s, user, selectors, written, begun);
    s' := Next(between, Count(begun), limits);
    ShapeCounts(s', user, selectors, written, begun + 1);
    ReachOneMore(between, Count(begun), limits, user, n);
  }

  lemma TextsDiffer(selectors: seq<seq<byte>>, i: nat, j: nat)
    requires Drawable(selectors) && i < j < |selectors|
    ensures EncodeToString(selectors[i]) != EncodeToString(selectors[j])
  {
    hide EncodeToString, DecodeString;
    EncodingRoundTrip(selectors[i]);
    EncodingRoundTrip(selectors[j]);
  }

  lemma WriteIsEnabled(s: State, limits: Limits, user: nat, selectors: seq<seq<byte>>, written: nat, begun: nat, a: Action)
    requires Shaped(s, user, selectors, written, begun)
    requires written < begun && written < |selectors| && Drawable(selectors)
    requires a == Create(written, written, "name", [], selectors[written], ZEROES)
    ensures Enabled(s, a, limits)
  {
    hide EncodeToString;
    assert Passed(s, user, written);
    forall i | i in s.issued ensures s.issued[i].selector != EncodeToString(selectors[written]) {
      assert Wrote(s, user, selectors, i);
      TextsDiffer(selectors, i, written);
    }
  }

  lemma WriteShapes(s: State, limits: Limits, user: nat, selectors: seq<seq<byte>>, written: nat, begun: nat, a: Action)
    requires Shaped(s, user, selectors, written, begun) && written < begun && written < |selectors|
    requires a == Create(written, written, "name", [], selectors[written], ZEROES)
    requires Enabled(s, a, limits)
    ensures Shaped(Next(s, a, limits), user, selectors, written + 1, begun)
  {
    hide EncodeToString, Enabled;
    var s' := Next(s, a, limits);
    assert Passed(s, user, written);
    forall i | 0 <= i < written + 1 ensures Wrote(s', user, selectors, i) {
      assert i < written ==> Wrote(s, user, selectors, i);
    }
    forall i | written + 1 <= i < begun ensures Passed(s', user, i) {
      assert Passed(s, user, i);
    }
  }

  lemma WriteOne(s: State, limits: Limits, user: nat, n: nat, selectors: seq<seq<byte>>, written: nat, begun: nat)
    returns (s': State)
    requires Reachable(s, limits, user, n) && Shaped(s, user, selectors, written, begun)
    requires written < begun && written < |selectors| && begun - written <= n && Drawable(selectors)
    ensures Reachable(s', limits, user, n) && Shaped(s', user, selectors, written + 1, begun)
  {
    hide Reachable, Shaped, Enabled, Next, Pending;
    var a := Create(written, written, "name", [], selectors[written], ZEROES);
    WriteIsEnabled(s, limits, user, selectors, written, begun, a);
    WriteShapes(s, limits, user, selectors, written, begun, a);
    s' := Next(s, a, limits);
    ShapeCounts(s', user, selectors, written + 1, begun);
    ReachOneMore(s, a, limits, user, n);
  }

  ghost predicate Drawable(selectors: seq<seq<byte>>) {
    && (forall i :: 0 <= i < |selectors| ==> |selectors[i]| == SELECTOR_BYTES)
    && (forall i, j :: 0 <= i < j < |selectors| ==> selectors[i] != selectors[j])
  }

  /** One issue after the other fills the table up to the limit less one. */
  lemma {:induction false} FillUp(limits: Limits, user: nat, n: nat, selectors: seq<seq<byte>>, written: nat) returns (s: State)
    requires n >= 1 && limits.maxLifetime >= 1 && Drawable(selectors)
    requires written < limits.maxPerUser && written <= |selectors|
    ensures Reachable(s, limits, user, n) && Shaped(s, user, selectors, written, written)
  {
    hide Reachable, Shaped, Drawable;
    if written == 0 {
      s := INITIAL;
      StartIsReachable(limits, user, n, selectors);
    } else {
      s := FillUp(limits, user, n, selectors, written - 1);
      s := BeginAndCount(s, limits, user, n, selectors, written - 1, written - 1);
      s := WriteOne(s, limits, user, n, selectors, written - 1, written);
    }
  }

  lemma StartIsReachable(limits: Limits, user: nat, n: nat, selectors: seq<seq<byte>>)
    ensures Reachable(INITIAL, limits, user, n) && Shaped(INITIAL, user, selectors, 0, 0)
  {
    NothingAtStart(user);
    assert Reaches(INITIAL, [INITIAL], [], limits, user, n);
  }

  lemma {:induction false} CountMany(s: State, limits: Limits, user: nat, n: nat, selectors: seq<seq<byte>>, written: nat, p: nat)
    returns (s': State)
    requires Reachable(s, limits, user, n) && Shaped(s, user, selectors, written, written)
    requires written < limits.maxPerUser && limits.maxLifetime >= 1 && p <= n
    ensures Reachable(s', limits, user, n) && Shaped(s', user, selectors, written, written + p)
  {
    hide Reachable, Shaped;
    s' := s;
    if p > 0 {
      s' := CountMany(s, limits, user, n, selectors, written, p - 1);
      s' := BeginAndCount(s', limits, user, n, selectors, written, written + p - 1);
    }
  }

  lemma {:induction false} WriteMany(s: State, limits: Limits, user: nat, n: nat, selectors: seq<seq<byte>>, written: nat, begun: nat)
    returns (s': State)
    requires Reachable(s, limits, user, n) && Shaped(s, user, selectors, written, begun)
    requires written <= begun <= |selectors| && begun - written <= n && Drawable(selectors)
    ensures Reachable(s', limits, user, n) && Shaped(s', user, selectors, begun, begun)
    decreases begun - written
  {
    hide Reachable, Shaped;
    s' := s;
    if written < begun {
      s' := WriteOne(s', limits, user, n, selectors, written, begun);
      s' := WriteMany(s', limits, user, n, selectors, written + 1, begun);
    }
  }

  /** Main result: the bound cannot be lowered. For every limit and every n, some run with at most
      n overlapping issues ends with limit + n - 1 active tokens, as long as that many different
      selectors can be drawn. */
  lemma QuotaIsTight(limits: Limits, user: nat, n: nat, selectors: seq<seq<byte>>) returns (s: State)
    requires n >= 1 && limits.maxPerUser >= 1 && limits.maxLifetime >= 1
    requires Drawable(selectors) && |selectors| == limits.maxPerUser + n - 1
    ensures Reachable(s, limits, user, n)
    ensures |Active(s, user)| == limits.maxPerUser + n - 1
  {
    hide Reachable, Shaped;
    var max := limits.maxPerUser;
    s := FillUp(limits, user, n, selectors, max - 1);
    s := CountMany(s, limits, user, n, selectors, max - 1, n);
    s := WriteMany(s, limits, user, n, selectors, max - 1, max + n - 1);
    ShapeCounts(s, user, selectors, max + n - 1, max + n - 1);
  }
}
