/** Any number of concurrent calls of the remember service, interleaved at every statement that
    reads or changes the shared table (services/remember.go, repositories/remember.go).

    One table statement is one step; a call keeps the row it loaded and the clock reading it took
    while other calls run. The clock is shared and never goes back, all calls use one ttl, and
    random draws (ids, selectors, validators) are new. A step may also fail with an internal
    error, and a delete whose error the code ignores may have had no effect.

    `births` and `lineage` only record history: who each row was issued to, and every validator
    it ever had. No step's choice depends on them. */
module RememberProtocol {
  import opened OptionType
  import opened RememberTokens

  /** A validator of a row: the clock reading and the call that brought it in. */
  datatype Entry = Entry(validator: string, at: int, call: nat)

  datatype Birth = Birth(user: nat, selector: string, call: nat)

  /** Where a call stands. `version` counts the validators the row had when it was loaded. */
  datatype Call =
    | Presented(cookie: string)
    | Loaded(cookie: string, id: nat, row: Row, version: nat)
    | Clocked(cookie: string, id: nat, row: Row, version: nat, now: int)
    | Accepted(cookie: string, id: nat, version: nat, now: int, user: nat, newCookie: Option<string>)
    | Refused(cookie: string)
    | Failed
    | Drawn(id: nat, user: nat, selector: string, validator: string, at: int)
    | Issued(cookie: string)
    | Revoking(cookie: string)
    | RevokeFound(id: nat)
    | Pruning(now: int)
    | Finished

  datatype State = State(
    clock: int,
    rows: Table,
    calls: map<nat, Call>,
    drawn: set<string>,
    births: map<nat, Birth>,
    lineage: map<nat, seq<Entry>>)

  datatype Action =
    | Tick(to: int)
    | Present(c: nat, cookie: string)
    | Find(c: nat, found: Option<nat>)
    | ReadClock(c: nat)
    | Act(c: nat, validator: string, applied: bool)
    | Fail(c: nat)
    | Draw(c: nat, id: nat, user: nat, selector: string, validator: string)
    | Create(c: nat)
    | Revoke(c: nat, cookie: string)
    | FindRevoked(c: nat, found: Option<nat>)
    | DeleteRevoked(c: nat)
    | RevokeAll(user: nat)
    | Prune(c: nat)
    | DeletePruned(c: nat)

  const INITIAL := State(0, map[], map[], {}, map[], map[])

  /** The answer FindBySelector may give. */
  ghost predicate Finds(rows: Table, selector: string, found: Option<nat>) {
    match found
    case Some(id) => id in rows && rows[id].selector == selector
    case None => forall id :: id in rows ==> rows[id].selector != selector
  }

  ghost predicate Enabled(s: State, a: Action) {
    match a
    case Tick(to) => s.clock <= to
    case Present(c, _) => c !in s.calls
    case Find(c, found) =>
      c in s.calls && s.calls[c].Presented? && SplitToken(s.calls[c].cookie).Some?
      && Finds(s.rows, SplitToken(s.calls[c].cookie).value.selector, found)
    case ReadClock(c) => c in s.calls && s.calls[c].Loaded?
    case Act(c, validator, _) =>
      c in s.calls && s.calls[c].Clocked? && SplitToken(s.calls[c].cookie).Some?
      && validator != "" && validator !in s.drawn
    case Fail(c) =>
      c in s.calls && (s.calls[c].Presented? || s.calls[c].Loaded? || s.calls[c].Clocked? || s.calls[c].Drawn?
                       || s.calls[c].Revoking? || s.calls[c].RevokeFound? || s.calls[c].Pruning?)
    case Draw(c, id, _, selector, validator) =>
      c !in s.calls && id !in s.births && selector != "" && ':' !in selector
      && (forall i :: i in s.births ==> s.births[i].selector != selector)
      && validator != "" && validator !in s.drawn
    case Create(c) => c in s.calls && s.calls[c].Drawn?
    case Revoke(c, _) => c !in s.calls
    case FindRevoked(c, found) =>
      c in s.calls && s.calls[c].Revoking? && SplitToken(s.calls[c].cookie).Some?
      && Finds(s.rows, SplitToken(s.calls[c].cookie).value.selector, found)
    case DeleteRevoked(c) => c in s.calls && s.calls[c].RevokeFound?
    case RevokeAll(_) => true
    case Prune(c) => c !in s.calls
    case DeletePruned(c) => c in s.calls && s.calls[c].Pruning?
  }

  /** The verdict of a call that has its row and its clock reading, carried out. */
  function Carry(s: State, c: nat, call: Call, ttl: int, validator: string, applied: bool): State
    requires call.Clocked? && SplitToken(call.cookie).Some?
  {
    var presented := SplitToken(call.cookie).value.validator;
    match Judge(call.row, presented, call.now)
    case Expired => s.(rows := if applied then s.rows - {call.id} else s.rows, calls := s.calls[c := Refused(call.cookie)])
    case Theft => s.(rows := if applied then WithoutUser(s.rows, call.row.user) else s.rows, calls := s.calls[c := Refused(call.cookie)])
    case Superseded => s.(calls := s.calls[c := Accepted(call.cookie, call.id, call.version, call.now, call.row.user, None)])
    case Current =>
      var won := call.id in s.rows && s.rows[call.id].validator == call.row.validator;
      s.(drawn := s.drawn + {validator},
         rows := Rotated(s.rows, call.id, call.row.validator, Sha256(validator), call.row.validator, call.now, call.now + ttl),
         lineage := if won && call.id in s.lineage
                    then s.lineage[call.id := s.lineage[call.id] + [Entry(validator, call.now, c)]] else s.lineage,
         calls := s.calls[c := Accepted(call.cookie, call.id, call.version, call.now, call.row.user,
                                        if won then Some(JoinToken(call.row.selector, validator)) else None)])
  }

  function Version(s: State, id: nat): nat {
    if id in s.lineage then |s.lineage[id]| else 0
  }

  function Next(s: State, a: Action, ttl: int): State
    requires Enabled(s, a)
  {
    match a
    case Tick(to) => s.(clock := to)
    case Present(c, cookie) =>
      s.(calls := s.calls[c := if SplitToken(cookie).None? then Refused(cookie) else Presented(cookie)])
    case Find(c, found) =>
      var cookie := s.calls[c].cookie;
      s.(calls := s.calls[c := match found
                               case None => Refused(cookie)
                               case Some(id) => Loaded(cookie, id, s.rows[id], Version(s, id))])
    case ReadClock(c) =>
      var call := s.calls[c];
      s.(calls := s.calls[c := Clocked(call.cookie, call.id, call.row, call.version, s.clock)])
    case Act(c, validator, applied) => Carry(s, c, s.calls[c], ttl, validator, applied)
    case Fail(c) => s.(calls := s.calls[c := Failed])
    case Draw(c, id, user, selector, validator) =>
      s.(calls := s.calls[c := Drawn(id, user, selector, validator, s.clock)],
         drawn := s.drawn + {validator},
         births := s.births[id := Birth(user, selector, c)])
    case Create(c) =>
      var call := s.calls[c];
      s.(calls := s.calls[c := Issued(JoinToken(call.selector, call.validator))],
         rows := s.rows[call.id := Row(call.user, call.selector, Sha256(call.validator), NoDigest, None, call.at + ttl)],
         lineage := s.lineage[call.id := [Entry(call.validator, call.at, c)]])
    case Revoke(c, cookie) =>
      s.(calls := s.calls[c := if SplitToken(cookie).None? then Finished else Revoking(cookie)])
    case FindRevoked(c, found) =>
      s.(calls := s.calls[c := match found case None => Finished case Some(id) => RevokeFound(id)])
    case DeleteRevoked(c) => s.(rows := s.rows - {s.calls[c].id}, calls := s.calls[c := Finished])
    case RevokeAll(user) => s.(rows := WithoutUser(s.rows, user))
    case Prune(c) => s.(calls := s.calls[c := Pruning(s.clock)])
    case DeletePruned(c) => s.(rows := WithoutExpired(s.rows, s.calls[c].now), calls := s.calls[c := Finished])
  }

  /** A run: the states it goes through and the steps it takes, in any interleaving. */
  ghost predicate IsRun(trace: seq<State>, steps: seq<Action>, ttl: int) {
    && |trace| == |steps| + 1
    && forall i :: 0 <= i < |steps| ==> Enabled(trace[i], steps[i]) && trace[i + 1] == Next(trace[i], steps[i], ttl)
  }

  ghost predicate FromStart(trace: seq<State>, steps: seq<Action>, ttl: int) {
    IsRun(trace, steps, ttl) && trace[0] == INITIAL
  }

  // ---------------------------------------------------------------- the invariant

  /** The row that a history of validators leaves behind. */
  function RowAt(birth: Birth, history: seq<Entry>, ttl: int): Row
    requires history != []
  {
    var last := |history| - 1;
    Row(birth.user, birth.selector, Sha256(history[last].validator),
        if last == 0 then NoDigest else Sha256(history[last - 1].validator),
        if last == 0 then None else Some(history[last].at),
        history[last].at + ttl)
  }

  ghost predicate GoodHistory(history: seq<Entry>, clock: int, drawn: set<string>) {
    && history != []
    && (forall i, j :: 0 <= i < j < |history| ==> history[i].validator != history[j].validator && history[i].at <= history[j].at)
    && (forall i :: 0 <= i < |history| ==> history[i].validator in drawn && history[i].at <= clock)
  }

  /** The call saw the row as its first `version` validators had left it. */
  ghost predicate Saw(s: State, cookie: string, id: nat, version: nat) {
    && SplitToken(cookie).Some?
    && id in s.lineage && id in s.births
    && s.births[id].selector == SplitToken(cookie).value.selector
    && 1 <= version <= |s.lineage[id]|
  }

  function Seen(s: State, ttl: int, id: nat, version: nat): Row
    requires id in s.lineage && id in s.births && 1 <= version <= |s.lineage[id]|
  {
    RowAt(s.births[id], s.lineage[id][..version], ttl)
  }

  ghost predicate GoodCall(s: State, ttl: int, c: nat, call: Call) {
    match call
    case Presented(cookie) => SplitToken(cookie).Some?
    case Loaded(cookie, id, row, version) => Saw(s, cookie, id, version) && row == Seen(s, ttl, id, version)
    case Clocked(cookie, id, row, version, now) =>
      && Saw(s, cookie, id, version) && row == Seen(s, ttl, id, version)
      && s.lineage[id][version - 1].at <= now <= s.clock
    case Accepted(cookie, id, version, now, user, newCookie) =>
      && Saw(s, cookie, id, version) && user == s.births[id].user
      && s.lineage[id][version - 1].at <= now <= s.clock
      && var verdict := Judge(Seen(s, ttl, id, version), SplitToken(cookie).value.validator, now);
      && (verdict.Current? || verdict.Superseded?)
      && (newCookie.Some? ==>
            && verdict.Current? && version < |s.lineage[id]| && s.lineage[id][version].call == c
            && newCookie.value == JoinToken(s.births[id].selector, s.lineage[id][version].validator))
    case Drawn(id, user, selector, validator, at) =>
      && id in s.births && s.births[id] == Birth(user, selector, c)
      && id !in s.lineage && at <= s.clock && validator in s.drawn
    case _ => true
  }

  ghost predicate GoodTable(s: State, ttl: int) {
    && s.rows.Keys <= s.lineage.Keys <= s.births.Keys
    && forall id :: id in s.rows ==> s.lineage[id] != [] && s.rows[id] == RowAt(s.births[id], s.lineage[id], ttl)
  }

  ghost predicate GoodBirths(s: State) {
    && (forall i, j :: i in s.births && j in s.births && s.births[i].selector == s.births[j].selector ==> i == j)
    && (forall id :: id in s.births ==> s.births[id].selector != "" && ':' !in s.births[id].selector)
  }

  ghost predicate GoodHistories(s: State) {
    forall id :: id in s.lineage ==> GoodHistory(s.lineage[id], s.clock, s.drawn)
  }

  ghost predicate GoodCalls(s: State, ttl: int) {
    forall c :: c in s.calls ==> GoodCall(s, ttl, c, s.calls[c])
  }

  ghost predicate Inv(s: State, ttl: int) {
    GoodTable(s, ttl) && GoodBirths(s) && GoodHistories(s) && GoodCalls(s, ttl)
  }

  /** What every step does to the history: it only ever adds. */
  ghost predicate Grows(s: State, s': State) {
    && s.clock <= s'.clock && s.drawn <= s'.drawn
    && (forall id :: id in s.births ==> id in s'.births && s'.births[id] == s.births[id])
    && (forall id :: id in s.lineage ==> id in s'.lineage && s.lineage[id] <= s'.lineage[id])
  }

  lemma CallStaysGood(s: State, s': State, ttl: int, c: nat, call: Call)
    requires GoodCall(s, ttl, c, call) && Grows(s, s')
    requires call.Drawn? ==> call.id !in s'.lineage
    ensures GoodCall(s', ttl, c, call)
  {
  }

  /** The calls a step does not touch stay good; the step has to account for one call only. */
  lemma CallsStayGood(s: State, s': State, ttl: int, c: nat)
    requires GoodCalls(s, ttl) && Grows(s, s')
    requires forall d :: d in s'.calls && d != c ==> d in s.calls && s'.calls[d] == s.calls[d]
    requires forall d :: d in s'.calls && d != c && s.calls[d].Drawn? ==> s.calls[d].id !in s'.lineage
    requires c in s'.calls ==> GoodCall(s', ttl, c, s'.calls[c])
    ensures GoodCalls(s', ttl)
  {
    forall d | d in s'.calls ensures GoodCall(s', ttl, d, s'.calls[d]) {
      if d != c {
        CallStaysGood(s, s', ttl, d, s.calls[d]);
      }
    }
  }

  lemma DrawnIdIsOwn(s: State, ttl: int, d: nat)
    requires GoodCalls(s, ttl) && d in s.calls && s.calls[d].Drawn?
    ensures s.calls[d].id in s.births && s.births[s.calls[d].id].call == d && s.calls[d].id !in s.lineage
  {
  }

  lemma HistoriesStayGood(s: State, s': State)
    requires GoodHistories(s) && s.clock <= s'.clock && s.drawn <= s'.drawn && s'.lineage == s.lineage
    ensures GoodHistories(s')
  {
  }

  /** Steps that write no row, or only remove rows. */
  lemma QuietStep(s: State, s': State, ttl: int, c: nat)
    requires Inv(s, ttl) && s.clock <= s'.clock && s.drawn <= s'.drawn
    requires s'.births == s.births && s'.lineage == s.lineage
    requires s'.rows.Keys <= s.rows.Keys && forall id :: id in s'.rows ==> s'.rows[id] == s.rows[id]
    requires forall d :: d in s'.calls && d != c ==> d in s.calls && s'.calls[d] == s.calls[d]
    requires c in s'.calls ==> GoodCall(s', ttl, c, s'.calls[c])
    ensures Inv(s', ttl) && Grows(s, s')
  {
    hide GoodCall, GoodHistory, RowAt;
    HistoriesStayGood(s, s');
    forall d | d in s'.calls && d != c && s.calls[d].Drawn? ensures s.calls[d].id !in s'.lineage {
      DrawnIdIsOwn(s, ttl, d);
    }
    CallsStayGood(s, s', ttl, c);
  }

  /** A compare-and-set that succeeds is made on the row exactly as the call had loaded it. */
  lemma WinnerSawLatest(s: State, ttl: int, c: nat)
    requires Inv(s, ttl) && c in s.calls && s.calls[c].Clocked?
    requires s.calls[c].id in s.rows && s.rows[s.calls[c].id].validator == s.calls[c].row.validator
    ensures s.calls[c].version == |s.lineage[s.calls[c].id]|
    ensures s.calls[c].row == s.rows[s.calls[c].id]
  {
    var call := s.calls[c];
    var history := s.lineage[call.id];
    assert GoodCall(s, ttl, c, call);
    assert GoodHistory(history, s.clock, s.drawn);
    assert history[..|history|] == history;
  }

  /** Bringing one more validator into a row's history. */
  lemma HistoryExtends(history: seq<Entry>, e: Entry, clock: int, drawn: set<string>)
    requires GoodHistory(history, clock, drawn)
    requires e.validator !in drawn && history[|history| - 1].at <= e.at <= clock
    ensures GoodHistory(history + [e], clock, drawn + {e.validator})
    ensures (history + [e])[..|history|] == history
  {
  }

  lemma TableWrite(s: State, s': State, ttl: int, id: nat, history: seq<Entry>)
    requires GoodTable(s, ttl) && s'.births == s.births && id in s.births && history != []
    requires s'.lineage == s.lineage[id := history] && s'.rows == s.rows[id := RowAt(s.births[id], history, ttl)]
    ensures GoodTable(s', ttl)
  {
  }

  lemma HistoryWrite(s: State, s': State, id: nat, history: seq<Entry>)
    requires GoodHistories(s) && s'.clock == s.clock && s.drawn <= s'.drawn && s'.births == s.births
    requires GoodHistory(history, s'.clock, s'.drawn) && (id in s.lineage ==> s.lineage[id] <= history)
    requires s'.lineage == s.lineage[id := history]
    ensures GoodHistories(s') && Grows(s, s')
  {
  }

  /** Nobody else has drawn the id that call `c` gives a history. */
  lemma DrawnIdsStayFree(s: State, s': State, ttl: int, c: nat, id: nat, history: seq<Entry>)
    requires GoodCalls(s, ttl) && id in s.births && (s.births[id].call == c || id in s.lineage)
    requires s'.lineage == s.lineage[id := history]
    requires forall d :: d in s'.calls && d != c ==> d in s.calls && s'.calls[d] == s.calls[d]
    ensures forall d :: d in s'.calls && d != c && s.calls[d].Drawn? ==> s.calls[d].id !in s'.lineage
  {
  }

  /** Steps that write the row `id`, giving it a longer history. */
  lemma WriteStep(s: State, s': State, ttl: int, c: nat, id: nat, history: seq<Entry>)
    requires Inv(s, ttl) && s'.clock == s.clock && s.drawn <= s'.drawn && s'.births == s.births && id in s.births
    requires GoodHistory(history, s'.clock, s'.drawn) && history != [] && (id in s.lineage ==> s.lineage[id] <= history)
    requires s'.lineage == s.lineage[id := history] && s'.rows == s.rows[id := RowAt(s.births[id], history, ttl)]
    requires forall d :: d in s'.calls && d != c ==> d in s.calls && s'.calls[d] == s.calls[d]
    requires s.births[id].call == c || id in s.lineage
    requires c in s'.calls ==> GoodCall(s', ttl, c, s'.calls[c])
    ensures Inv(s', ttl) && Grows(s, s')
  {
    assert GoodCalls(s, ttl);
    hide GoodCall, RowAt, GoodHistory, GoodTable, GoodHistories, GoodCalls, Grows;
    TableWrite(s, s', ttl, id, history);
    HistoryWrite(s, s', id, history);
    assert GoodBirths(s');
    hide GoodBirths;
    DrawnIdsStayFree(s, s', ttl, c, id, history);
    CallsStayGood(s, s', ttl, c);
  }

  lemma WinnerIsGood(s: State, s': State, ttl: int, c: nat, validator: string)
    requires Inv(s, ttl) && c in s.calls && s.calls[c].Clocked? && GoodCall(s, ttl, c, s.calls[c])
    requires s.calls[c].version == |s.lineage[s.calls[c].id]|
    requires Judge(s.calls[c].row, SplitToken(s.calls[c].cookie).value.validator, s.calls[c].now).Current?
    requires s'.births == s.births && s'.clock == s.clock
    requires s'.lineage == s.lineage[s.calls[c].id := s.lineage[s.calls[c].id] + [Entry(validator, s.calls[c].now, c)]]
    ensures
      var call := s.calls[c];
      GoodCall(s', ttl, c, Accepted(call.cookie, call.id, call.version, call.now, call.row.user,
                                    Some(JoinToken(call.row.selector, validator))))
  {
    hide Judge, SplitToken, JoinToken;
    var call := s.calls[c];
    var history := s.lineage[call.id];
    assert (history + [Entry(validator, call.now, c)])[..|history|] == history[..|history|];
  }

  lemma RotationWrites(birth: Birth, history: seq<Entry>, e: Entry, ttl: int)
    requires history != []
    ensures
      var row := RowAt(birth, history, ttl);
      RowAt(birth, history + [e], ttl)
      == row.(validator := Sha256(e.validator), previous := row.validator, rotatedAt := Some(e.at), expiresAt := e.at + ttl)
  {
  }

  lemma RotationKeepsInv(s: State, s': State, ttl: int, c: nat, validator: string)
    requires Inv(s, ttl) && Enabled(s, Act(c, validator, true)) && s' == Carry(s, c, s.calls[c], ttl, validator, true)
    requires Judge(s.calls[c].row, SplitToken(s.calls[c].cookie).value.validator, s.calls[c].now).Current?
    requires s.calls[c].id in s.rows && s.rows[s.calls[c].id].validator == s.calls[c].row.validator
    ensures Inv(s', ttl) && Grows(s, s')
  {
    hide GoodHistory, Judge, SplitToken, JoinToken;
    var call := s.calls[c];
    WinnerSawLatest(s, ttl, c);
    assert GoodCall(s, ttl, c, call);
    var history, e := s.lineage[call.id], Entry(validator, call.now, c);
    HistoryExtends(history, e, s.clock, s.drawn);
    WinnerIsGood(s, s', ttl, c, validator);
    RotationWrites(s.births[call.id], history, e, ttl);
    hide GoodCall, RowAt;
    assert s'.rows == s.rows[call.id := RowAt(s.births[call.id], history + [e], ttl)];
    assert s'.lineage == s.lineage[call.id := history + [e]];
    assert s.drawn <= s'.drawn && s'.clock == s.clock && s'.births == s.births;
    hide Carry, Inv, Grows;
    WriteStep(s, s', ttl, c, call.id, history + [e]);
  }

  lemma GraceIsGood(s: State, ttl: int, c: nat, call: Call)
    requires call.Clocked? && GoodCall(s, ttl, c, call)
    requires Judge(call.row, SplitToken(call.cookie).value.validator, call.now).Current?
          || Judge(call.row, SplitToken(call.cookie).value.validator, call.now).Superseded?
    ensures GoodCall(s, ttl, c, Accepted(call.cookie, call.id, call.version, call.now, call.row.user, None))
  {
  }

  lemma NoRotationKeepsInv(s: State, s': State, ttl: int, c: nat, validator: string, applied: bool)
    requires Inv(s, ttl) && Enabled(s, Act(c, validator, applied)) && s' == Carry(s, c, s.calls[c], ttl, validator, applied)
    requires Judge(s.calls[c].row, SplitToken(s.calls[c].cookie).value.validator, s.calls[c].now).Current? ==>
      !(s.calls[c].id in s.rows && s.rows[s.calls[c].id].validator == s.calls[c].row.validator)
    ensures Inv(s', ttl) && Grows(s, s')
  {
    hide GoodCall, GoodHistory, RowAt, Judge, SplitToken, JoinToken;
    var call := s.calls[c];
    assert GoodCall(s, ttl, c, call);
    var verdict := Judge(call.row, SplitToken(call.cookie).value.validator, call.now);
    if verdict.Current? || verdict.Superseded? {
      GraceIsGood(s, ttl, c, call);
    } else {
      RefusedIsGood(s, ttl, c, call.cookie);
    }
    assert s'.lineage == s.lineage && s'.births == s.births;
    CallStaysGood(s, s', ttl, c, s'.calls[c]);
    QuietStep(s, s', ttl, c);
  }

  lemma RefusedIsGood(s: State, ttl: int, c: nat, cookie: string)
    ensures GoodCall(s, ttl, c, Refused(cookie))
  {
  }

  lemma ActKeepsInv(s: State, ttl: int, c: nat, validator: string, applied: bool)
    requires Inv(s, ttl) && Enabled(s, Act(c, validator, applied))
    ensures
      var s' := Carry(s, c, s.calls[c], ttl, validator, applied);
      Inv(s', ttl) && Grows(s, s')
  {
    var call := s.calls[c];
    var s' := Carry(s, c, call, ttl, validator, applied);
    var verdict := Judge(call.row, SplitToken(call.cookie).value.validator, call.now);
    if verdict.Current? && call.id in s.rows && s.rows[call.id].validator == call.row.validator {
      RotationKeepsInv(s, s', ttl, c, validator);
    } else {
      NoRotationKeepsInv(s, s', ttl, c, validator, applied);
    }
  }

  lemma CreateKeepsInv(s: State, ttl: int, c: nat)
    requires Inv(s, ttl) && Enabled(s, Create(c))
    ensures Inv(Next(s, Create(c), ttl), ttl) && Grows(s, Next(s, Create(c), ttl))
  {
    var s', call := Next(s, Create(c), ttl), s.calls[c];
    assert GoodCall(s, ttl, c, call);
    WriteStep(s, s', ttl, c, call.id, [Entry(call.validator, call.at, c)]);
  }

  lemma DrawKeepsRecords(s: State, ttl: int, a: Action)
    requires GoodTable(s, ttl) && GoodBirths(s) && a.Draw? && Enabled(s, a)
    ensures GoodTable(Next(s, a, ttl), ttl) && GoodBirths(Next(s, a, ttl)) && Grows(s, Next(s, a, ttl))
  {
    hide GoodHistory, RowAt, SplitToken;
  }

  lemma DrawKeepsInv(s: State, ttl: int, a: Action)
    requires Inv(s, ttl) && a.Draw? && Enabled(s, a)
    ensures Inv(Next(s, a, ttl), ttl) && Grows(s, Next(s, a, ttl))
  {
    hide GoodTable, GoodBirths, GoodHistory, SplitToken;
    var s' := Next(s, a, ttl);
    DrawKeepsRecords(s, ttl, a);
    HistoriesStayGood(s, s');
    forall d | d in s'.calls && d != a.c && s.calls[d].Drawn? ensures s.calls[d].id !in s'.lineage {
      DrawnIdIsOwn(s, ttl, d);
    }
    assert a.id !in s.lineage by { NewIdHasNoHistory(s, ttl, a.id); }
    CallsStayGood(s, s', ttl, a.c);
  }

  lemma NewIdHasNoHistory(s: State, ttl: int, id: nat)
    requires GoodTable(s, ttl) && id !in s.births
    ensures id !in s.lineage
  {
  }

  lemma FindKeepsInv(s: State, ttl: int, c: nat, found: Option<nat>)
    requires Inv(s, ttl) && Enabled(s, Find(c, found))
    ensures Inv(Next(s, Find(c, found), ttl), ttl) && Grows(s, Next(s, Find(c, found), ttl))
  {
    var s' := Next(s, Find(c, found), ttl);
    if found.Some? {
      var history := s.lineage[found.value];
      assert history[..|history|] == history;
    }
    QuietStep(s, s', ttl, c);
  }

  lemma ReadClockKeepsInv(s: State, ttl: int, c: nat)
    requires Inv(s, ttl) && Enabled(s, ReadClock(c))
    ensures Inv(Next(s, ReadClock(c), ttl), ttl) && Grows(s, Next(s, ReadClock(c), ttl))
  {
    assert GoodCall(s, ttl, c, s.calls[c]);
    assert GoodHistory(s.lineage[s.calls[c].id], s.clock, s.drawn);
    QuietStep(s, Next(s, ReadClock(c), ttl), ttl, c);
  }

  /** The call that takes a step; a Tick or a RevokeAll belongs to none. */
  function Caller(a: Action): Option<nat> {
    match a
    case Tick(_) => None
    case RevokeAll(_) => None
    case _ => Some(a.c)
  }

  lemma {:induction false} StepKeepsInv(s: State, ttl: int, a: Action)
    requires Inv(s, ttl) && Enabled(s, a)
    ensures Inv(Next(s, a, ttl), ttl) && Grows(s, Next(s, a, ttl))
  {
    match a {
      case Act(c, validator, applied) => ActKeepsInv(s, ttl, c, validator, applied);
      case Create(c) => CreateKeepsInv(s, ttl, c);
      case Draw(_, _, _, _, _) => DrawKeepsInv(s, ttl, a);
      case Find(c, found) => FindKeepsInv(s, ttl, c, found);
      case ReadClock(c) => ReadClockKeepsInv(s, ttl, c);
      case _ => OtherKeepsInv(s, ttl, a);
    }
  }

  lemma OtherKeepsInv(s: State, ttl: int, a: Action)
    requires Inv(s, ttl) && Enabled(s, a)
    requires !(a.Act? || a.Create? || a.Draw? || a.Find? || a.ReadClock?)
    ensures Inv(Next(s, a, ttl), ttl) && Grows(s, Next(s, a, ttl))
  {
    var s' := Next(s, a, ttl);
    if Caller(a).Some? {
      var c := Caller(a).value;
      OthersCall(s, a, ttl);
      hide Inv, GoodCall, Grows, SplitToken;
      QuietStep(s, s', ttl, c);
    } else {
      hide Inv, GoodCall, Grows, SplitToken;
      SharedStepKeepsInv(s, s', ttl);
    }
  }

  lemma OthersCall(s: State, a: Action, ttl: int)
    requires Enabled(s, a) && Caller(a).Some?
    requires !(a.Act? || a.Create? || a.Draw? || a.Find? || a.ReadClock?)
    ensures
      var s', c := Next(s, a, ttl), Caller(a).value;
      c in s'.calls && GoodCall(s', ttl, c, s'.calls[c])
  {
  }

  /** A step of no call: the clock moves, or an administrator deletes rows. */
  lemma SharedStepKeepsInv(s: State, s': State, ttl: int)
    requires Inv(s, ttl) && s.clock <= s'.clock && s'.drawn == s.drawn
    requires s'.births == s.births && s'.lineage == s.lineage && s'.calls == s.calls
    requires s'.rows.Keys <= s.rows.Keys && forall id :: id in s'.rows ==> s'.rows[id] == s.rows[id]
    ensures Inv(s', ttl) && Grows(s, s')
  {
    if 0 in s.calls {
      assert Grows(s, s');
      assert GoodCall(s, ttl, 0, s.calls[0]);
      CallStaysGood(s, s', ttl, 0, s.calls[0]);
    }
    QuietStep(s, s', ttl, 0);
  }
}
