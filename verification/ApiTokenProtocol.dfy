/** Any number of concurrent calls of the API-token service, interleaved at every statement that
    reads or changes the shared table (services/api_tokens.go, repositories/api_tokens.go).

    One table statement is one step. The clock never goes back; a call may act on a reading it
    took any time before, so the statements below carry the reading they use. Any call may fail
    with an internal error between two steps. Selectors are drawn new (their column has a unique
    index), validators need not be.

    `issued` and `revoked` only record history; no step's choice depends on them. */
module ApiTokenProtocol {
  import opened OptionType
  import opened TokenText
  import opened ApiTokens

  datatype Limits = Limits(maxPerUser: nat, maxLifetime: int)

  /** What was handed out for a row. */
  datatype Birth = Birth(user: nat, selector: string, validator: string, createdAt: int, expiresAt: int)
  {
    function Text(): string { PrintToken(selector, validator) }
  }

  /** `live` is history too: the tokens issued and not revoked when the lookup ran. */
  datatype Call =
    | Validated(user: nat, expiresAt: int, now: int)
    | Counted(user: nat, expiresAt: int, now: int)
    | AtLimit
    | Created(id: nat)
    | Presented(text: string)
    | Loaded(text: string, found: Option<nat>, token: Option<Token>, live: set<nat>)
    | Verified(text: string, id: nat, live: set<nat>, checkedAt: int)
    | Accepted(text: string, id: nat, live: set<nat>, checkedAt: int)
    | Rejected(text: string, live: set<nat>, checkedAt: int)
    | Failed

  datatype State = State(clock: int, rows: Table, calls: map<nat, Call>, issued: map<nat, Birth>, revoked: set<nat>)

  datatype Action =
    | Tick(to: int)
    | Begin(c: nat, user: nat, expiresAt: int)
    | Count(c: nat)
    | Create(c: nat, id: nat, name: string, scopes: seq<string>, selector: seq<byte>, validator: seq<byte>)
    | Present(c: nat, text: string)
    | Find(c: nat, found: Option<nat>)
    | Check(c: nat)
    | Touch(c: nat, now: int)
    | Fail(c: nat)
    | Revoke(id: nat, user: nat, now: int)
    | RevokeAll(user: nat, now: int)
    | Prune(now: int)

  const INITIAL := State(0, map[], map[], map[], {})

  /** The answer of the lookup for a presented text: nothing when the text does not parse. */
  ghost predicate Finds(rows: Table, text: string, found: Option<nat>) {
    match found
    case Some(id) => SplitToken(text).Some? && id in rows && rows[id].selector == SplitToken(text).value.0
    case None => SplitToken(text).Some? ==> forall id :: id in rows ==> rows[id].selector != SplitToken(text).value.0
  }

  ghost predicate Enabled(s: State, a: Action, limits: Limits) {
    match a
    case Tick(to) => s.clock <= to
    case Begin(c, _, expiresAt) => c !in s.calls && s.clock < expiresAt <= s.clock + limits.maxLifetime
    case Count(c) => c in s.calls && s.calls[c].Validated?
    case Create(c, id, _, _, selector, validator) =>
      && c in s.calls && s.calls[c].Counted? && id !in s.issued
      && |selector| == SELECTOR_BYTES && |validator| == VALIDATOR_BYTES
      && forall i :: i in s.issued ==> s.issued[i].selector != EncodeToString(selector)
    case Present(c, _) => c !in s.calls
    case Find(c, found) => c in s.calls && s.calls[c].Presented? && Finds(s.rows, s.calls[c].text, found)
    case Check(c) => c in s.calls && s.calls[c].Loaded?
    case Touch(c, now) => c in s.calls && s.calls[c].Verified? && s.calls[c].checkedAt <= now <= s.clock
    case Fail(c) =>
      && c in s.calls
      && (s.calls[c].Validated? || s.calls[c].Counted? || s.calls[c].Presented? || s.calls[c].Loaded? || s.calls[c].Verified?)
    case Revoke(_, _, now) => now <= s.clock
    case RevokeAll(_, now) => now <= s.clock
    case Prune(now) => now <= s.clock
  }

  /** Whether the loaded row opens for the text at a clock reading. */
  predicate OpensAt(text: string, token: Option<Token>, now: int) {
    token.Some? && Opens(text, token.value, now)
  }

  function Next(s: State, a: Action, limits: Limits): State
    requires Enabled(s, a, limits)
  {
    match a
    case Tick(to) => s.(clock := to)
    case Begin(c, user, expiresAt) => s.(calls := s.calls[c := Validated(user, expiresAt, s.clock)])
    case Count(c) =>
      var call := s.calls[c];
      s.(calls := s.calls[c :=
        if |ActiveOf(s.rows, call.user, call.now)| >= limits.maxPerUser then AtLimit
        else Counted(call.user, call.expiresAt, call.now)])
    case Create(c, id, name, scopes, selector, validator) =>
      var call := s.calls[c];
      var selectorText, validatorText := EncodeToString(selector), EncodeToString(validator);
      s.(calls := s.calls[c := Created(id)],
         rows := s.rows[id := Token(call.user, name, selectorText, Sha256(validatorText), scopes,
                                    call.expiresAt, call.now, None, None)],
         issued := s.issued[id := Birth(call.user, selectorText, validatorText, call.now, call.expiresAt)])
    case Present(c, text) => s.(calls := s.calls[c := Presented(text)])
    case Find(c, found) =>
      s.(calls := s.calls[c :=
        Loaded(s.calls[c].text, found, if found.Some? then Some(s.rows[found.value]) else None, s.issued.Keys - s.revoked)])
    case Check(c) =>
      var call := s.calls[c];
      s.(calls := s.calls[c :=
        if call.found.Some? && OpensAt(call.text, call.token, s.clock)
        then Verified(call.text, call.found.value, call.live, s.clock)
        else Rejected(call.text, call.live, s.clock)])
    case Touch(c, now) =>
      var call := s.calls[c];
      s.(rows := Touched(s.rows, call.id, now - LAST_USED_INTERVAL, now),
         calls := s.calls[c := Accepted(call.text, call.id, call.live, call.checkedAt)])
    case Fail(c) => s.(calls := s.calls[c := Failed])
    case Revoke(id, user, now) =>
      s.(rows := Revoked(s.rows, id, user, now),
         revoked := if id in s.rows && s.rows[id].user == user then s.revoked + {id} else s.revoked)
    case RevokeAll(user, now) =>
      s.(rows := AllRevoked(s.rows, user, now),
         revoked := s.revoked + set id | id in s.rows && s.rows[id].user == user)
    case Prune(now) => s.(rows := Pruned(s.rows, now - PRUNE_RETENTION))
  }

  ghost predicate IsRun(trace: seq<State>, steps: seq<Action>, limits: Limits) {
    && |trace| == |steps| + 1
    && forall i :: 0 <= i < |steps| ==> Enabled(trace[i], steps[i], limits) && trace[i + 1] == Next(trace[i], steps[i], limits)
  }

  ghost predicate FromStart(trace: seq<State>, steps: seq<Action>, limits: Limits) {
    IsRun(trace, steps, limits) && trace[0] == INITIAL
  }

  // ---------------------------------------------------------------- the invariant

  /** The row still is what was issued, and its revocation mark is the recorded one. */
  ghost predicate Matches(token: Token, birth: Birth, live: bool) {
    && token.user == birth.user && token.selector == birth.selector
    && token.validatorHash == Sha256(birth.validator)
    && token.createdAt == birth.createdAt && token.expiresAt == birth.expiresAt
    && (token.revokedAt.None? <==> live)
  }

  ghost predicate GoodBirth(birth: Birth, clock: int, limits: Limits) {
    && SplitToken(birth.Text()) == Some((birth.selector, birth.validator))
    && birth.createdAt <= clock && birth.createdAt < birth.expiresAt <= birth.createdAt + limits.maxLifetime
  }

  /** A row that is gone was revoked, or has been expired for the whole retention period. */
  ghost predicate GoodRow(s: State, id: nat)
    requires id in s.issued
  {
    if id in s.rows then Matches(s.rows[id], s.issued[id], id !in s.revoked)
    else id in s.revoked || s.issued[id].expiresAt < s.clock - PRUNE_RETENTION
  }

  /** The token the text was handed out for, among those live at the lookup and unexpired at the
      check. This is what the caller of Resolve means by a valid token. */
  ghost predicate Means(s: State, text: string, id: nat, live: set<nat>, checkedAt: int) {
    id in live && id in s.issued && text == s.issued[id].Text() && checkedAt < s.issued[id].expiresAt
  }

  ghost predicate GoodCall(s: State, limits: Limits, call: Call) {
    match call
    case Validated(_, expiresAt, now) => now <= s.clock && now < expiresAt <= now + limits.maxLifetime
    case Counted(_, expiresAt, now) => now <= s.clock && now < expiresAt <= now + limits.maxLifetime
    case Loaded(text, Some(id), token, live) =>
      && live <= s.issued.Keys && id in s.issued && token.Some? && Matches(token.value, s.issued[id], id in live)
      && SplitToken(text).Some? && SplitToken(text).value.0 == s.issued[id].selector
    case Loaded(text, None, _, live) =>
      && live <= s.issued.Keys
      && forall id :: id in live && s.issued[id].Text() == text ==> s.issued[id].expiresAt <= s.clock
    case Verified(text, id, live, checkedAt) => Means(s, text, id, live, checkedAt) && checkedAt <= s.clock
    case Accepted(text, id, live, checkedAt) => Means(s, text, id, live, checkedAt) && checkedAt <= s.clock
    case Rejected(text, live, checkedAt) =>
      live <= s.issued.Keys && forall id :: !Means(s, text, id, live, checkedAt)
    case _ => true
  }

  ghost predicate GoodBirths(s: State, limits: Limits) {
    && (forall id :: id in s.issued ==> GoodBirth(s.issued[id], s.clock, limits))
    && (forall i, j :: i in s.issued && j in s.issued && s.issued[i].selector == s.issued[j].selector ==> i == j)
  }

  ghost predicate GoodTable(s: State) {
    && s.rows.Keys <= s.issued.Keys
    && s.revoked <= s.issued.Keys
    && forall id :: id in s.issued ==> GoodRow(s, id)
  }

  ghost predicate GoodCalls(s: State, limits: Limits) {
    forall c :: c in s.calls ==> GoodCall(s, limits, s.calls[c])
  }

  ghost predicate Inv(s: State, limits: Limits) {
    GoodBirths(s, limits) && GoodTable(s) && GoodCalls(s, limits)
  }

  // ---------------------------------------------------------------- every step keeps it

  ghost predicate Grows(s: State, s': State) {
    && s.clock <= s'.clock && s.revoked <= s'.revoked
    && forall id :: id in s.issued ==> id in s'.issued && s'.issued[id] == s.issued[id]
  }

  lemma StepGrows(s: State, a: Action, limits: Limits)
    requires Enabled(s, a, limits)
    ensures Grows(s, Next(s, a, limits))
  {
  }

  lemma CallStaysGood(s: State, s': State, limits: Limits, call: Call)
    requires GoodCall(s, limits, call) && Grows(s, s')
    ensures GoodCall(s', limits, call)
  {
    hide SplitToken;
    if call.Rejected? {
      forall id ensures !Means(s', call.text, id, call.live, call.checkedAt) {
        assert !Means(s, call.text, id, call.live, call.checkedAt);
      }
    }
  }

  predicate Moved(s: State, s': State, c: nat) {
    c in s'.calls && !(c in s.calls && s.calls[c] == s'.calls[c])
  }

  /** A step that moves call `c` (or none) only has to account for that call. */
  lemma CallsStayGood(s: State, s': State, limits: Limits, c: nat)
    requires GoodCalls(s, limits) && Grows(s, s')
    requires s'.calls.Keys <= s.calls.Keys + {c}
    requires forall d :: d in s.calls && d != c ==> d in s'.calls && s'.calls[d] == s.calls[d]
    requires Moved(s, s', c) ==> GoodCall(s', limits, s'.calls[c])
    ensures GoodCalls(s', limits)
  {
    hide GoodCall, Grows;
    forall d | d in s'.calls ensures GoodCall(s', limits, s'.calls[d]) {
      if !Moved(s, s', d) { CallStaysGood(s, s', limits, s.calls[d]); }
    }
  }

  lemma BirthsStayGood(s: State, s': State, limits: Limits)
    requires GoodBirths(s, limits) && s.clock <= s'.clock && s'.issued == s.issued
    ensures GoodBirths(s', limits)
  {
  }

  /** A statement that leaves the table and the records alone. */
  lemma QuietStep(s: State, s': State, limits: Limits, c: nat)
    requires Inv(s, limits) && s.clock <= s'.clock
    requires s'.rows == s.rows && s'.issued == s.issued && s'.revoked == s.revoked
    requires s'.calls.Keys <= s.calls.Keys + {c}
    requires forall d :: d in s.calls && d != c ==> d in s'.calls && s'.calls[d] == s.calls[d]
    requires Moved(s, s', c) ==> GoodCall(s', limits, s'.calls[c])
    ensures Inv(s', limits)
  {
    hide GoodCall, Matches;
    CallsStayGood(s, s', limits, c);
    BirthsStayGood(s, s', limits);
  }

  lemma FindKeepsInv(s: State, limits: Limits, c: nat, found: Option<nat>)
    requires Inv(s, limits) && Enabled(s, Find(c, found), limits)
    ensures Inv(Next(s, Find(c, found), limits), limits)
  {
    hide SplitToken;
    var s' := Next(s, Find(c, found), limits);
    var text := s.calls[c].text;
    if found.None? {
      forall id | id in s.issued.Keys - s.revoked && s.issued[id].Text() == text ensures s.issued[id].expiresAt <= s.clock {
        assert GoodRow(s, id);
        assert GoodBirth(s.issued[id], s.clock, limits);
      }
    } else {
      assert GoodRow(s, found.value);
    }
    QuietStep(s, s', limits, c);
  }

  lemma CheckKeepsInv(s: State, limits: Limits, c: nat)
    requires Inv(s, limits) && Enabled(s, Check(c), limits)
    ensures Inv(Next(s, Check(c), limits), limits)
  {
    hide SplitToken;
    var s' := Next(s, Check(c), limits);
    var call := s.calls[c];
    assert GoodCall(s, limits, call);
    CheckDecides(s, limits, call);
    QuietStep(s, s', limits, c);
  }

  /** The branch taken on the loaded row is exactly the question whether the text is the plaintext
      of a token that was live at the lookup and has not expired. */
  lemma CheckDecides(s: State, limits: Limits, call: Call)
    requires GoodBirths(s, limits) && call.Loaded? && GoodCall(s, limits, call)
    ensures call.found.Some? && OpensAt(call.text, call.token, s.clock) ==>
      Means(s, call.text, call.found.value, call.live, s.clock)
    ensures !(call.found.Some? && OpensAt(call.text, call.token, s.clock)) ==>
      forall id :: !Means(s, call.text, id, call.live, s.clock)
  {
    hide SplitToken;
    if call.found.Some? && OpensAt(call.text, call.token, s.clock) {
      var birth := s.issued[call.found.value];
      SplitIffPrint(call.text, birth.selector, birth.validator);
    }
    forall id | Means(s, call.text, id, call.live, s.clock)
      ensures call.found.Some? && OpensAt(call.text, call.token, s.clock)
    {
      assert GoodBirth(s.issued[id], s.clock, limits);
      assert call.found == Some(id);
    }
  }

  lemma CreateKeepsBirths(s: State, limits: Limits, a: Action)
    requires Inv(s, limits) && a.Create? && Enabled(s, a, limits)
    ensures GoodBirths(Next(s, a, limits), limits)
  {
    hide SplitToken, EncodeToString, GoodTable;
    var s' := Next(s, a, limits);
    IssuedTextParses(a.selector, a.validator);
    assert GoodCall(s, limits, s.calls[a.c]);
    assert GoodBirth(s'.issued[a.id], s.clock, limits);
  }

  lemma CreateKeepsRows(s: State, limits: Limits, a: Action)
    requires GoodTable(s) && a.Create? && Enabled(s, a, limits)
    ensures GoodTable(Next(s, a, limits))
  {
  }

  lemma CreateMovesItsCall(s: State, limits: Limits, a: Action)
    requires a.Create? && Enabled(s, a, limits)
    ensures Next(s, a, limits).calls == s.calls[a.c := Created(a.id)]
  {
    hide EncodeToString;
  }

  lemma CreateKeepsInv(s: State, limits: Limits, a: Action)
    requires Inv(s, limits) && a.Create? && Enabled(s, a, limits)
    ensures Inv(Next(s, a, limits), limits)
  {
    CreateKeepsBirths(s, limits, a);
    CreateKeepsRows(s, limits, a);
    CreateMovesItsCall(s, limits, a);
    StepGrows(s, a, limits);
    hide Next, Enabled, GoodBirths, GoodTable, GoodCalls, Grows, Matches, Means;
    CallsStayGood(s, Next(s, a, limits), limits, a.c);
  }

  lemma RevokeKeepsRows(s: State, limits: Limits, a: Action)
    requires GoodTable(s) && a.Revoke? && Enabled(s, a, limits)
    ensures GoodTable(Next(s, a, limits))
  {
  }

  lemma RevokeAllKeepsRows(s: State, limits: Limits, a: Action)
    requires GoodTable(s) && a.RevokeAll? && Enabled(s, a, limits)
    ensures GoodTable(Next(s, a, limits))
  {
  }

  lemma RevokeKeepsInv(s: State, limits: Limits, a: Action)
    requires Inv(s, limits) && (a.Revoke? || a.RevokeAll?) && Enabled(s, a, limits)
    ensures Inv(Next(s, a, limits), limits)
  {
    hide GoodCall, GoodRow, GoodBirth, Revoked, AllRevoked;
    var s' := Next(s, a, limits);
    if a.Revoke? { RevokeKeepsRows(s, limits, a); } else { RevokeAllKeepsRows(s, limits, a); }
    hide GoodTable;
    BirthsStayGood(s, s', limits);
    StepGrows(s, a, limits);
    CallsStayGood(s, s', limits, 0);
  }

  lemma PruneKeepsInv(s: State, limits: Limits, now: int)
    requires Inv(s, limits) && Enabled(s, Prune(now), limits)
    ensures Inv(Next(s, Prune(now), limits), limits)
  {
    hide SplitToken, GoodCall;
    var s' := Next(s, Prune(now), limits);
    forall id | id in s'.issued ensures GoodRow(s', id) {
      assert GoodRow(s, id);
    }
    BirthsStayGood(s, s', limits);
    CallsStayGood(s, s', limits, 0);
  }

  lemma TouchKeepsInv(s: State, limits: Limits, c: nat, now: int)
    requires Inv(s, limits) && Enabled(s, Touch(c, now), limits)
    ensures Inv(Next(s, Touch(c, now), limits), limits)
  {
    hide SplitToken;
    var s' := Next(s, Touch(c, now), limits);
    assert GoodCall(s, limits, s.calls[c]);
    forall id | id in s'.issued ensures GoodRow(s', id) {
      assert GoodRow(s, id);
    }
    BirthsStayGood(s, s', limits);
    CallsStayGood(s, s', limits, c);
  }

  lemma CountKeepsInv(s: State, limits: Limits, c: nat)
    requires Inv(s, limits) && Enabled(s, Count(c), limits)
    ensures Inv(Next(s, Count(c), limits), limits)
  {
    hide ActiveOf, SplitToken;
    assert GoodCall(s, limits, s.calls[c]);
    QuietStep(s, Next(s, Count(c), limits), limits, c);
  }

  lemma StepKeepsInv(s: State, limits: Limits, a: Action)
    requires Inv(s, limits) && Enabled(s, a, limits)
    ensures Inv(Next(s, a, limits), limits)
  {
    hide Inv, SplitToken, ActiveOf, Opens, Touched, Revoked, AllRevoked, Pruned, EncodeToString;
    match a
    case Count(c) => CountKeepsInv(s, limits, c);
    case Create(_, _, _, _, _, _) => CreateKeepsInv(s, limits, a);
    case Find(c, found) => FindKeepsInv(s, limits, c, found);
    case Check(c) => CheckKeepsInv(s, limits, c);
    case Touch(c, now) => TouchKeepsInv(s, limits, c, now);
    case Revoke(_, _, _) => RevokeKeepsInv(s, limits, a);
    case RevokeAll(_, _) => RevokeKeepsInv(s, limits, a);
    case Prune(now) => PruneKeepsInv(s, limits, now);
    case Tick(_) => QuietStep(s, Next(s, a, limits), limits, 0);
    case Begin(c, _, _) => QuietStep(s, Next(s, a, limits), limits, c);
    case Present(c, _) => QuietStep(s, Next(s, a, limits), limits, c);
    case Fail(c) => QuietStep(s, Next(s, a, limits), limits, c);
  }

  lemma {:induction false} RunKeepsInv(trace: seq<State>, steps: seq<Action>, limits: Limits, k: nat)
    requires FromStart(trace, steps, limits) && k < |trace|
    ensures Inv(trace[k], limits)
  {
    hide Inv, Next, Enabled;
    if k == 0 {
      InitialIsGood(limits);
    } else {
      RunKeepsInv(trace, steps, limits, k - 1);
      StepKeepsInv(trace[k - 1], limits, steps[k - 1]);
    }
  }

  lemma InitialIsGood(limits: Limits)
    ensures Inv(INITIAL, limits)
  {
  }
}
