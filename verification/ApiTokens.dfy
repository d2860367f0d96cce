/** Personal access tokens: models/api_token.go, repositories/api_tokens.go and
    services/api_tokens.go, one call at a time. Instants are nanoseconds, SHA-256 is a free
    constructor, primary keys and users are natural numbers; random bytes and clock readings are
    parameters. The checks of the caller's identity in between (password and second factor, or the
    impersonation policy) enter an issue as their result. */
module ApiTokens {
  import opened OptionType
  import opened GoStrings
  import opened Scopes
  import opened TokenText

  const MINUTE := 60_000_000_000
  const DAY := 24 * 60 * MINUTE
  const LAST_USED_INTERVAL := 5 * MINUTE
  const PRUNE_RETENTION := 30 * DAY
  const DEFAULT_MAX_LIFETIME := 365 * DAY
  const DEFAULT_MAX_PER_USER := 20

  datatype Hash = Sha256(text: string)

  datatype Token = Token(user: nat, name: string, selector: string, validatorHash: Hash, scopes: seq<string>,
                         expiresAt: int, createdAt: int, lastUsedAt: Option<int>, revokedAt: Option<int>)
  {
    predicate Active(now: int) {
      revokedAt.None? && now < expiresAt
    }

    predicate Prunable(before: int) {
      expiresAt < before || (revokedAt.Some? && revokedAt.value < before)
    }
  }

  type Table = map<nat, Token>

  // ---------------------------------------------------------------- table statements

  function ActiveOf(rows: Table, user: nat, now: int): set<nat> {
    set id | id in rows && rows[id].user == user && rows[id].Active(now)
  }

  function Revoked(rows: Table, id: nat, user: nat, now: int): Table {
    if id in rows && rows[id].user == user && rows[id].revokedAt.None?
    then rows[id := rows[id].(revokedAt := Some(now))] else rows
  }

  function AllRevoked(rows: Table, user: nat, now: int): Table {
    map id | id in rows ::
      if rows[id].user == user && rows[id].revokedAt.None? then rows[id].(revokedAt := Some(now)) else rows[id]
  }

  function Touched(rows: Table, id: nat, before: int, now: int): Table {
    if id in rows && (rows[id].lastUsedAt.None? || rows[id].lastUsedAt.value < before)
    then rows[id := rows[id].(lastUsedAt := Some(now))] else rows
  }

  function Pruned(rows: Table, before: int): Table {
    map id | id in rows && !rows[id].Prunable(before) :: rows[id]
  }

  /** Pruning is invisible to every count taken with a clock reading no older than the cutoff. */
  lemma PruneKeepsActive(rows: Table, before: int, user: nat, now: int)
    requires before <= now
    ensures ActiveOf(Pruned(rows, before), user, now) == ActiveOf(rows, user, now)
  {
  }

  /** A stamp is only ever replaced by one more than the interval later, and right after the
      statement it is at most one interval old, unless it already lay ahead. */
  lemma StampsAreSpaced(rows: Table, id: nat, now: int, other: nat)
    requires other in rows
    ensures
      var after := Touched(rows, id, now - LAST_USED_INTERVAL, now);
      && other in after
      && after[other] == rows[other].(lastUsedAt := after[other].lastUsedAt)
      && (after[other].lastUsedAt != rows[other].lastUsedAt && rows[other].lastUsedAt.Some? ==>
            after[other].lastUsedAt.Some? && after[other].lastUsedAt.value - rows[other].lastUsedAt.value > LAST_USED_INTERVAL)
      && (other == id ==> after[other].lastUsedAt.Some? && now - after[other].lastUsedAt.value <= LAST_USED_INTERVAL)
  {
  }

  /** What each statement leaves, row by row. */
  lemma RevokeEffect(rows: Table, id: nat, user: nat, now: int, other: nat)
    requires other in rows
    ensures
      var rows' := Revoked(rows, id, user, now);
      && rows'.Keys == rows.Keys
      && rows'[other] == if other == id && rows[id].user == user && rows[id].revokedAt.None?
                         then rows[id].(revokedAt := Some(now)) else rows[other]
  {
  }

  lemma RevokeAllEffect(rows: Table, user: nat, now: int, other: nat)
    requires other in rows
    ensures
      var rows' := AllRevoked(rows, user, now);
      && rows'.Keys == rows.Keys
      && rows'[other] == if rows[other].user == user && rows[other].revokedAt.None?
                         then rows[other].(revokedAt := Some(now)) else rows[other]
  {
  }

  lemma TouchEffect(rows: Table, id: nat, before: int, now: int, other: nat)
    requires other in rows
    ensures
      var rows' := Touched(rows, id, before, now);
      && rows'.Keys == rows.Keys
      && rows'[other] == if other == id && !(rows[id].lastUsedAt.Some? && before <= rows[id].lastUsedAt.value)
                         then rows[id].(lastUsedAt := Some(now)) else rows[other]
  {
  }

  /** A prune removes exactly the rows that expired or were revoked before the bound. */
  lemma PruneEffect(rows: Table, before: int, other: nat)
    requires other in rows
    ensures
      var rows', row := Pruned(rows, before), rows[other];
      && rows'.Keys <= rows.Keys
      && (other !in rows' <==> row.expiresAt < before || (row.revokedAt.Some? && row.revokedAt.value < before))
      && (other in rows' ==> rows'[other] == row)
  {
  }

  ghost predicate SelectorsUnique(rows: Table) {
    forall i, j :: i in rows && j in rows && rows[i].selector == rows[j].selector ==> i == j
  }

  class Repository {
    var rows: Table

    /** Binds to a table with whatever rows it has. */
    constructor (rows: Table)
      ensures this.rows == rows
    {
      this.rows := rows;
    }

    method Create(id: nat, token: Token)
      requires id !in rows
      modifies this
      ensures rows == old(rows)[id := token]
    {
      rows := rows[id := token];
    }

    method FindBySelector(selector: string) returns (found: Option<nat>)
      ensures found.Some? ==> found.value in rows && rows[found.value].selector == selector
      ensures found.None? ==> forall id :: id in rows ==> rows[id].selector != selector
    {
      if exists id :: id in rows && rows[id].selector == selector {
        var id :| id in rows && rows[id].selector == selector;
        found := Some(id);
      } else {
        found := None;
      }
    }

    method CountActiveByUser(user: nat, now: int) returns (count: nat)
      ensures count == |ActiveOf(rows, user, now)|
    {
      var left := rows.Keys;
      count := 0;
      ghost var counted: set<nat> := {};
      while left != {}
        invariant left <= rows.Keys
        invariant counted == (set id | id in rows && id !in left && rows[id].user == user
                                      && rows[id].revokedAt.None? && rows[id].expiresAt > now)
        invariant count == |counted|
        decreases |left|
      {
        var id :| id in left;
        left := left - {id};
        if rows[id].user == user && rows[id].revokedAt.None? && rows[id].expiresAt > now {
          count := count + 1;
          counted := counted + {id};
        }
      }
      assert counted == ActiveOf(rows, user, now);
    }

    method Revoke(id: nat, user: nat, now: int) returns (affected: nat)
      modifies this
      ensures rows == Revoked(old(rows), id, user, now)
      ensures affected == if rows == old(rows) then 0 else 1
    {
      affected := 0;
      if id in rows && rows[id].user == user && rows[id].revokedAt.None? {
        var before := rows[id];
        rows := rows[id := before.(revokedAt := Some(now))];
        assert rows[id] != before;
        affected := 1;
      }
    }

    method RevokeAllByUser(user: nat, now: int)
      modifies this
      ensures rows == AllRevoked(old(rows), user, now)
    {
      rows := map id | id in rows ::
        if rows[id].user == user && rows[id].revokedAt.None? then rows[id].(revokedAt := Some(now)) else rows[id];
    }

    method TouchLastUsed(id: nat, before: int, now: int)
      modifies this
      ensures rows == Touched(old(rows), id, before, now)
    {
      if id in rows && (rows[id].lastUsedAt.None? || rows[id].lastUsedAt.value < before) {
        rows := rows[id := rows[id].(lastUsedAt := Some(now))];
      }
    }

    method DeletePrunable(before: int)
      modifies this
      ensures rows == Pruned(old(rows), before)
    {
      rows := map id | id in rows && !(rows[id].expiresAt < before || (rows[id].revokedAt.Some? && rows[id].revokedAt.value < before))
        :: rows[id];
    }
  }

  // ---------------------------------------------------------------- the service

  datatype Fault = NameInvalid | LifetimeInvalid | ScopesInvalid(why: Scoped) | Unauthorized
    | Refused(objection: string) | TokenLimit | NotFound | Forbidden

  datatype Issue = Issued(id: nat, plaintext: string) | Denied(fault: Fault)

  predicate NameFits(name: string) {
    TrimSpace(name) != "" && |TrimSpace(name)| <= 100
  }

  /** What a caller asks for, and what the identity checks say: `account` is the disabled flag of
      the user if it exists, `objection` the error of the password, second-factor or impersonation
      check if it failed. */
  datatype Command = Command(user: nat, name: string, expiresAt: int, scopes: seq<string>,
                             account: Option<bool>, objection: Option<string>)

  /** The conditions of an issue, in the order in which the code tests them: each fault says that
      the earlier conditions held and its own did not. */
  ghost predicate Faulty(command: Command, now: int, maxLifetime: int, maxPerUser: nat, allowed: set<string>,
                         active: nat, fault: Fault) {
    match fault
    case NameInvalid => !NameFits(command.name)
    case LifetimeInvalid => NameFits(command.name) && !(now < command.expiresAt <= now + maxLifetime)
    case ScopesInvalid(why) =>
      && NameFits(command.name) && now < command.expiresAt <= now + maxLifetime
      && !why.Scopes? && Validates(command.scopes, allowed, why)
    case Unauthorized => WellFormed(command, now, maxLifetime, allowed) && command.account != Some(false)
    case Refused(objection) =>
      && WellFormed(command, now, maxLifetime, allowed) && command.account == Some(false)
      && command.objection == Some(objection)
    case TokenLimit =>
      && WellFormed(command, now, maxLifetime, allowed) && command.account == Some(false)
      && command.objection.None? && active >= maxPerUser
    case NotFound => false
    case Forbidden => false
  }

  ghost predicate WellFormed(command: Command, now: int, maxLifetime: int, allowed: set<string>) {
    && NameFits(command.name) && now < command.expiresAt <= now + maxLifetime
    && forall i :: 0 <= i < |command.scopes| ==> Accepted(command.scopes[i], allowed)
  }

  /** Either a fault and an untouched table, or one new row with the text that opens it. */
  ghost predicate IssuesAlone(rows: Table, rows': Table, command: Command, now: int, maxLifetime: int, maxPerUser: nat,
                              allowed: set<string>, id: nat, selector: seq<byte>, validator: seq<byte>, issue: Issue) {
    match issue
    case Denied(fault) =>
      rows' == rows && Faulty(command, now, maxLifetime, maxPerUser, allowed, |ActiveOf(rows, command.user, now)|, fault)
    case Issued(issuedId, plaintext) =>
      && issuedId == id && plaintext == PrintToken(EncodeToString(selector), EncodeToString(validator))
      && WellFormed(command, now, maxLifetime, allowed)
      && command.account == Some(false) && command.objection.None?
      && |ActiveOf(rows, command.user, now)| < maxPerUser
      && id in rows' && Validates(command.scopes, allowed, Scopes(rows'[id].scopes))
      && rows' == rows[id :=
           Token(command.user, TrimSpace(command.name), EncodeToString(selector), Sha256(EncodeToString(validator)),
                 rows'[id].scopes, command.expiresAt, now, None, None)]
  }

  /** Every scope asked for fits the pattern and is allowed. */
  ghost predicate ScopesFit(scopes: seq<string>, allowed: set<string>) {
    forall i :: 0 <= i < |scopes| ==> MatchesPattern(TrimSpace(scopes[i])) && TrimSpace(scopes[i]) in allowed
  }

  /** Main result: an issue succeeds exactly if the name has 1 to 100 characters, the expiry lies in
      the allowed lifetime, the scopes fit, the user exists enabled, his identity was confirmed and he
      has fewer active tokens than the limit; otherwise the first of these that fails is its fault. */
  lemma IssueDecides(rows: Table, rows': Table, command: Command, now: int, maxLifetime: int, maxPerUser: nat,
                     allowed: set<string>, id: nat, selector: seq<byte>, validator: seq<byte>, issue: Issue)
    requires IssuesAlone(rows, rows', command, now, maxLifetime, maxPerUser, allowed, id, selector, validator, issue)
    ensures
      var named := 1 <= |TrimSpace(command.name)| <= 100;
      var dated := now < command.expiresAt && command.expiresAt <= now + maxLifetime;
      var scoped := ScopesFit(command.scopes, allowed);
      var known := command.account == Some(false);
      var active := |set t | t in rows && rows[t].user == command.user && rows[t].revokedAt.None? && now < rows[t].expiresAt|;
      && (issue.Issued? <==> named && dated && scoped && known && command.objection.None? && active < maxPerUser)
      && (issue == Denied(NameInvalid) <==> !named)
      && (issue == Denied(LifetimeInvalid) <==> named && !dated)
      && (issue.Denied? && issue.fault.ScopesInvalid? <==> named && dated && !scoped)
      && (issue == Denied(Unauthorized) <==> named && dated && scoped && !known)
      && (issue.Denied? && issue.fault.Refused? <==> named && dated && scoped && known && command.objection.Some?)
      && (issue == Denied(TokenLimit) <==> named && dated && scoped && known && command.objection.None? && active >= maxPerUser)
  {
    hide TrimSpace, MatchesPattern, EncodeToString, FailsAt;
    assert ActiveOf(rows, command.user, now)
      == set t | t in rows && rows[t].user == command.user && rows[t].revokedAt.None? && now < rows[t].expiresAt;
    ScopesFitIff(command.scopes, allowed);
    if issue.Denied? && issue.fault.ScopesInvalid? {
      FailureIsUnfit(command.scopes, allowed, issue.fault.why);
    }
    hide Validates, ScopesFit, ActiveOf;
  }

  lemma ScopesFitIff(scopes: seq<string>, allowed: set<string>)
    ensures ScopesFit(scopes, allowed) <==> forall i :: 0 <= i < |scopes| ==> Accepted(scopes[i], allowed)
  {
    hide TrimSpace, MatchesPattern;
    assert forall i :: 0 <= i < |scopes| ==>
      (Accepted(scopes[i], allowed) <==> MatchesPattern(TrimSpace(scopes[i])) && TrimSpace(scopes[i]) in allowed);
  }

  lemma FailureIsUnfit(scopes: seq<string>, allowed: set<string>, why: Scoped)
    requires Validates(scopes, allowed, why) && !why.Scopes?
    ensures !ScopesFit(scopes, allowed)
  {
    hide TrimSpace, MatchesPattern;
    ScopesFitIff(scopes, allowed);
  }

  class Service {
    const repo: Repository
    const allowedScopes: set<string>
    const maxLifetime: int
    const maxPerUser: nat

    constructor (repo: Repository, allowed: set<string>, maxLifetime: int, maxPerUser: int)
      ensures this.repo == repo
      ensures this.maxLifetime > 0 && this.maxPerUser > 0
      ensures this.maxLifetime == if maxLifetime <= 0 then DEFAULT_MAX_LIFETIME else maxLifetime
      ensures this.maxPerUser == if maxPerUser <= 0 then DEFAULT_MAX_PER_USER else maxPerUser
      ensures allowedScopes == set scope | scope in allowed :: TrimSpace(scope)
    {
      this.repo := repo;
      this.maxLifetime := if maxLifetime <= 0 then DEFAULT_MAX_LIFETIME else maxLifetime;
      this.maxPerUser := if maxPerUser <= 0 then DEFAULT_MAX_PER_USER else maxPerUser;
      this.allowedScopes := set scope | scope in allowed :: TrimSpace(scope);
    }

    /** The call did what an issue does alone. */
    twostate predicate Issues(command: Command, now: int, id: nat, selector: seq<byte>, validator: seq<byte>, issue: Issue)
      reads repo
    {
      IssuesAlone(old(repo.rows), repo.rows, command, now, maxLifetime, maxPerUser, allowedScopes, id, selector, validator, issue)
    }

    method Issue(command: Command, now: int, id: nat, selector: seq<byte>, validator: seq<byte>)
      returns (issue: Issue)
      requires id !in repo.rows
      requires |selector| == SELECTOR_BYTES && |validator| == VALIDATOR_BYTES
      modifies repo
      ensures Issues(command, now, id, selector, validator, issue)
    {
      hide EncodeToString, TrimSpace, MatchesPattern;
      var name := TrimSpace(command.name);
      if name == "" || |name| > 100 {
        return Denied(NameInvalid);
      }
      if !(command.expiresAt > now) || command.expiresAt > now + maxLifetime {
        return Denied(LifetimeInvalid);
      }
      var scoped := ValidateScopes(command.scopes, allowedScopes);
      if !scoped.Scopes? {
        return Denied(ScopesInvalid(scoped));
      }
      if command.account != Some(false) {
        return Denied(Unauthorized);
      }
      if command.objection.Some? {
        return Denied(Refused(command.objection.value));
      }
      var count := repo.CountActiveByUser(command.user, now);
      if count >= maxPerUser {
        return Denied(TokenLimit);
      }
      var selectorText, validatorText := EncodeToString(selector), EncodeToString(validator);
      repo.Create(id, Token(command.user, name, selectorText, Sha256(validatorText), scoped.list,
                            command.expiresAt, now, None, None));
      issue := Issued(id, PREFIX + selectorText + "." + validatorText);
    }

    /** `configured` is whether the guard lets this actor's guard create tokens; `actor` is the
        disabled flag of the original actor if he still exists. */
    method IssueImpersonated(configured: bool, actor: Option<bool>, command: Command, now: int, id: nat,
                             selector: seq<byte>, validator: seq<byte>)
      returns (issue: Issue)
      requires id !in repo.rows
      requires |selector| == SELECTOR_BYTES && |validator| == VALIDATOR_BYTES
      modifies repo
      ensures !configured || actor != Some(false) ==> issue == Denied(Forbidden) && repo.rows == old(repo.rows)
      ensures configured && actor == Some(false) ==> Issues(command, now, id, selector, validator, issue)
    {
      if !configured || actor != Some(false) {
        return Denied(Forbidden);
      }
      issue := Issue(command, now, id, selector, validator);
    }

    /** `checkedAt` and `usedAt` are the two clock readings of the call. */
    method Resolve(plaintext: string, checkedAt: int, usedAt: int) returns (resolved: Option<nat>)
      requires SelectorsUnique(repo.rows)
      modifies repo
      ensures resolved.None? ==> repo.rows == old(repo.rows)
      ensures forall id :: resolved == Some(id) <==> id in old(repo.rows) && Opens(plaintext, old(repo.rows)[id], checkedAt)
      ensures resolved.Some? ==>
        repo.rows == Touched(old(repo.rows), resolved.value, usedAt - LAST_USED_INTERVAL, usedAt)
    {
      var parts := SplitToken(plaintext);
      if parts.None? {
        return None;
      }
      var found := repo.FindBySelector(parts.value.0);
      if found.None? {
        return None;
      }
      var token := repo.rows[found.value];
      if Sha256(parts.value.1) != token.validatorHash || !token.Active(checkedAt) {
        return None;
      }
      repo.TouchLastUsed(found.value, usedAt - LAST_USED_INTERVAL, usedAt);
      resolved := found;
    }

    method Revoke(user: nat, id: nat, now: int) returns (fault: Option<Fault>)
      modifies repo
      ensures repo.rows == Revoked(old(repo.rows), id, user, now)
      ensures fault == if repo.rows == old(repo.rows) then Some(NotFound) else None
    {
      var affected := repo.Revoke(id, user, now);
      fault := if affected == 0 then Some(NotFound) else None;
    }

    method RevokeAll(user: nat, now: int)
      modifies repo
      ensures repo.rows == AllRevoked(old(repo.rows), user, now)
      ensures forall t :: ActiveOf(repo.rows, user, t) == {}
      ensures forall other, t :: other != user ==> ActiveOf(repo.rows, other, t) == ActiveOf(old(repo.rows), other, t)
    {
      repo.RevokeAllByUser(user, now);
    }

    method Prune(now: int)
      modifies repo
      ensures repo.rows == Pruned(old(repo.rows), now - PRUNE_RETENTION)
    {
      repo.DeletePrunable(now - PRUNE_RETENTION);
    }
  }

  /** The text names this row, carries its validator, and the row is active. */
  predicate Opens(plaintext: string, token: Token, now: int) {
    match SplitToken(plaintext)
    case None => false
    case Some(parts) => token.selector == parts.0 && token.validatorHash == Sha256(parts.1) && token.Active(now)
  }
}
