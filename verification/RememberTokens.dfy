/** The "remember me" tokens of services/remember.go over the table of repositories/remember.go:
    the selector-validator pattern with rotation, a grace window and theft detection.

    A digest is a free constructor, so SHA-256 is taken to be injective; primary keys and users
    are natural numbers. Instants are nanoseconds. */
module RememberTokens {
  import opened OptionType

  /** rememberGraceWindow: 60 seconds. */
  const GRACE := 60_000_000_000

  /** hashValidator; NoDigest is the empty previous_validator_hash of a row never rotated. */
  datatype Digest = NoDigest | Sha256(text: string)

  datatype Row = Row(user: nat, selector: string, validator: Digest, previous: Digest,
                     rotatedAt: Option<int>, expiresAt: int)

  type Table = map<nat, Row>

  // ---------------------------------------------------------------- the cookie text

  function JoinToken(selector: string, validator: string): string {
    selector + ":" + validator
  }

  /** strings.Cut at the first colon: the length of the part before it. */
  function FirstColon(value: string): (n: nat)
    ensures n <= |value|
    ensures ':' !in value[..n]
    ensures n < |value| ==> value[n] == ':'
  {
    if value == "" || value[0] == ':' then 0
    else
      var n := FirstColon(value[1..]);
      assert value[..1 + n] == [value[0]] + value[1..][..n];
      1 + n
  }

  datatype Parts = Parts(selector: string, validator: string)

  function SplitToken(value: string): Option<Parts> {
    var n := FirstColon(value);
    if n == |value| || n == 0 || n + 1 == |value| then None
    else Some(Parts(value[..n], value[n + 1..]))
  }

  lemma {:induction false} FirstColonFollows(before: string, after: string)
    requires ':' !in before
    ensures FirstColon(before + ":" + after) == |before|
  {
    if before != "" {
      FirstColonFollows(before[1..], after);
      assert (before + ":" + after)[1..] == before[1..] + ":" + after;
    }
  }

  /** What the parser accepts is the print of what it returns. */
  lemma JoinUndoesSplit(value: string)
    requires SplitToken(value).Some?
    ensures
      var parts := SplitToken(value).value;
      && JoinToken(parts.selector, parts.validator) == value
      && parts.selector != "" && ':' !in parts.selector && parts.validator != ""
  {
  }

  /** The parser accepts every print of a colon-free selector, and returns its two parts. */
  lemma SplitUndoesJoin(selector: string, validator: string)
    requires selector != "" && validator != "" && ':' !in selector
    ensures SplitToken(JoinToken(selector, validator)) == Some(Parts(selector, validator))
  {
    var value := JoinToken(selector, validator);
    FirstColonFollows(selector, validator);
    assert value[..|selector|] == selector && value[|selector| + 1..] == validator;
  }

  // ---------------------------------------------------------------- the verdict on a loaded row

  datatype Verdict = Expired | Current | Superseded | Theft

  /** Which branch Resolve takes for the loaded row, the presented validator and its clock reading. */
  function Judge(row: Row, validator: string, now: int): Verdict {
    if now > row.expiresAt then Expired
    else if Sha256(validator) == row.validator then Current
    else if row.previous != NoDigest && row.rotatedAt.Some? && now - row.rotatedAt.value <= GRACE
         && Sha256(validator) == row.previous then Superseded
    else Theft
  }

  // ---------------------------------------------------------------- table statements

  function Rotated(rows: Table, id: nat, expected: Digest, current: Digest, previous: Digest,
                   rotatedAt: int, expiresAt: int): Table {
    if id in rows && rows[id].validator == expected then
      rows[id := rows[id].(validator := current, previous := previous,
                          rotatedAt := Some(rotatedAt), expiresAt := expiresAt)]
    else rows
  }

  function WithoutUser(rows: Table, user: nat): Table {
    map id | id in rows && rows[id].user != user :: rows[id]
  }

  function WithoutExpired(rows: Table, now: int): Table {
    map id | id in rows && !(rows[id].expiresAt < now) :: rows[id]
  }

  /** The unique index on the selector column. */
  ghost predicate SelectorsUnique(rows: Table) {
    forall i, j :: i in rows && j in rows && rows[i].selector == rows[j].selector ==> i == j
  }

  class Repository {
    var rows: Table

    /** Binds to a table with whatever rows it has. */
    constructor (rows: Table)
      ensures this.rows == rows
    {
      this.rows := rows;
    }

    method Create(id: nat, row: Row)
      requires id !in rows
      modifies this
      ensures rows == old(rows)[id := row]
    {
      rows := rows[id := row];
    }

    method FindBySelector(selector: string) returns (found: Option<nat>)
      ensures found.Some? ==> found.value in rows && rows[found.value].selector == selector
      ensures found.None? ==> forall id :: id in rows ==> rows[id].selector != selector
    {
      if exists id :: id in rows && rows[id].selector == selector {
        var id :| id in rows && rows[id].selector == selector;
        found := Some(id);
      } else {
        found := None;
      }
    }

    method RotateValidator(id: nat, expected: Digest, current: Digest, previous: Digest,
                           rotatedAt: int, expiresAt: int) returns (updated: nat)
      modifies this
      ensures rows == Rotated(old(rows), id, expected, current, previous, rotatedAt, expiresAt)
      ensures rows.Keys == old(rows).Keys && forall other :: other in rows && other != id ==> rows[other] == old(rows)[other]
      ensures updated == 1 ==>
        id in rows && rows[id] == Row(old(rows)[id].user, old(rows)[id].selector, current, previous, Some(rotatedAt), expiresAt)
      ensures updated == 0 ==> rows == old(rows)
      ensures updated == if id in old(rows) && old(rows)[id].validator == expected then 1 else 0
    {
      updated := 0;
      if id in rows && rows[id].validator == expected {
        rows := rows[id := rows[id].(validator := current, previous := previous,
                                     rotatedAt := Some(rotatedAt), expiresAt := expiresAt)];
        updated := 1;
      }
    }

    method Delete(id: nat)
      modifies this
      ensures rows == old(rows) - {id}
    {
      rows := rows - {id};
    }

    method DeleteByUser(user: nat)
      modifies this
      ensures rows == WithoutUser(old(rows), user)
      ensures forall id :: id in rows <==> id in old(rows) && old(rows)[id].user != user
      ensures forall id :: id in rows ==> rows[id] == old(rows)[id]
    {
      rows := map id | id in rows && rows[id].user != user :: rows[id];
    }

    method DeleteExpired(now: int)
      modifies this
      ensures rows == WithoutExpired(old(rows), now)
      ensures forall id :: id in rows <==> id in old(rows) && now <= old(rows)[id].expiresAt
      ensures forall id :: id in rows ==> rows[id] == old(rows)[id]
    {
      rows := map id | id in rows && !(rows[id].expiresAt < now) :: rows[id];
    }
  }

  datatype Outcome = Invalid | Authenticated(user: nat, cookie: Option<string>)

  /** The service. Clock readings and random draws are parameters; the repository's own errors
      are not modelled here (the protocol of module RememberProtocol has them). */
  class Service {
    const repo: Repository
    const ttl: int

    constructor (repo: Repository, ttl: int)
      ensures this.repo == repo && this.ttl == ttl
    {
      this.repo, this.ttl := repo, ttl;
    }

    method Issue(user: nat, now: int, id: nat, selector: string, validator: string) returns (cookie: string)
      requires id !in repo.rows
      modifies repo
      ensures cookie == JoinToken(selector, validator)
      ensures repo.rows == old(repo.rows)[id := Row(user, selector, Sha256(validator), NoDigest, None, now + ttl)]
    {
      repo.Create(id, Row(user, selector, Sha256(validator), NoDigest, None, now + ttl));
      cookie := JoinToken(selector, validator);
    }

    /** One call that nobody interleaves with. */
    method Resolve(cookie: string, now: int, drawn: string) returns (outcome: Outcome)
      modifies repo
      ensures ResolvesAlone(old(repo.rows), cookie, now, ttl, drawn, outcome, repo.rows)
    {
      var parts := SplitToken(cookie);
      if parts.None? {
        return Invalid;
      }
      var found := repo.FindBySelector(parts.value.selector);
      if found.None? {
        return Invalid;
      }
      var token := repo.rows[found.value];
      if now > token.expiresAt {
        repo.Delete(found.value);
        return Invalid;
      }
      var presented := Sha256(parts.value.validator);
      if presented == token.validator {
        var updated := repo.RotateValidator(found.value, token.validator, Sha256(drawn), token.validator, now, now + ttl);
        if updated == 0 {
          return Authenticated(token.user, None);
        }
        return Authenticated(token.user, Some(JoinToken(token.selector, drawn)));
      }
      if token.previous != NoDigest && token.rotatedAt.Some? && now - token.rotatedAt.value <= GRACE
         && presented == token.previous {
        return Authenticated(token.user, None);
      }
      repo.DeleteByUser(token.user);
      return Invalid;
    }

    method Revoke(cookie: string)
      modifies repo
      ensures repo.rows.Keys <= old(repo.rows).Keys
      ensures forall id :: id in repo.rows ==> repo.rows[id] == old(repo.rows)[id]
      ensures SelectorsUnique(old(repo.rows)) ==> forall id :: id in old(repo.rows) ==>
        (id !in repo.rows <==> SplitToken(cookie).Some? && old(repo.rows)[id].selector == SplitToken(cookie).value.selector)
    {
      var parts := SplitToken(cookie);
      if parts.Some? {
        var found := repo.FindBySelector(parts.value.selector);
        if found.Some? {
          repo.Delete(found.value);
        }
      }
    }

    method RevokeAllForUser(user: nat)
      modifies repo
      ensures repo.rows == WithoutUser(old(repo.rows), user)
      ensures forall id :: id in repo.rows <==> id in old(repo.rows) && old(repo.rows)[id].user != user
      ensures forall id :: id in repo.rows ==> repo.rows[id] == old(repo.rows)[id]
    {
      repo.DeleteByUser(user);
    }

    method PruneExpired(now: int)
      modifies repo
      ensures repo.rows == WithoutExpired(old(repo.rows), now)
      ensures forall id :: id in repo.rows <==> id in old(repo.rows) && now <= old(repo.rows)[id].expiresAt
      ensures forall id :: id in repo.rows ==> repo.rows[id] == old(repo.rows)[id]
    {
      repo.DeleteExpired(now);
    }
  }

  /** What an undisturbed Resolve does to the row it found, verdict by verdict. */
  function Alone(rows: Table, id: nat, validator: string, now: int, ttl: int, drawn: string): (Outcome, Table)
    requires id in rows
  {
    var row := rows[id];
    match Judge(row, validator, now)
    case Expired => (Invalid, rows - {id})
    case Current =>
      (Authenticated(row.user, Some(JoinToken(row.selector, drawn))),
       Rotated(rows, id, row.validator, Sha256(drawn), row.validator, now, now + ttl))
    case Superseded => (Authenticated(row.user, None), rows)
    case Theft => (Invalid, WithoutUser(rows, row.user))
  }

  /** An undisturbed Resolve: nothing happens for a malformed cookie or an unknown selector;
      otherwise the row the selector names is judged. */
  ghost predicate ResolvesAlone(rows: Table, cookie: string, now: int, ttl: int, drawn: string,
                                outcome: Outcome, rows': Table) {
    match SplitToken(cookie)
    case None => outcome == Invalid && rows' == rows
    case Some(parts) =>
      || (outcome == Invalid && rows' == rows && forall id :: id in rows ==> rows[id].selector != parts.selector)
      || (exists id :: id in rows && rows[id].selector == parts.selector
                       && (outcome, rows') == Alone(rows, id, parts.validator, now, ttl, drawn))
  }
}
