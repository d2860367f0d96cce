/** Two-factor state of services/twofactor.go over repositories/users.go: TOTP login codes
    (RFC 6238) that are accepted once, and single-use recovery codes.

    The one-time-password generator is any function of the secret and the counter; it gives nothing
    for a secret it cannot read. A column holds what was encrypted into it, SHA-256 is a free
    constructor, and `upper` is strings.ToUpper. Clock readings are Unix seconds. Every call is one
    step: the locked ones by their row lock, the others by assumption, except that `Write` lets the
    statement of an unlocked call fall anywhere. */
module TwoFactor {
  import opened OptionType
  import opened GoStrings

  const PERIOD := 30
  const DEFAULT_RECOVERY_CODE_COUNT := 8

  datatype Hash = Sha256(text: string)

  datatype RecoveryCode = RecoveryCode(code: Hash, usedAt: Option<int>)

  datatype Row = Row(secret: Option<string>, codes: Option<seq<RecoveryCode>>, confirmedAt: Option<int>,
                     lastUsedAt: Option<int>)
  {
    predicate Enabled() {
      confirmedAt.Some? && secret.Some? && secret.value != ""
    }
  }

  type Generator = (string, int) -> Option<string>

  type Upper = string -> string

  function HashCode(upper: Upper, code: string): Hash {
    Sha256(upper(TrimSpace(code)))
  }

  // ---------------------------------------------------------------- time steps

  /** Go's integer division truncates toward zero. */
  function TruncatedQuotient(a: int, b: int): int
    requires b > 0
  {
    if a >= 0 then a / b else -((-a) / b)
  }

  /** The counter the generator uses: the quotient rounded down. */
  function Counter(t: int): int { t / PERIOD }

  function TimeStep(t: int): int { TruncatedQuotient(t, PERIOD) }

  /** The code belongs to the step at time t. */
  predicate CodeFits(totp: Generator, secret: string, code: string, t: int) {
    totp(secret, Counter(t)) == Some(TrimSpace(code))
  }

  /** The start of the first step, in the order now, one earlier, one later, that the code fits. */
  function MatchedStep(totp: Generator, secret: string, code: string, now: int): Option<int> {
    if CodeFits(totp, secret, code, now) then Some(TimeStep(now) * PERIOD)
    else if CodeFits(totp, secret, code, now - PERIOD) then Some(TimeStep(now - PERIOD) * PERIOD)
    else if CodeFits(totp, secret, code, now + PERIOD) then Some(TimeStep(now + PERIOD) * PERIOD)
    else None
  }

  method MatchTotpStep(totp: Generator, secret: string, code: string, now: int) returns (start: Option<int>)
    ensures start == MatchedStep(totp, secret, code, now)
  {
    var trimmed := TrimSpace(code);
    var offsets := [0, -1, 1];
    for i := 0 to |offsets|
      invariant i > 0 ==> !CodeFits(totp, secret, code, now)
      invariant i > 1 ==> !CodeFits(totp, secret, code, now - PERIOD)
      invariant i > 2 ==> !CodeFits(totp, secret, code, now + PERIOD)
    {
      var t := now + offsets[i] * PERIOD;
      var candidate := totp(secret, t / PERIOD);
      if candidate.None? {
        continue;
      }
      if candidate.value == trimmed {
        return Some(TruncatedQuotient(t, PERIOD) * PERIOD);
      }
    }
    start := None;
  }

  /** The library's Validate with its default skew of one step. */
  predicate Validates(totp: Generator, secret: string, code: string, now: int) {
    || CodeFits(totp, secret, code, now)
    || CodeFits(totp, secret, code, now + PERIOD)
    || CodeFits(totp, secret, code, now - PERIOD)
  }

  // ---------------------------------------------------------------- recovery codes

  /** The first unused entry with this hash; the length if there is none. */
  function FirstUnused(codes: seq<RecoveryCode>, h: Hash): (k: nat)
    ensures k <= |codes|
    ensures k < |codes| ==> codes[k] == RecoveryCode(h, None)
    ensures forall i :: 0 <= i < k ==> codes[i] != RecoveryCode(h, None)
  {
    if codes == [] || codes[0] == RecoveryCode(h, None) then 0 else 1 + FirstUnused(codes[1..], h)
  }

  function Remaining(codes: seq<RecoveryCode>): nat {
    if codes == [] then 0 else (if codes[0].usedAt.None? then 1 else 0) + Remaining(codes[1..])
  }

  function Used(codes: seq<RecoveryCode>): nat {
    if codes == [] then 0 else (if codes[0].usedAt.Some? then 1 else 0) + Used(codes[1..])
  }

  /** How often a hash is still there to be used. */
  function Unused(codes: seq<RecoveryCode>, h: Hash): nat {
    if codes == [] then 0 else (if codes[0] == RecoveryCode(h, None) then 1 else 0) + Unused(codes[1..], h)
  }

  function Fresh(upper: Upper, plain: seq<string>): seq<RecoveryCode> {
    seq(|plain|, i requires 0 <= i < |plain| => RecoveryCode(HashCode(upper, plain[i]), None))
  }

  /** Draws `count` codes; `drawn` is what the random source gives. */
  method GenerateRecoveryCodes(upper: Upper, count: nat, drawn: seq<string>) returns (plain: seq<string>, codes: seq<RecoveryCode>)
    requires |drawn| == count
    ensures plain == drawn && codes == Fresh(upper, drawn) && |codes| == count
  {
    plain, codes := [], [];
    for i := 0 to count
      invariant plain == drawn[..i] && codes == Fresh(upper, drawn)[..i]
    {
      codes := codes + [RecoveryCode(HashCode(upper, drawn[i]), None)];
      plain := plain + [drawn[i]];
    }
  }

  // ---------------------------------------------------------------- one call on one row

  datatype Call =
    | Enable(secret: string)
    | Confirm(code: string, now: int, drawn: seq<string>)
    | VerifyLogin(code: string, now: int)
    | Consume(code: string, now: int)
    | Disable
    | Regenerate(drawn: seq<string>)
    | Write(newSecret: Option<string>, newCodes: Option<seq<RecoveryCode>>, newConfirmedAt: Option<int>)

  datatype Answer = Done | Yes | No | Codes(plain: seq<string>) | NotFound | NotEnrolled | AlreadyEnabled | InvalidCode | Internal

  /** What a call does to the row of its user. `Write` is the bare UpdateTwoFactor statement of an
      unlocked call that read the row some time earlier, with whatever values it made of it. */
  function After(totp: Generator, upper: Upper, row: Row, call: Call): (Row, Answer) {
    match call
    case Enable(secret) =>
      if row.Enabled() then (row, AlreadyEnabled)
      else (row.(secret := Some(secret), codes := None, confirmedAt := None), Done)
    case Confirm(code, now, drawn) =>
      if row.secret.None? || row.secret.value == "" then (row, NotEnrolled)
      else if row.Enabled() then (row, AlreadyEnabled)
      else if !Validates(totp, row.secret.value, code, now) then (row, InvalidCode)
      else (row.(codes := Some(Fresh(upper, drawn)), confirmedAt := Some(now)), Codes(drawn))
    case VerifyLogin(code, now) =>
      if !row.Enabled() then (row, NotEnrolled)
      else
        (match MatchedStep(totp, row.secret.value, code, now)
         case None => (row, No)
         case Some(start) =>
           if row.lastUsedAt.Some? && !(start > row.lastUsedAt.value) then (row, No)
           else (row.(lastUsedAt := Some(start)), Yes))
    case Consume(code, now) =>
      if !row.Enabled() || row.codes.None? then (row, NotEnrolled)
      else
        var codes := row.codes.value;
        var k := FirstUnused(codes, HashCode(upper, code));
        if k == |codes| then (row, No)
        else (row.(codes := Some(codes[k := codes[k].(usedAt := Some(now))])), Yes)
    case Disable => (row.(secret := None, codes := None, confirmedAt := None), Done)
    case Regenerate(drawn) =>
      if !row.Enabled() then (row, NotEnrolled)
      else (row.(codes := Some(Fresh(upper, drawn))), Codes(drawn))
    case Write(secret, codes, confirmedAt) => (row.(secret := secret, codes := codes, confirmedAt := confirmedAt), Done)
  }

  // ---------------------------------------------------------------- the service

  class Users {
    var rows: map<nat, Row>

    constructor (rows: map<nat, Row>)
      ensures this.rows == rows
    {
      this.rows := rows;
    }

    /** Sets three columns; the last-used stamp is not among them. */
    method UpdateTwoFactor(id: nat, secret: Option<string>, codes: Option<seq<RecoveryCode>>, confirmedAt: Option<int>)
      modifies this
      ensures rows == if id in old(rows)
        then old(rows)[id := old(rows)[id].(secret := secret, codes := codes, confirmedAt := confirmedAt)] else old(rows)
    {
      if id in rows {
        rows := rows[id := rows[id].(secret := secret, codes := codes, confirmedAt := confirmedAt)];
      }
    }
  }

  class Service {
    const users: Users
    const totp: Generator
    const upper: Upper
    const recoveryCount: nat

    constructor (users: Users, totp: Generator, upper: Upper, recoveryCount: int)
      ensures this.users == users && this.totp == totp && this.upper == upper
      ensures this.recoveryCount == if recoveryCount <= 0 then DEFAULT_RECOVERY_CODE_COUNT else recoveryCount
    {
      this.users, this.totp, this.upper := users, totp, upper;
      this.recoveryCount := if recoveryCount <= 0 then DEFAULT_RECOVERY_CODE_COUNT else recoveryCount;
    }

    /** The table changes at one row, as the specification of the call says. */
    twostate predicate Runs(id: nat, call: Call, answer: Answer)
      reads this, users
    {
      && id in old(users.rows)
      && answer == After(totp, upper, old(users.rows)[id], call).1
      && users.rows == old(users.rows)[id := After(totp, upper, old(users.rows)[id], call).0]
    }

    method Enable(id: nat, secret: string) returns (answer: Answer)
      modifies users
      ensures id !in old(users.rows) ==> answer == NotFound && users.rows == old(users.rows)
      ensures id in old(users.rows) ==> Runs(id, Call.Enable(secret), answer)
    {
      if id !in users.rows {
        return NotFound;
      }
      var u := users.rows[id];
      if u.Enabled() {
        return AlreadyEnabled;
      }
      users.UpdateTwoFactor(id, Some(secret), None, None);
      answer := Done;
    }

    method Confirm(id: nat, code: string, now: int, drawn: seq<string>) returns (answer: Answer)
      requires |drawn| == recoveryCount
      modifies users
      ensures id !in old(users.rows) ==> answer == NotFound && users.rows == old(users.rows)
      ensures id in old(users.rows) ==> Runs(id, Call.Confirm(code, now, drawn), answer)
      ensures answer.Codes? ==> |answer.plain| == recoveryCount
    {
      if id !in users.rows {
        return NotFound;
      }
      var u := users.rows[id];
      if u.secret.None? || u.secret.value == "" {
        return NotEnrolled;
      }
      if u.Enabled() {
        return AlreadyEnabled;
      }
      if !Validates(totp, u.secret.value, code, now) {
        return InvalidCode;
      }
      var plain, codes := GenerateRecoveryCodes(upper, recoveryCount, drawn);
      users.UpdateTwoFactor(id, u.secret, Some(codes), Some(now));
      answer := Codes(plain);
    }

    method VerifyLoginCode(id: nat, code: string, now: int) returns (answer: Answer)
      modifies users
      ensures id !in old(users.rows) ==> answer == Internal && users.rows == old(users.rows)
      ensures id in old(users.rows) ==> Runs(id, VerifyLogin(code, now), answer)
    {
      if id !in users.rows {
        return Internal;
      }
      var u := users.rows[id];
      if !u.Enabled() {
        return NotEnrolled;
      }
      var start := MatchTotpStep(totp, u.secret.value, code, now);
      if start.None? {
        return No;
      }
      if u.lastUsedAt.Some? && !(start.value > u.lastUsedAt.value) {
        return No;
      }
      u := u.(lastUsedAt := start);
      users.rows := users.rows[id := u];
      answer := Yes;
    }

    method ConsumeRecoveryCode(id: nat, code: string, now: int) returns (answer: Answer)
      modifies users
      ensures id !in old(users.rows) ==> answer == Internal && users.rows == old(users.rows)
      ensures id in old(users.rows) ==> Runs(id, Consume(code, now), answer)
    {
      if id !in users.rows {
        return Internal;
      }
      var u := users.rows[id];
      if !u.Enabled() || u.codes.None? {
        return NotEnrolled;
      }
      var codes, presented, consumed := u.codes.value, HashCode(upper, code), false;
      ghost var first := FirstUnused(codes, presented);
      var i := 0;
      while i < |codes|
        invariant i <= first && !consumed && codes == u.codes.value
        decreases |codes| - i
      {
        if codes[i].usedAt.None? && codes[i].code == presented {
          codes := codes[i := codes[i].(usedAt := Some(now))];
          consumed := true;
          assert i == first;
          break;
        }
        assert codes[i] != RecoveryCode(presented, None);
        i := i + 1;
      }
      if !consumed {
        return No;
      }
      users.rows := users.rows[id := u.(codes := Some(codes))];
      answer := Yes;
    }

    method Disable(id: nat) returns (answer: Answer)
      modifies users
      ensures id !in old(users.rows) ==> answer == NotFound && users.rows == old(users.rows)
      ensures id in old(users.rows) ==> Runs(id, Call.Disable, answer)
    {
      if id !in users.rows {
        return NotFound;
      }
      users.UpdateTwoFactor(id, None, None, None);
      answer := Done;
    }

    method RemainingRecoveryCodes(id: nat) returns (remaining: Option<nat>)
      ensures remaining.Some? <==> id in users.rows && users.rows[id].Enabled() && users.rows[id].codes.Some?
      ensures remaining.Some? ==> remaining.value == Remaining(users.rows[id].codes.value)
    {
      if id !in users.rows || !users.rows[id].Enabled() || users.rows[id].codes.None? {
        return None;
      }
      var codes, count := users.rows[id].codes.value, 0;
      for i := 0 to |codes|
        invariant count + Remaining(codes[i..]) == Remaining(codes)
      {
        assert codes[i..][1..] == codes[i + 1..];
        if codes[i].usedAt.None? {
          count := count + 1;
        }
      }
      remaining := Some(count);
    }

    method RegenerateRecoveryCodes(id: nat, drawn: seq<string>) returns (answer: Answer)
      requires |drawn| == recoveryCount
      modifies users
      ensures id !in old(users.rows) ==> answer == NotEnrolled && users.rows == old(users.rows)
      ensures id in old(users.rows) ==> Runs(id, Regenerate(drawn), answer)
      ensures answer.Codes? ==> |answer.plain| == recoveryCount
    {
      if id !in users.rows || !users.rows[id].Enabled() {
        return NotEnrolled;
      }
      var u := users.rows[id];
      var plain, codes := GenerateRecoveryCodes(upper, recoveryCount, drawn);
      users.UpdateTwoFactor(id, u.secret, Some(codes), u.confirmedAt);
      answer := Codes(plain);
    }
  }
}
