/** What holds over every sequence of two-factor calls on one user's row. */
module TwoFactorSafety {
  import opened OptionType
  import opened GoStrings
  import opened TwoFactor

  function FinalRow(totp: Generator, upper: Upper, row: Row, calls: seq<Call>): Row {
    if calls == [] then row
    else After(totp, upper, FinalRow(totp, upper, row, calls[..|calls| - 1]), calls[|calls| - 1]).0
  }

  function LastAnswer(totp: Generator, upper: Upper, row: Row, calls: seq<Call>): Answer
    requires calls != []
  {
    After(totp, upper, FinalRow(totp, upper, row, calls[..|calls| - 1]), calls[|calls| - 1]).1
  }

  // ---------------------------------------------------------------- login codes

  /** An accepted login code: the start of its step and the clock reading of the call. */
  datatype Acceptance = Acceptance(start: int, now: int)

  function Acceptances(totp: Generator, upper: Upper, row: Row, calls: seq<Call>): seq<Acceptance> {
    if calls == [] then []
    else
      var before := Acceptances(totp, upper, row, calls[..|calls| - 1]);
      var call := calls[|calls| - 1];
      var was := FinalRow(totp, upper, row, calls[..|calls| - 1]);
      if call.VerifyLogin? && After(totp, upper, was, call).1 == Yes
      then before + [Acceptance(MatchedStep(totp, was.secret.value, call.code, call.now).value, call.now)]
      else before
  }

  /** The accepted start is that of the current step or of a neighbour. */
  predicate NearNow(a: Acceptance) {
    a.start % PERIOD == 0 && -1 <= a.start / PERIOD - TimeStep(a.now) <= 1
  }

  lemma StepIsNear(now: int, t: int)
    requires t == now || t == now - 30 || t == now + 30
    ensures NearNow(Acceptance(TimeStep(t) * PERIOD, now))
  {
  }

  lemma MatchedIsNear(totp: Generator, secret: string, code: string, now: int)
    requires MatchedStep(totp, secret, code, now).Some?
    ensures NearNow(Acceptance(MatchedStep(totp, secret, code, now).value, now))
  {
    hide CodeFits, NearNow, TimeStep;
    StepIsNear(now, now);
    StepIsNear(now, now - 30);
    StepIsNear(now, now + 30);
  }

  lemma StepsAreOrdered(a: int, b: int)
    requires a <= b
    ensures TimeStep(a) <= TimeStep(b)
  {
  }

  /** One call moves the stamp only by accepting, and then forward; in particular disabling and
      enrolling again leave it alone. */
  lemma StampMovesForward(totp: Generator, upper: Upper, row: Row, call: Call)
    ensures
      var (row', answer) := After(totp, upper, row, call);
      if call.VerifyLogin? && answer == Yes
      then row.secret.Some? && MatchedStep(totp, row.secret.value, call.code, call.now).Some?
           && row'.lastUsedAt == MatchedStep(totp, row.secret.value, call.code, call.now)
           && (row.lastUsedAt.Some? ==> row.lastUsedAt.value < row'.lastUsedAt.value)
      else row'.lastUsedAt == row.lastUsedAt
  {
  }

  /** Main result: over every sequence of calls, through disabling and new enrolments with new
      secrets, and with the writes of unlocked calls falling anywhere in between, the accepted steps
      strictly increase from the stored stamp on, and each is within one step of its own time. So no
      step is ever accepted twice. */
  lemma {:induction false} AcceptedStepsIncrease(totp: Generator, upper: Upper, row: Row, calls: seq<Call>)
    ensures
      var accepted := Acceptances(totp, upper, row, calls);
      && (forall i, j :: 0 <= i < j < |accepted| ==> accepted[i].start < accepted[j].start)
      && (forall i :: 0 <= i < |accepted| ==> NearNow(accepted[i]))
      && (row.lastUsedAt.Some? ==> forall i :: 0 <= i < |accepted| ==> row.lastUsedAt.value < accepted[i].start)
      && FinalRow(totp, upper, row, calls).lastUsedAt ==
           if accepted == [] then row.lastUsedAt else Some(accepted[|accepted| - 1].start)
  {
    hide After, NearNow;
    if calls != [] {
      var rest := calls[..|calls| - 1];
      AcceptedStepsIncrease(totp, upper, row, rest);
      var was := FinalRow(totp, upper, row, rest);
      var call := calls[|calls| - 1];
      StampMovesForward(totp, upper, was, call);
      if call.VerifyLogin? && After(totp, upper, was, call).1 == Yes {
        MatchedIsNear(totp, was.secret.value, call.code, call.now);
      }
    }
  }

  /** Strictly increasing numbers in lo..hi at a set of places: there are at most hi - lo + 1. */
  lemma {:induction false} IncreasingFits(accepted: seq<Acceptance>, places: set<nat>, lo: int, hi: int)
    requires forall i, j :: 0 <= i < j < |accepted| ==> accepted[i].start < accepted[j].start
    requires forall i :: 0 <= i < |accepted| ==> accepted[i].start % PERIOD == 0
    requires forall i :: i in places ==> i < |accepted| && lo <= accepted[i].start / PERIOD <= hi
    requires lo <= hi + 1
    ensures |places| <= hi - lo + 1
    decreases hi - lo + 1
  {
    if hi < lo {
      assert places == {};
    } else if i :| i in places && accepted[i].start / PERIOD == hi {
      forall j | j in places - {i} ensures accepted[j].start / PERIOD <= hi - 1 {
        assert accepted[j].start != accepted[i].start;
      }
      IncreasingFits(accepted, places - {i}, lo, hi - 1);
    } else {
      IncreasingFits(accepted, places, lo, hi - 1);
    }
  }

  /** Main result: the acceptances with a clock reading between a and b number at most the steps
      from a to b and three, whatever order the calls came in. */
  lemma AcceptancesAreBounded(totp: Generator, upper: Upper, row: Row, calls: seq<Call>, a: int, b: int)
    requires a <= b
    ensures
      var accepted := Acceptances(totp, upper, row, calls);
      |set i | 0 <= i < |accepted| && a <= accepted[i].now <= b| <= TimeStep(b) - TimeStep(a) + 3
  {
    var accepted := Acceptances(totp, upper, row, calls);
    AcceptedStepsIncrease(totp, upper, row, calls);
    var places: set<nat> := set i | 0 <= i < |accepted| && a <= accepted[i].now <= b;
    assert places == set i | 0 <= i < |accepted| && a <= accepted[i].now <= b;
    StepsAreOrdered(a, b);
    forall i | i in places ensures TimeStep(a) - 1 <= accepted[i].start / PERIOD <= TimeStep(b) + 1 {
      assert NearNow(accepted[i]);
      StepsAreOrdered(a, accepted[i].now);
      StepsAreOrdered(accepted[i].now, b);
    }
    assert forall i :: 0 <= i < |accepted| ==> NearNow(accepted[i]) && accepted[i].start % PERIOD == 0;
    IncreasingFits(accepted, places, TimeStep(a) - 1, TimeStep(b) + 1);
  }

  // ---------------------------------------------------------------- recovery codes

  lemma {:induction false} NothingUnused(codes: seq<RecoveryCode>, h: Hash)
    ensures FirstUnused(codes, h) == |codes| <==> Unused(codes, h) == 0
  {
    if codes != [] { NothingUnused(codes[1..], h); }
  }

  /** Marking the first unused entry of a hash lowers that hash's count by one and no other's. */
  lemma {:induction false} MarkingEffect(codes: seq<RecoveryCode>, h: Hash, now: int, other: Hash)
    requires FirstUnused(codes, h) < |codes|
    ensures
      var k := FirstUnused(codes, h);
      var codes' := codes[k := codes[k].(usedAt := Some(now))];
      && Remaining(codes') == Remaining(codes) - 1 && Used(codes') == Used(codes) + 1
      && Unused(codes', other) == Unused(codes, other) - if other == h then 1 else 0
  {
    var k := FirstUnused(codes, h);
    var codes' := codes[k := codes[k].(usedAt := Some(now))];
    if k > 0 {
      MarkingEffect(codes[1..], h, now, other);
      assert codes'[1..] == codes[1..][k - 1 := codes[k].(usedAt := Some(now))];
    } else {
      assert codes'[1..] == codes[1..];
    }
  }

  lemma {:induction false} UsedPlusRemaining(codes: seq<RecoveryCode>)
    ensures Used(codes) + Remaining(codes) == |codes|
  {
    if codes != [] { UsedPlusRemaining(codes[1..]); }
  }

  /** How often a hash occurs in a list of drawn codes. */
  function Occurrences(upper: Upper, drawn: seq<string>, h: Hash): nat {
    if drawn == [] then 0 else (if HashCode(upper, drawn[0]) == h then 1 else 0) + Occurrences(upper, drawn[1..], h)
  }

  lemma {:induction false} FreshCounts(upper: Upper, drawn: seq<string>, h: Hash)
    ensures Unused(Fresh(upper, drawn), h) == Occurrences(upper, drawn, h)
    ensures Remaining(Fresh(upper, drawn)) == |drawn|
  {
    if drawn != [] {
      FreshCounts(upper, drawn[1..], h);
      assert Fresh(upper, drawn)[1..] == Fresh(upper, drawn[1..]);
    }
  }

  predicate Between(calls: seq<Call>) {
    forall i :: 0 <= i < |calls| ==> !calls[i].Disable? && !calls[i].Regenerate? && !calls[i].Write?
  }

  predicate Presents(upper: Upper, call: Call, h: Hash) {
    call.Consume? && HashCode(upper, call.code) == h
  }

  function Presentations(upper: Upper, calls: seq<Call>, h: Hash): nat {
    if calls == [] then 0
    else Presentations(upper, calls[..|calls| - 1], h) + if Presents(upper, calls[|calls| - 1], h) then 1 else 0
  }

  /** The successful consumptions of one hash, and of any. */
  function Successes(totp: Generator, upper: Upper, row: Row, calls: seq<Call>, h: Hash): nat {
    if calls == [] then 0
    else
      Successes(totp, upper, row, calls[..|calls| - 1], h)
      + if Presents(upper, calls[|calls| - 1], h) && LastAnswer(totp, upper, row, calls) == Yes then 1 else 0
  }

  function AllSuccesses(totp: Generator, upper: Upper, row: Row, calls: seq<Call>): nat {
    if calls == [] then 0
    else
      AllSuccesses(totp, upper, row, calls[..|calls| - 1])
      + if calls[|calls| - 1].Consume? && LastAnswer(totp, upper, row, calls) == Yes then 1 else 0
  }

  predicate Enrolled(row: Row) {
    row.Enabled() && row.codes.Some?
  }

  /** One call on an enrolled row, other than disabling and regenerating. */
  lemma OneCall(totp: Generator, upper: Upper, row: Row, call: Call, h: Hash)
    requires Enrolled(row) && !call.Disable? && !call.Regenerate? && !call.Write?
    ensures
      var (row', answer) := After(totp, upper, row, call);
      var success := call.Consume? && answer == Yes;
      && Enrolled(row')
      && Remaining(row'.codes.value) == Remaining(row.codes.value) - (if success then 1 else 0)
      && Used(row'.codes.value) == Used(row.codes.value) + (if success then 1 else 0)
      && Unused(row'.codes.value, h) == Unused(row.codes.value, h) - (if success && Presents(upper, call, h) then 1 else 0)
      && (Presents(upper, call, h) ==> (success <==> Unused(row.codes.value, h) > 0))
  {
    hide MatchedStep, Validates, Fresh, Remaining, Used, Unused;
    if call.Consume? {
      var codes, presented := row.codes.value, HashCode(upper, call.code);
      NothingUnused(codes, presented);
      if FirstUnused(codes, presented) < |codes| {
        MarkingEffect(codes, presented, call.now, h);
      }
    }
  }

  /** Main result: from an enrolled row, until it is disabled or regenerated, the presentations of
      one hash succeed exactly as often as the hash is there unused, whatever happens in between;
      every success uses up one code, and the codes never get more or fewer. */
  lemma {:induction false} EachCodeOnce(totp: Generator, upper: Upper, row: Row, calls: seq<Call>, h: Hash)
    requires Enrolled(row) && Between(calls)
    ensures
      var row' := FinalRow(totp, upper, row, calls);
      var there, presented := Unused(row.codes.value, h), Presentations(upper, calls, h);
      && Enrolled(row')
      && Successes(totp, upper, row, calls, h) == (if presented <= there then presented else there)
      && Unused(row'.codes.value, h) == there - Successes(totp, upper, row, calls, h)
      && Remaining(row'.codes.value) == Remaining(row.codes.value) - AllSuccesses(totp, upper, row, calls)
      && Used(row'.codes.value) == Used(row.codes.value) + AllSuccesses(totp, upper, row, calls)
      && |row'.codes.value| == |row.codes.value|
  {
    hide After, Remaining, Used, Unused, Enrolled, Presents;
    if calls != [] {
      var rest := calls[..|calls| - 1];
      EachCodeOnce(totp, upper, row, rest, h);
      OneCall(totp, upper, FinalRow(totp, upper, row, rest), calls[|calls| - 1], h);
      PresentingConsumes(upper, calls[|calls| - 1], h);
    }
    EnrolledHasCodes(row);
    EnrolledHasCodes(FinalRow(totp, upper, row, calls));
    UsedPlusRemaining(row.codes.value);
    UsedPlusRemaining(FinalRow(totp, upper, row, calls).codes.value);
  }

  lemma PresentingConsumes(upper: Upper, call: Call, h: Hash)
    ensures Presents(upper, call, h) ==> call.Consume?
  {
  }

  lemma EnrolledHasCodes(row: Row)
    ensures Enrolled(row) ==> row.codes.Some?
  {
  }

  /** Main result: after a confirmation or a regeneration that drew these codes, a text opens the
      account exactly as often as it is presented, up to the number of drawn codes it normalises
      to; all texts together succeed at most as often as the configured count of codes. */
  lemma DrawnCodesOpenOnce(totp: Generator, upper: Upper, row: Row, count: nat, drawn: seq<string>, calls: seq<Call>, text: string)
    requires |drawn| == count
    requires row.Enabled() && row.codes == Some(Fresh(upper, drawn)) && Between(calls)
    ensures
      var h := HashCode(upper, text);
      var times, presented := Occurrences(upper, drawn, h), Presentations(upper, calls, h);
      Successes(totp, upper, row, calls, h) == if presented <= times then presented else times
    ensures AllSuccesses(totp, upper, row, calls) <= count
  {
    var h := HashCode(upper, text);
    hide HashCode, Successes, AllSuccesses, Presentations, Occurrences, Remaining, Unused;
    EachCodeOnce(totp, upper, row, calls, h);
    FreshCounts(upper, drawn, h);
  }

  /** Two-factor login is switched on only by a code that validates against the pending secret, and
      off only by disabling; nothing but an enrolment or disabling replaces the secret. */
  lemma SwitchedOnByCode(totp: Generator, upper: Upper, row: Row, call: Call)
    requires !call.Write?
    ensures
      var (row', answer) := After(totp, upper, row, call);
      && (!row.Enabled() ==> (row'.Enabled() <==> call.Confirm? && row.secret.Some? && row.secret.value != ""
                                                  && Validates(totp, row.secret.value, call.code, call.now)))
      && (row.Enabled() ==> (row'.Enabled() <==> !call.Disable?))
      && (row'.secret != row.secret ==> call.Disable? || (call.Enable? && !row.Enabled()))
  {
  }

  // ---------------------------------------------------------------- what is accepted, and what is left

  /** The start of the step that a code is accepted for: the code is the current step's, or only the
      one before, or only the next. */
  predicate IsFor(totp: Generator, secret: string, code: string, now: int, start: int) {
    var text := Some(TrimSpace(code));
    || (totp(secret, now / 30) == text && start == StepStart(now))
    || (totp(secret, now / 30) != text && totp(secret, (now - 30) / 30) == text && start == StepStart(now - 30))
    || (totp(secret, now / 30) != text && totp(secret, (now - 30) / 30) != text
        && totp(secret, (now + 30) / 30) == text && start == StepStart(now + 30))
  }

  /** The last multiple of 30 not after t; before 1970 the first one not before it. */
  function StepStart(t: int): int {
    if t >= 0 then t - t % 30 else t + (-t) % 30
  }

  lemma StepStartIs(t: int)
    ensures TimeStep(t) * PERIOD == StepStart(t)
  {
  }

  lemma MatchedIsFor(totp: Generator, secret: string, code: string, now: int)
    ensures forall start :: MatchedStep(totp, secret, code, now) == Some(start) <==> IsFor(totp, secret, code, now, start)
  {
    hide TimeStep, StepStart;
    StepStartIs(now);
    StepStartIs(now - 30);
    StepStartIs(now + 30);
  }

  /** Main result: a login code of an enrolled user is accepted exactly if it is for some step that
      starts after the stamp, and then the stamp is that start. */
  lemma AcceptedIff(totp: Generator, upper: Upper, row: Row, code: string, now: int)
    ensures
      var (row', answer) := After(totp, upper, row, VerifyLogin(code, now));
      && (answer == NotEnrolled <==> !row.Enabled())
      && (row.Enabled() ==>
            && (answer == Yes || answer == No)
            && (answer == Yes <==> exists start :: IsFor(totp, row.secret.value, code, now, start)
                                                && (row.lastUsedAt.Some? ==> start > row.lastUsedAt.value))
            && (answer == Yes ==> row'.lastUsedAt.Some? && IsFor(totp, row.secret.value, code, now, row'.lastUsedAt.value)))
      && row' == (if answer == Yes then row.(lastUsedAt := row'.lastUsedAt) else row)
  {
    if row.Enabled() {
      MatchedIsFor(totp, row.secret.value, code, now);
    }
    hide MatchedStep, IsFor;
  }

  lemma OnlyStepIsFor(totp: Generator, secret: string, code: string, now: int, t: int)
    requires t == now || t == now - 30 || t == now + 30
    requires totp(secret, t / 30) == Some(TrimSpace(code))
    requires forall u :: u != t && (u == now || u == now - 30 || u == now + 30) ==> totp(secret, u / 30) != Some(TrimSpace(code))
    ensures forall start :: IsFor(totp, secret, code, now, start) <==> start == StepStart(t)
  {
    hide StepStart, TrimSpace;
  }

  /** Later than the stamp is later than every accepted step and than the stamp at first. */
  lemma NewerThanStamp(totp: Generator, upper: Upper, row: Row, calls: seq<Call>, x: int)
    ensures
      var accepted, stamp := Acceptances(totp, upper, row, calls), FinalRow(totp, upper, row, calls).lastUsedAt;
      (stamp.Some? ==> x > stamp.value) <==>
        (forall i :: 0 <= i < |accepted| ==> x > accepted[i].start) && (row.lastUsedAt.Some? ==> x > row.lastUsedAt.value)
  {
    AcceptedStepsIncrease(totp, upper, row, calls);
    var accepted := Acceptances(totp, upper, row, calls);
    hide FinalRow, Acceptances;
    if accepted != [] {
      var last := accepted[|accepted| - 1].start;
      assert forall i :: 0 <= i < |accepted| ==> accepted[i].start <= last;
    }
  }

  /** Main result: over every sequence of calls, a code that belongs to just one of the three steps
      around now is accepted exactly if that step starts after every accepted one and after the stamp
      the row came with. So single use is all that refuses a good code. */
  lemma NewCodeIsAccepted(totp: Generator, upper: Upper, row: Row, calls: seq<Call>, code: string, now: int, t: int)
    requires t == now || t == now - 30 || t == now + 30
    requires FinalRow(totp, upper, row, calls).Enabled()
    requires
      var secret := FinalRow(totp, upper, row, calls).secret.value;
      && totp(secret, t / 30) == Some(TrimSpace(code))
      && forall u :: u != t && (u == now || u == now - 30 || u == now + 30) ==> totp(secret, u / 30) != Some(TrimSpace(code))
    ensures
      var accepted := Acceptances(totp, upper, row, calls);
      After(totp, upper, FinalRow(totp, upper, row, calls), VerifyLogin(code, now)).1 == Yes <==>
        && (forall i :: 0 <= i < |accepted| ==> StepStart(t) > accepted[i].start)
        && (row.lastUsedAt.Some? ==> StepStart(t) > row.lastUsedAt.value)
  {
    hide FinalRow, Acceptances, IsFor, StepStart, After, TrimSpace;
    var last := FinalRow(totp, upper, row, calls);
    NewerThanStamp(totp, upper, row, calls, StepStart(t));
    OnlyStepIsFor(totp, last.secret.value, code, now, t);
    assert IsFor(totp, last.secret.value, code, now, StepStart(t));
    AcceptedIff(totp, upper, last, code, now);
  }

  /** What the calls of an enrolment answer, and what each leaves in the row. */
  lemma EnrolmentSteps(totp: Generator, upper: Upper, row: Row, call: Call)
    requires !call.VerifyLogin? && !call.Consume? && !call.Write?
    ensures
      var (row', answer) := After(totp, upper, row, call);
      var on := row.confirmedAt.Some? && row.secret.Some? && row.secret.value != "";
      && row'.lastUsedAt == row.lastUsedAt
      && (call.Enable? ==>
            && answer == (if on then AlreadyEnabled else Done)
            && (answer == Done ==> row'.secret == Some(call.secret) && row'.codes.None? && row'.confirmedAt.None?))
      && (call.Confirm? ==>
            && (answer == NotEnrolled <==> row.secret.None? || row.secret.value == "")
            && (answer == AlreadyEnabled <==> on)
            && (answer.Codes? <==> row.secret.Some? && row.secret.value != "" && row.confirmedAt.None?
                                   && exists start :: IsFor(totp, row.secret.value, call.code, call.now, start))
            && (answer.Codes? || answer == NotEnrolled || answer == AlreadyEnabled || answer == InvalidCode)
            && (answer.Codes? ==> row'.secret == row.secret && row'.confirmedAt == Some(call.now)))
      && (call.Disable? ==> answer == Done && row'.secret.None? && row'.codes.None? && row'.confirmedAt.None?)
      && (call.Regenerate? ==>
            && (answer.Codes? <==> on) && (!on ==> answer == NotEnrolled)
            && (on ==> row'.secret == row.secret && row'.confirmedAt == row.confirmedAt))
      && (answer.Codes? ==>
            && answer.plain == call.drawn && row'.codes.Some? && |row'.codes.value| == |call.drawn|
            && forall i :: 0 <= i < |call.drawn| ==>
                 row'.codes.value[i] == RecoveryCode(Sha256(upper(TrimSpace(call.drawn[i]))), None))
      && (answer != Done && !answer.Codes? ==> row' == row)
  {
    if call.Confirm? && row.secret.Some? {
      ValidatesIff(totp, row.secret.value, call.code, call.now);
    }
    hide Validates, IsFor;
  }

  lemma ValidatesIff(totp: Generator, secret: string, code: string, now: int)
    ensures Validates(totp, secret, code, now) <==> exists start :: IsFor(totp, secret, code, now, start)
  {
    MatchedIsFor(totp, secret, code, now);
    assert Validates(totp, secret, code, now) <==> MatchedStep(totp, secret, code, now).Some?;
    hide IsFor, Validates, MatchedStep;
    if MatchedStep(totp, secret, code, now).Some? {
      assert IsFor(totp, secret, code, now, MatchedStep(totp, secret, code, now).value);
    }
  }

  /** What using a recovery code leaves: one entry of the presented hash that was unused, the first,
      now carries the time, and everything else in the row is as it was. */
  lemma ConsumeMarks(totp: Generator, upper: Upper, row: Row, code: string, now: int)
    ensures
      var (row', answer) := After(totp, upper, row, Consume(code, now));
      && (answer == NotEnrolled <==> !row.Enabled() || row.codes.None?)
      && (answer != Yes ==> row' == row)
      && (answer == Yes ==>
            && row'.codes.Some? && row' == row.(codes := row'.codes) && |row'.codes.value| == |row.codes.value|
            && exists k :: MarkedAt(row.codes.value, row'.codes.value, Sha256(upper(TrimSpace(code))), now, k))
  {
    if row.Enabled() && row.codes.Some? {
      var k := FirstUnused(row.codes.value, HashCode(upper, code));
      if k < |row.codes.value| {
        assert MarkedAt(row.codes.value, After(totp, upper, row, Consume(code, now)).0.codes.value, Sha256(upper(TrimSpace(code))), now, k);
      }
    }
    hide FirstUnused;
  }

  ghost predicate MarkedAt(before: seq<RecoveryCode>, after: seq<RecoveryCode>, h: Hash, now: int, k: nat) {
    && k < |before| == |after| && before[k] == RecoveryCode(h, None) && after[k] == RecoveryCode(h, Some(now))
    && (forall i :: 0 <= i < k ==> before[i] != RecoveryCode(h, None))
    && forall i :: 0 <= i < |before| && i != k ==> after[i] == before[i]
  }

  /** Such rows are what Confirm and RegenerateRecoveryCodes leave behind. */
  lemma CodesAreFresh(totp: Generator, upper: Upper, row: Row, call: Call)
    requires After(totp, upper, row, call).1.Codes?
    ensures
      var (row', answer) := After(totp, upper, row, call);
      row'.Enabled() && row'.codes == Some(Fresh(upper, answer.plain)) && row'.lastUsedAt == row.lastUsedAt
  {
  }
}
