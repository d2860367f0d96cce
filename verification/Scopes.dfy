/** validateScopes of services/api_tokens.go: from a list of requested scopes to the stored list. */
module Scopes {
  import opened GoStrings

  predicate AlphaNumeric(c: char) {
    'A' <= c <= 'Z' || 'a' <= c <= 'z' || '0' <= c <= '9'
  }

  /** The regular expression ^[A-Za-z0-9][A-Za-z0-9:_-]{0,63}$ */
  predicate MatchesPattern(s: string) {
    && 1 <= |s| <= 64 && AlphaNumeric(s[0])
    && forall i :: 0 < i < |s| ==> AlphaNumeric(s[i]) || s[i] in ":_-"
  }

  /** The pattern's second half as a matcher reads it: at most `room` more characters, each an ASCII
      digit, letter, colon, underscore or hyphen. */
  predicate ReadsTail(s: string, room: nat) {
    s == "" ||
    (var c := s[0] as int;
     && room > 0 && ReadsTail(s[1..], room - 1)
     && (0x30 <= c <= 0x39 || 0x41 <= c <= 0x5A || 0x61 <= c <= 0x7A || c == 0x3A || c == 0x5F || c == 0x2D))
  }

  lemma {:induction false} TailReads(s: string, room: nat)
    ensures ReadsTail(s, room) <==> |s| <= room && forall i :: 0 <= i < |s| ==> AlphaNumeric(s[i]) || s[i] in ":_-"
  {
    if s != "" && room > 0 {
      TailReads(s[1..], room - 1);
      assert forall i :: 0 < i < |s| ==> s[i] == s[1..][i - 1];
    }
  }

  /** What fits the pattern is what a matcher reads: an alphanumeric character and up to 63 more. */
  lemma PatternIsRead(s: string)
    ensures MatchesPattern(s) <==> s != "" && ReadsTail(s[..1], 1) && s[0] !in ":_-" && ReadsTail(s[1..], 63)
  {
    if s != "" {
      TailReads(s[..1], 1);
      TailReads(s[1..], 63);
      assert forall i :: 0 < i < |s| ==> s[i] == s[1..][i - 1];
      assert s[..1][0] == s[0];
    }
  }

  datatype Scoped = Scopes(list: seq<string>) | InvalidScope | ScopeNotAllowed

  predicate Accepted(raw: string, allowed: set<string>) {
    MatchesPattern(TrimSpace(raw)) && TrimSpace(raw) in allowed
  }

  /** The scopes a list of inputs asks for. */
  function Requested(input: seq<string>): set<string> {
    set i | 0 <= i < |input| :: TrimSpace(input[i])
  }

  /** The first input that is not acceptable decides the error. */
  ghost predicate FailsAt(input: seq<string>, allowed: set<string>, k: nat, result: Scoped) {
    && k < |input|
    && (forall i :: 0 <= i < k ==> Accepted(input[i], allowed))
    && !Accepted(input[k], allowed)
    && result == if MatchesPattern(TrimSpace(input[k])) then ScopeNotAllowed else InvalidScope
  }

  /** What the result promises: a strictly ascending list of exactly the requested scopes when all
      are acceptable, the first failure otherwise. */
  ghost predicate Validates(input: seq<string>, allowed: set<string>, result: Scoped) {
    if forall i :: 0 <= i < |input| ==> Accepted(input[i], allowed)
    then result.Scopes? && Ascending(result.list) && Members(result.list) == Requested(input)
    else exists k :: FailsAt(input, allowed, k, result)
  }

  method ValidateScopes(input: seq<string>, allowed: set<string>) returns (result: Scoped)
    ensures Validates(input, allowed, result)
  {
    var seen: set<string> := {};
    var out: seq<string> := [];
    for n := 0 to |input|
      invariant forall i :: 0 <= i < n ==> Accepted(input[i], allowed)
      invariant forall i, j :: 0 <= i < j < |out| ==> out[i] != out[j]
      invariant seen == Members(out) == Requested(input[..n])
    {
      var scope := TrimSpace(input[n]);
      RequestedStep(input, n);
      if !MatchesPattern(scope) {
        assert FailsAt(input, allowed, n, InvalidScope);
        return InvalidScope;
      }
      if scope !in allowed {
        assert FailsAt(input, allowed, n, ScopeNotAllowed);
        return ScopeNotAllowed;
      }
      if scope !in seen {
        assert Members(out + [scope]) == Members(out) + {scope};
        seen := seen + {scope};
        out := out + [scope];
      }
    }
    assert input[..|input|] == input;
    SortedSorts(out);
    result := Scopes(Sorted(out));
  }

  lemma RequestedStep(input: seq<string>, n: nat)
    requires n < |input|
    ensures Requested(input[..n + 1]) == Requested(input[..n]) + {TrimSpace(input[n])}
  {
  }

  /** A failure is that of the first input that fails, and a bad pattern is told before a missing
      permission. */
  lemma FailureDecides(input: seq<string>, allowed: set<string>, result: Scoped, k: nat)
    requires Validates(input, allowed, result) && k < |input|
    requires forall i :: 0 <= i < k ==> MatchesPattern(TrimSpace(input[i])) && TrimSpace(input[i]) in allowed
    requires !(MatchesPattern(TrimSpace(input[k])) && TrimSpace(input[k]) in allowed)
    ensures result == if !MatchesPattern(TrimSpace(input[k])) then InvalidScope else ScopeNotAllowed
  {
    hide MatchesPattern, TrimSpace;
    assert !Accepted(input[k], allowed);
    var first: nat :| FailsAt(input, allowed, first, result);
  }

  /** The promise leaves no freedom on success: any two inputs asking for the same set, in any
      order and with any repetition, get the identical list. */
  lemma SameRequestSameList(a: seq<string>, b: seq<string>, allowed: set<string>, resultA: Scoped, resultB: Scoped)
    requires Validates(a, allowed, resultA) && Validates(b, allowed, resultB)
    requires Requested(a) == Requested(b)
    ensures resultA.Scopes? <==> resultB.Scopes?
    ensures resultA.Scopes? ==> resultA == resultB
  {
    if forall i :: 0 <= i < |a| ==> Accepted(a[i], allowed) {
      SuccessDependsOnSet(a, b, allowed);
    }
    if forall i :: 0 <= i < |b| ==> Accepted(b[i], allowed) {
      SuccessDependsOnSet(b, a, allowed);
    }
    if resultA.Scopes? && resultB.Scopes? {
      AscendingIsCanonical(resultA.list, resultB.list);
    }
  }

  lemma SuccessDependsOnSet(a: seq<string>, b: seq<string>, allowed: set<string>)
    requires Requested(a) == Requested(b)
    requires forall i :: 0 <= i < |a| ==> Accepted(a[i], allowed)
    ensures forall i :: 0 <= i < |b| ==> Accepted(b[i], allowed)
  {
    forall i | 0 <= i < |b| ensures Accepted(b[i], allowed) {
      assert TrimSpace(b[i]) in Requested(b);
      var j :| 0 <= j < |a| && TrimSpace(a[j]) == TrimSpace(b[i]);
      assert Accepted(a[j], allowed);
    }
  }

  lemma ListedScope(input: seq<string>, allowed: set<string>, scope: string)
    requires forall i :: 0 <= i < |input| ==> Accepted(input[i], allowed)
    requires scope in Requested(input)
    ensures Accepted(scope, allowed) && TrimSpace(scope) == scope
  {
  }

  /** Validating a validated list changes nothing. */
  lemma ValidatedIsFixed(input: seq<string>, allowed: set<string>, result: Scoped, again: Scoped)
    requires Validates(input, allowed, result) && result.Scopes?
    requires Validates(result.list, allowed, again)
    ensures again == result
  {
    hide TrimSpace, MatchesPattern, Less;
    var list := result.list;
    forall i | 0 <= i < |list| ensures Accepted(list[i], allowed) && TrimSpace(list[i]) == list[i] {
      assert list[i] in Members(list);
      ListedScope(input, allowed, list[i]);
    }
    hide Accepted;
    assert Requested(list) == Members(list);
    AscendingIsCanonical(again.list, list);
  }
}
