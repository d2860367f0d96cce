/** The filter pattern of repositories/login_events.go and the LIKE predicate it is handed to:
    LOWER(column) LIKE pattern ESCAPE '!'. */
module LikePattern {

  const ESCAPE := '!'

  /** strings.ReplaceAll for a one-character old string. */
  function ReplaceAll(s: string, c: char, with: string): string {
    if s == "" then "" else (if s[0] == c then with else [s[0]]) + ReplaceAll(s[1..], c, with)
  }

  /** `lower` stands for strings.ToLower; nothing below depends on which function it is. */
  function LiteralContainsPattern(lower: string -> string, value: string): string {
    var value := lower(value);
    var value := ReplaceAll(value, '!', "!!");
    var value := ReplaceAll(value, '%', "!%");
    var value := ReplaceAll(value, '_', "!_");
    "%" + value + "%"
  }

  predicate Special(c: char) {
    c == '%' || c == '_' || c == ESCAPE
  }

  /** LIKE with an escape character, section 8.5 of ISO/IEC 9075-2. An escape character must be
      followed by a special one; where the standard raises an exception nothing matches here. */
  predicate Like(text: string, pattern: string)
    decreases |pattern|, |text|
  {
    if pattern == "" then text == ""
    else if pattern[0] == '%' then Like(text, pattern[1..]) || (text != "" && Like(text[1..], pattern))
    else if pattern[0] == '_' then text != "" && Like(text[1..], pattern[1..])
    else if pattern[0] == ESCAPE then
      |pattern| >= 2 && Special(pattern[1]) && text != "" && text[0] == pattern[1] && Like(text[1..], pattern[2..])
    else text != "" && text[0] == pattern[0] && Like(text[1..], pattern[1..])
  }

  /** No dangling escape: the standard never raises an exception for such a pattern. */
  predicate WellFormed(pattern: string) {
    pattern == "" ||
    if pattern[0] == ESCAPE then |pattern| >= 2 && Special(pattern[1]) && WellFormed(pattern[2..])
    else WellFormed(pattern[1..])
  }

  /** Escaping in one pass over the value. */
  function Escape(value: string): string {
    if value == "" then ""
    else (if Special(value[0]) then [ESCAPE, value[0]] else [value[0]]) + Escape(value[1..])
  }

  lemma {:induction false} ReplaceAllConcat(s: string, t: string, c: char, with: string)
    ensures ReplaceAll(s + t, c, with) == ReplaceAll(s, c, with) + ReplaceAll(t, c, with)
  {
    if s == "" {
      assert s + t == t;
    } else {
      assert (s + t)[1..] == s[1..] + t;
      ReplaceAllConcat(s[1..], t, c, with);
      var head := if s[0] == c then with else [s[0]];
      assert head + (ReplaceAll(s[1..], c, with) + ReplaceAll(t, c, with))
          == (head + ReplaceAll(s[1..], c, with)) + ReplaceAll(t, c, with);
    }
  }

  /** Replacing the escape character first makes the three passes equal to a single one. */
  lemma {:induction false} ThreePassesAreOne(value: string)
    ensures ReplaceAll(ReplaceAll(ReplaceAll(value, '!', "!!"), '%', "!%"), '_', "!_") == Escape(value)
  {
    if value != "" {
      var head := if value[0] == '!' then "!!" else [value[0]];
      ThreePassesAreOne(value[1..]);
      var rest := ReplaceAll(value[1..], '!', "!!");
      ReplaceAllConcat(head, rest, '%', "!%");
      ReplaceAllConcat(ReplaceAll(head, '%', "!%"), ReplaceAll(rest, '%', "!%"), '_', "!_");
      OneCharacter(value[0], head);
    }
  }

  lemma OneCharacter(c: char, head: string)
    requires head == if c == '!' then "!!" else [c]
    ensures ReplaceAll(ReplaceAll(head, '%', "!%"), '_', "!_") == if Special(c) then [ESCAPE, c] else [c]
  {
    assert ReplaceAll("", '%', "!%") == "" && ReplaceAll("", '_', "!_") == "";
    if c == '!' {
      assert head[1..] == "!" && "!"[1..] == "";
      assert ReplaceAll("!", '%', "!%") == "!" && ReplaceAll("!", '_', "!_") == "!";
    } else if c == '%' {
      assert "!%"[1..] == "%" && "%"[1..] == "";
      assert ReplaceAll("%", '_', "!_") == "%";
    }
  }

  /** An escaped character consumes exactly that character of the text. */
  lemma EscapedCharacter(text: string, c: char, rest: string)
    ensures
      var head := if Special(c) then [ESCAPE, c] else [c];
      Like(text, head + rest) <==> text != "" && text[0] == c && Like(text[1..], rest)
  {
  }

  /** An escaped literal matches itself and nothing else, whatever the pattern goes on with. */
  lemma {:induction false} EscapedMatchesItself(text: string, value: string, rest: string)
    ensures Like(text, Escape(value) + rest) <==> value <= text && Like(text[|value|..], rest)
  {
    if value == "" {
      assert Escape(value) + rest == rest;
    } else {
      var head := if Special(value[0]) then [ESCAPE, value[0]] else [value[0]];
      var tail := Escape(value[1..]);
      assert Escape(value) == head + tail;
      hide Like, Escape;
      assert (head + tail) + rest == head + (tail + rest);
      EscapedCharacter(text, value[0], tail + rest);
      if text != "" {
        EscapedMatchesItself(text[1..], value[1..], rest);
        assert value <= text <==> value[0] == text[0] && value[1..] <= text[1..];
        if value <= text {
          assert text[1..][|value[1..]|..] == text[|value|..];
        }
      }
    }
  }

  lemma {:induction false} TrailingPercent(text: string)
    ensures Like(text, "%")
  {
    if text == "" {
      assert Like("", "");
    } else {
      TrailingPercent(text[1..]);
    }
  }

  predicate OccursAt(text: string, part: string, i: int) {
    0 <= i <= |text| - |part| && text[i..i + |part|] == part
  }

  /** `part` occurs in `text` at some position. */
  ghost predicate Contains(text: string, part: string) {
    exists i :: OccursAt(text, part, i)
  }

  lemma ContainsFromFront(text: string, part: string)
    ensures Contains(text, part) <==> part <= text || (text != "" && Contains(text[1..], part))
  {
    assert part <= text <==> OccursAt(text, part, 0);
    if text != "" {
      forall i | i >= 0 ensures OccursAt(text[1..], part, i) <==> OccursAt(text, part, i + 1) {
        if i <= |text| - 1 - |part| {
          assert text[1..][i..i + |part|] == text[i + 1..i + 1 + |part|];
        }
      }
      if i :| OccursAt(text, part, i) && i > 0 {
        assert OccursAt(text[1..], part, i - 1);
      }
    }
  }

  lemma {:induction false} PercentSearches(text: string, value: string)
    ensures Like(text, "%" + (Escape(value) + "%")) <==> Contains(text, value)
  {
    var pattern := "%" + (Escape(value) + "%");
    assert pattern[1..] == Escape(value) + "%";
    EscapedMatchesItself(text, value, "%");
    if value <= text {
      TrailingPercent(text[|value|..]);
    }
    ContainsFromFront(text, value);
    if text != "" {
      PercentSearches(text[1..], value);
    }
  }

  lemma EscapedCharacterWellFormed(c: char, rest: string)
    requires WellFormed(rest)
    ensures WellFormed((if Special(c) then [ESCAPE, c] else [c]) + rest)
  {
  }

  lemma {:induction false} EscapeWellFormed(value: string, rest: string)
    requires WellFormed(rest)
    ensures WellFormed(Escape(value) + rest)
  {
    if value == "" {
      assert Escape(value) + rest == rest;
    } else {
      EscapeWellFormed(value[1..], rest);
      var head := if Special(value[0]) then [ESCAPE, value[0]] else [value[0]];
      var tail := Escape(value[1..]);
      assert Escape(value) == head + tail;
      hide WellFormed, Escape;
      EscapedCharacterWellFormed(value[0], tail + rest);
      assert (head + tail) + rest == head + (tail + rest);
    }
  }

  /** Main result: for every text and every filter value, the text matches the generated pattern
      exactly when it contains the lowercased value literally. */
  lemma PatternMatchesLiterally(lower: string -> string, value: string, text: string)
    ensures Like(text, LiteralContainsPattern(lower, value)) <==> Contains(text, lower(value))
    ensures WellFormed(LiteralContainsPattern(lower, value))
  {
    ThreePassesAreOne(lower(value));
    var escaped := Escape(lower(value));
    assert "%" + escaped + "%" == "%" + (escaped + "%");
    PercentSearches(text, lower(value));
    assert WellFormed("%"[1..]);
    EscapeWellFormed(lower(value), "%");
    assert ("%" + (escaped + "%"))[1..] == escaped + "%";
  }
}
