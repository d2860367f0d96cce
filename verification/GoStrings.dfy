/** The two string routines of Go's library that results depend on: TrimSpace, and the order
    that sort.Strings sorts by. */
module GoStrings {
  /** unicode.IsSpace: the code points with the White_Space property. */
  predicate IsSpace(c: char) {
    || '\t' <= c <= '\r' || c == ' ' || c == '\U{0085}' || c == '\U{00A0}' || c == '\U{1680}'
    || '\U{2000}' <= c <= '\U{200A}' || c == '\U{2028}' || c == '\U{2029}' || c == '\U{202F}'
    || c == '\U{205F}' || c == '\U{3000}'
  }

  function TrimLeft(s: string): string {
    if s != "" && IsSpace(s[0]) then TrimLeft(s[1..]) else s
  }

  function TrimRight(s: string): string {
    if s != "" && IsSpace(s[|s| - 1]) then TrimRight(s[..|s| - 1]) else s
  }

  function TrimSpace(s: string): string {
    TrimRight(TrimLeft(s))
  }

  lemma {:induction false} TrimLeftIs(s: string) returns (i: nat)
    ensures i <= |s| && TrimLeft(s) == s[i..]
    ensures (forall k :: 0 <= k < i ==> IsSpace(s[k])) && (i < |s| ==> !IsSpace(s[i]))
  {
    i := 0;
    if s != "" && IsSpace(s[0]) {
      var n := TrimLeftIs(s[1..]);
      assert forall k :: 1 <= k < n + 1 ==> s[k] == s[1..][k - 1];
      i := n + 1;
    }
  }

  lemma {:induction false} TrimRightIs(s: string) returns (j: nat)
    ensures j <= |s| && TrimRight(s) == s[..j]
    ensures (forall k :: j <= k < |s| ==> IsSpace(s[k])) && (j > 0 ==> !IsSpace(s[j - 1]))
  {
    j := |s|;
    if s != "" && IsSpace(s[|s| - 1]) {
      j := TrimRightIs(s[..|s| - 1]);
    }
  }

  /** The text with white space, and nothing but white space, cut off at both ends. */
  lemma TrimSpaceIs(s: string) returns (i: nat, j: nat)
    ensures i <= j <= |s| && TrimSpace(s) == s[i..j]
    ensures forall k :: 0 <= k < i || j <= k < |s| ==> IsSpace(s[k])
    ensures i < j ==> !IsSpace(s[i]) && !IsSpace(s[j - 1])
  {
    i := TrimLeftIs(s);
    var rest := s[i..];
    var n := TrimRightIs(rest);
    hide TrimLeft, TrimRight, IsSpace;
    j := i + n;
    assert forall k :: 0 <= k < |rest| ==> rest[k] == s[i + k];
    forall k | j <= k < |s| ensures IsSpace(s[k]) {
      assert s[k] == rest[k - i];
    }
  }

  // ---------------------------------------------------------------- the order of strings

  predicate Less(a: string, b: string) {
    b != "" && (a == "" || a[0] < b[0] || (a[0] == b[0] && Less(a[1..], b[1..])))
  }

  /** The texts agree up to n, and there a ends first or has the smaller character. */
  ghost predicate DiffersAt(a: string, b: string, n: nat) {
    n <= |a| && n < |b| && (forall i :: 0 <= i < n ==> a[i] == b[i]) && (n == |a| || a[n] < b[n])
  }

  lemma {:induction false} LessIs(a: string, b: string)
    ensures Less(a, b) <==> exists n :: DiffersAt(a, b, n)
  {
    if a != "" && b != "" && a[0] == b[0] {
      LessIs(a[1..], b[1..]);
      if n: nat :| DiffersAt(a[1..], b[1..], n) {
        assert forall i :: 1 <= i < n + 1 ==> a[i] == a[1..][i - 1] && b[i] == b[1..][i - 1];
        assert DiffersAt(a, b, n + 1);
      }
      if n: nat :| DiffersAt(a, b, n) {
        assert DiffersAt(a[1..], b[1..], n - 1);
      }
    } else {
      assert Less(a, b) <==> DiffersAt(a, b, 0);
      assert forall n: nat :: DiffersAt(a, b, n) ==> n == 0;
    }
  }

  lemma {:induction false} LessIsTotal(a: string, b: string)
    ensures Less(a, b) || a == b || Less(b, a)
  {
    if a != "" && b != "" && a[0] == b[0] {
      LessIsTotal(a[1..], b[1..]);
      assert a == [a[0]] + a[1..] && b == [b[0]] + b[1..];
    }
  }

  lemma {:induction false} LessIsStrict(a: string, b: string)
    requires Less(a, b)
    ensures a != b && !Less(b, a)
  {
    if a != "" && a[0] == b[0] {
      LessIsStrict(a[1..], b[1..]);
    }
  }

  lemma {:induction false} LessIsTransitive(a: string, b: string, c: string)
    requires Less(a, b) && Less(b, c)
    ensures Less(a, c)
  {
    if a != "" && a[0] == b[0] == c[0] {
      LessIsTransitive(a[1..], b[1..], c[1..]);
    }
  }

  // ---------------------------------------------------------------- ascending lists

  ghost predicate Ascending(s: seq<string>) {
    forall i, j :: 0 <= i < j < |s| ==> Less(s[i], s[j])
  }

  /** The elements of a list. */
  function Members(s: seq<string>): set<string> {
    set x | x in s
  }

  lemma OnlyEmptyHasNoMembers(s: seq<string>)
    ensures Members(s) == {} <==> s == []
  {
    if s != [] {
      assert s[0] in Members(s);
    }
  }

  /** A strictly ascending list is determined by its set of elements. */
  lemma {:induction false} AscendingIsCanonical(a: seq<string>, b: seq<string>)
    requires Ascending(a) && Ascending(b) && Members(a) == Members(b)
    ensures a == b
  {
    if a == [] || b == [] {
      OnlyEmptyHasNoMembers(a);
      OnlyEmptyHasNoMembers(b);
    } else {
      assert a[0] in Members(a);
      var k :| 0 <= k < |b| && b[k] == a[0];
      assert b[0] in Members(b);
      var l :| 0 <= l < |a| && a[l] == b[0];
      if k > 0 && l > 0 {
        LessIsStrict(a[0], a[l]);
      }
      assert a[0] == b[0];
      TailMembers(a);
      TailMembers(b);
      AscendingIsCanonical(a[1..], b[1..]);
      assert a == [a[0]] + a[1..] && b == [b[0]] + b[1..];
    }
  }

  lemma TailMembers(a: seq<string>)
    requires Ascending(a) && a != []
    ensures Ascending(a[1..]) && Members(a[1..]) == Members(a) - {a[0]}
  {
    forall x ensures x in Members(a[1..]) <==> x in Members(a) - {a[0]} {
      if x in a[1..] {
        var i :| 0 <= i < |a| - 1 && a[1..][i] == x;
        LessIsStrict(a[0], a[i + 1]);
        assert x == a[i + 1];
      }
      if x in a && x != a[0] {
        var i :| 0 <= i < |a| && a[i] == x;
        assert x == a[1..][i - 1];
      }
    }
  }

  // ---------------------------------------------------------------- sorting

  function Insert(s: seq<string>, x: string): seq<string> {
    if s == [] || Less(x, s[0]) then [x] + s else [s[0]] + Insert(s[1..], x)
  }

  /** sort.Strings, as the result it must have on a list without duplicates. */
  function Sorted(s: seq<string>): seq<string> {
    if s == [] then [] else Insert(Sorted(s[1..]), s[0])
  }

  lemma {:induction false} InsertMembers(s: seq<string>, x: string)
    ensures multiset(Insert(s, x)) == multiset(s) + multiset{x}
  {
    if s != [] && !Less(x, s[0]) {
      InsertMembers(s[1..], x);
      assert s == [s[0]] + s[1..];
    }
  }

  lemma {:induction false} InsertKeeps(s: seq<string>, x: string)
    requires Ascending(s) && x !in s
    ensures Ascending(Insert(s, x))
  {
    hide Less;
    if s == [] {
    } else if Less(x, s[0]) {
      forall j | 0 <= j < |s| ensures Less(x, s[j]) {
        if j > 0 { LessIsTransitive(x, s[0], s[j]); }
      }
    } else {
      LessIsTotal(x, s[0]);
      InsertKeeps(s[1..], x);
      InsertMembers(s[1..], x);
      var rest := Insert(s[1..], x);
      forall j | 0 <= j < |rest| ensures Less(s[0], rest[j]) {
        assert rest[j] in multiset(rest);
        assert rest[j] == x || rest[j] in s[1..];
      }
    }
  }

  lemma {:induction false} SortedKeepsMembers(s: seq<string>)
    ensures multiset(Sorted(s)) == multiset(s)
    ensures forall x :: x in Sorted(s) <==> x in s
  {
    hide Insert;
    if s != [] {
      SortedKeepsMembers(s[1..]);
      InsertMembers(Sorted(s[1..]), s[0]);
      assert s == [s[0]] + s[1..];
    }
    assert forall x :: x in Sorted(s) <==> x in multiset(Sorted(s));
    assert forall x :: x in s <==> x in multiset(s);
  }

  lemma {:induction false} SortedSorts(s: seq<string>)
    requires forall i, j :: 0 <= i < j < |s| ==> s[i] != s[j]
    ensures Ascending(Sorted(s)) && Members(Sorted(s)) == Members(s)
  {
    hide Insert, Ascending;
    SortedKeepsMembers(s);
    if s != [] {
      SortedSorts(s[1..]);
      SortedKeepsMembers(s[1..]);
      InsertKeeps(Sorted(s[1..]), s[0]);
    } else {
      NothingAscends();
    }
  }

  lemma NothingAscends()
    ensures Ascending([])
  {
  }
}
