/**
 Customer search by a text taken literally: the pattern that the query passes to ILIKE, against the meaning of
 LIKE with the escape character backslash, as section 9.7.1 of the PostgreSQL documentation defines it
 (internal/application/business/service.go:196-199 and 487-490, internal/repository/postgres/business.go:222-234).
 */
module LikePattern {

  /** Escapes the wildcards and the escape character itself. */
  function EscapeLike(s: string): string {
    if s == "" then ""
    else (if s[0] in ['\\', '%', '_'] then ['\\', s[0]] else [s[0]]) + EscapeLike(s[1..])
  }

  /** The pattern does not end in an escape character that escapes nothing, which LIKE refuses. */
  predicate WellFormed(pattern: string) {
    pattern == ""
    || (if pattern[0] == '\\' then |pattern| > 1 && WellFormed(pattern[2..]) else WellFormed(pattern[1..]))
  }

  /** LIKE: % stands for any text, _ for any character, and a backslash takes the next character literally. */
  predicate Matches(pattern: string, s: string, fold: char -> char)
    decreases |pattern| + |s|
  {
    if pattern == "" then s == ""
    else if pattern[0] == '%' then Matches(pattern[1..], s, fold) || (s != "" && Matches(pattern, s[1..], fold))
    else if pattern[0] == '_' then s != "" && Matches(pattern[1..], s[1..], fold)
    else if pattern[0] == '\\' then
      |pattern| > 1 && s != "" && fold(pattern[1]) == fold(s[0]) && Matches(pattern[2..], s[1..], fold)
    else s != "" && fold(pattern[0]) == fold(s[0]) && Matches(pattern[1..], s[1..], fold)
  }

  function Folded(s: string, fold: char -> char): string { seq(|s|, i requires 0 <= i < |s| => fold(s[i])) }

  /** The text begins with q, apart from case. */
  predicate BeginsWith(s: string, q: string, fold: char -> char) {
    |q| <= |s| && Folded(s[..|q|], fold) == Folded(q, fold)
  }

  /** The text holds q somewhere, apart from case. */
  predicate Holds(s: string, q: string, fold: char -> char) {
    exists i :: 0 <= i <= |s| && BeginsWith(s[i..], q, fold)
  }

  /** strings.NewReplacer goes through the text once, from left to right. */
  method Escape(s: string) returns (r: string)
    ensures r == EscapeLike(s)
  {
    r := "";
    for i := 0 to |s|
      invariant r + EscapeLike(s[i..]) == EscapeLike(s)
    {
      if s[i] in ['\\', '%', '_'] {
        r := r + ['\\', s[i]];
      } else {
        r := r + [s[i]];
      }
      assert s[i..][1..] == s[i + 1..];
    }
  }

  lemma FoldedHead(s: string, q: string, fold: char -> char)
    requires q != ""
    ensures BeginsWith(s, q, fold) <==> s != "" && fold(s[0]) == fold(q[0]) && BeginsWith(s[1..], q[1..], fold)
  {
    if |q| <= |s| {
      var a, b := Folded(s[..|q|], fold), Folded(q, fold);
      assert a[1..] == Folded(s[1..][..|q| - 1], fold);
      assert b[1..] == Folded(q[1..], fold);
      assert a == [a[0]] + a[1..] && b == [b[0]] + b[1..];
    }
  }

  lemma {:induction false} PercentMatchesAll(s: string, fold: char -> char)
    ensures Matches("%", s, fold)
  {
    if s != "" {
      PercentMatchesAll(s[1..], fold);
    }
  }

  /** The escaped text followed by % matches the texts that begin with it. */
  lemma {:induction false} EscapedPrefix(q: string, s: string, fold: char -> char)
    ensures Matches(EscapeLike(q) + "%", s, fold) <==> BeginsWith(s, q, fold)
  {
    var pattern := EscapeLike(q) + "%";
    if q == "" {
      assert pattern == "%";
      PercentMatchesAll(s, fold);
      assert Folded(s[..0], fold) == Folded(q, fold);
    } else {
      FoldedHead(s, q, fold);
      var rest := EscapeLike(q[1..]) + "%";
      if q[0] in ['\\', '%', '_'] {
        assert pattern == ['\\', q[0]] + rest && pattern[2..] == rest;
      } else {
        assert pattern == [q[0]] + rest && pattern[1..] == rest;
      }
      if s != "" {
        EscapedPrefix(q[1..], s[1..], fold);
      }
    }
  }

  lemma HoldsLater(s: string, q: string, fold: char -> char)
    requires s != ""
    ensures Holds(s, q, fold) <==> BeginsWith(s, q, fold) || Holds(s[1..], q, fold)
  {
    assert s[0..] == s;
    if Holds(s[1..], q, fold) {
      var i :| 0 <= i <= |s[1..]| && BeginsWith(s[1..][i..], q, fold);
      assert s[1..][i..] == s[i + 1..];
    }
    if Holds(s, q, fold) && !BeginsWith(s, q, fold) {
      var i :| 0 <= i <= |s| && BeginsWith(s[i..], q, fold);
      assert s[1..][i - 1..] == s[i..];
    }
  }

  /** The search pattern matches exactly the texts in which the query occurs, whatever characters it has. */
  lemma {:induction false} SearchIsLiteral(q: string, s: string, fold: char -> char)
    ensures Matches("%" + EscapeLike(q) + "%", s, fold) <==> Holds(s, q, fold)
  {
    var rest := EscapeLike(q) + "%";
    var pattern := "%" + EscapeLike(q) + "%";
    assert pattern == ['%'] + rest && pattern[1..] == rest;
    EscapedPrefix(q, s, fold);
    if s == "" {
      assert s[0..] == s;
    } else {
      HoldsLater(s, q, fold);
      SearchIsLiteral(q, s[1..], fold);
    }
  }

  lemma {:induction false} EscapedWellFormed(q: string, rest: string)
    requires WellFormed(rest)
    ensures WellFormed(EscapeLike(q) + rest)
  {
    if q == "" {
      assert EscapeLike(q) + rest == rest;
    } else {
      var tail := EscapeLike(q[1..]) + rest;
      EscapedWellFormed(q[1..], rest);
      if q[0] in ['\\', '%', '_'] {
        assert EscapeLike(q) + rest == ['\\', q[0]] + tail;
      } else {
        assert EscapeLike(q) + rest == [q[0]] + tail;
      }
    }
  }

  /** No query makes a pattern that the database refuses. */
  lemma SearchIsWellFormed(q: string)
    ensures WellFormed("%" + EscapeLike(q) + "%")
  {
    EscapedWellFormed(q, "%");
    assert ("%" + EscapeLike(q) + "%")[1..] == EscapeLike(q) + "%";
  }

  lemma {:induction false} DigitsNeedNoEscape(digits: string)
    requires forall i :: 0 <= i < |digits| ==> '0' <= digits[i] <= '9'
    ensures EscapeLike(digits) == digits
  {
    if digits != "" {
      DigitsNeedNoEscape(digits[1..]);
      assert digits == [digits[0]] + digits[1..];
    }
  }

  /** The phone search, whose digits go into the pattern as they are, is literal too. */
  lemma DigitSearchIsLiteral(digits: string, s: string, fold: char -> char)
    requires forall i :: 0 <= i < |digits| ==> '0' <= digits[i] <= '9'
    ensures Matches("%" + digits + "%", s, fold) <==> Holds(s, digits, fold)
  {
    DigitsNeedNoEscape(digits);
    SearchIsLiteral(digits, s, fold);
  }
}
