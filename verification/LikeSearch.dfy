// hindsight_manager/api/admin.py: the escaping of search text, against the LIKE
// predicate (section 8.5 of ISO/IEC 9075-2) with the backslash escape that
// PostgreSQL uses by default (section 9.7.1 of its documentation).

module LikeSearch {

  /** Python's str.replace of one character by a string. */
  function Replace(s: string, c: char, repl: string): string {
    if s == [] then [] else (if s[0] == c then repl else [s[0]]) + Replace(s[1..], c, repl)
  }

  function EscapeLike(value: string): string {
    Replace(Replace(Replace(value, '\\', "\\\\"), '%', "\\%"), '_', "\\_")
  }

  function LikePattern(value: string): string {
    "%" + EscapeLike(value) + "%"
  }

  /** `text LIKE pattern`: % is any string, _ any character, a backslash takes the next
      character literally. A pattern ending inside an escape matches nothing here;
      PostgreSQL raises an error on it. */
  predicate Like(pattern: string, text: string)
    decreases |pattern|, |text|
  {
    if pattern == [] then text == []
    else if pattern[0] == '%' then
      Like(pattern[1..], text) || (text != [] && Like(pattern, text[1..]))
    else if pattern[0] == '_' then
      text != [] && Like(pattern[1..], text[1..])
    else if pattern[0] == '\\' then
      |pattern| > 1 && text != [] && text[0] == pattern[1] && Like(pattern[2..], text[1..])
    else
      text != [] && text[0] == pattern[0] && Like(pattern[1..], text[1..])
  }

  /** Every escape in the pattern has the character it escapes. */
  predicate NoDanglingEscape(pattern: string) {
    if pattern == [] then true
    else if pattern[0] == '\\' then |pattern| > 1 && NoDanglingEscape(pattern[2..])
    else NoDanglingEscape(pattern[1..])
  }

  ghost predicate Contains(text: string, value: string) {
    exists i :: OccursAt(text, value, i)
  }

  predicate OccursAt(text: string, value: string, i: int) {
    0 <= i <= |text| - |value| && text[i..i + |value|] == value
  }

  predicate Special(c: char) {
    c == '\\' || c == '%' || c == '_'
  }

  /** Escaping in a single pass. */
  function EscapeEach(value: string): string {
    if value == [] then [] else (if Special(value[0]) then ['\\', value[0]] else [value[0]]) + EscapeEach(value[1..])
  }

  lemma {:induction false} ReplaceConcat(a: string, b: string, c: char, repl: string)
    ensures Replace(a + b, c, repl) == Replace(a, c, repl) + Replace(b, c, repl)
  {
    if a == [] {
      assert a + b == b;
    } else {
      assert (a + b)[1..] == a[1..] + b;
      ReplaceConcat(a[1..], b, c, repl);
    }
  }

  lemma EscapeConcat(a: string, b: string)
    ensures EscapeLike(a + b) == EscapeLike(a) + EscapeLike(b)
  {
    ReplaceConcat(a, b, '\\', "\\\\");
    var a1, b1 := Replace(a, '\\', "\\\\"), Replace(b, '\\', "\\\\");
    ReplaceConcat(a1, b1, '%', "\\%");
    ReplaceConcat(Replace(a1, '%', "\\%"), Replace(b1, '%', "\\%"), '_', "\\_");
  }

  lemma ReplaceShort(x: char, y: char, c: char, repl: string)
    ensures Replace([x], c, repl) == if x == c then repl else [x]
    ensures x != c && y != c ==> Replace([x, y], c, repl) == [x, y]
  {
    assert [x][1..] == [] && [x, y][1..] == [y] && [y][1..] == [];
    assert [x, y] == [x] + [y];
    ReplaceConcat([x], [y], c, repl);
  }

  lemma EscapeOne(c: char)
    ensures EscapeLike([c]) == if Special(c) then ['\\', c] else [c]
  {
    ReplaceShort(c, c, '\\', "\\\\");
    ReplaceShort(c, c, '%', "\\%");
    ReplaceShort(c, c, '_', "\\_");
    ReplaceShort('\\', '\\', '%', "\\%");
    ReplaceShort('\\', '\\', '_', "\\_");
    ReplaceShort('\\', '%', '_', "\\_");
  }

  /** The three chained replacements do not see each other's backslashes. */
  lemma {:induction false} ChainIsOnePass(value: string)
    ensures EscapeLike(value) == EscapeEach(value)
  {
    if value != [] {
      ChainIsOnePass(value[1..]);
      assert value == [value[0]] + value[1..];
      EscapeConcat([value[0]], value[1..]);
      EscapeOne(value[0]);
    }
  }

  /** An escaped value followed by p matches exactly the value followed by a match of p. */
  lemma {:induction false} EscapedIsLiteral(value: string, p: string, text: string)
    ensures Like(EscapeEach(value) + p, text) <==>
      value <= text && Like(p, text[|value|..])
    decreases |value|
  {
    if value == [] {
      assert EscapeEach(value) + p == p && text[0..] == text;
    } else {
      var rest := EscapeEach(value[1..]) + p;
      assert EscapeEach(value) + p == (if Special(value[0]) then ['\\', value[0]] else [value[0]]) + rest;
      if text != [] {
        EscapedIsLiteral(value[1..], p, text[1..]);
        assert value <= text <==> value[0] == text[0] && value[1..] <= text[1..];
        assert |value| <= |text| ==> text[1..][|value| - 1..] == text[|value|..];
      }
    }
  }

  lemma {:induction false} PercentMatchesAll(text: string)
    ensures Like("%", text)
  {
    if text != [] {
      PercentMatchesAll(text[1..]);
    } else {
      assert "%"[1..] == "";
    }
  }

  /** A leading % matches p at some later position. */
  lemma {:induction false} PercentSkips(p: string, text: string)
    ensures Like("%" + p, text) <==> exists i :: 0 <= i <= |text| && Like(p, text[i..])
  {
    assert ("%" + p)[1..] == p && text[0..] == text;
    if text != [] {
      PercentSkips(p, text[1..]);
      if i :| 0 <= i <= |text| && Like(p, text[i..]) {
        if i > 0 {
          assert text[1..][i - 1..] == text[i..];
        }
      }
      if i :| 0 <= i <= |text| - 1 && Like(p, text[1..][i..]) {
        assert text[1..][i..] == text[i + 1..];
      }
    }
  }

  /** Searching means: contains this text, whatever characters it is made of. */
  lemma SearchMeansContains(value: string, text: string)
    ensures Like(LikePattern(value), text) <==> Contains(text, value)
  {
    ChainIsOnePass(value);
    var p := EscapeEach(value) + "%";
    assert LikePattern(value) == "%" + p;
    PercentSkips(p, text);
    forall i | 0 <= i <= |text| ensures Like(p, text[i..]) <==> OccursAt(text, value, i) {
      EscapedIsLiteral(value, "%", text[i..]);
      if |value| <= |text| - i {
        PercentMatchesAll(text[i..][|value|..]);
        assert text[i..i + |value|] == text[i..][..|value|];
      }
    }
  }

  lemma {:induction false} EscapedThenClosed(value: string, p: string)
    requires NoDanglingEscape(p)
    ensures NoDanglingEscape(EscapeEach(value) + p)
  {
    if value == [] {
      assert EscapeEach(value) + p == p;
    } else {
      EscapedThenClosed(value[1..], p);
      var rest := EscapeEach(value[1..]) + p;
      var all := EscapeEach(value) + p;
      assert all == (if Special(value[0]) then ['\\', value[0]] else [value[0]]) + rest;
      assert if Special(value[0]) then all[2..] == rest else all[1..] == rest;
    }
  }

  /** No search text makes PostgreSQL reject the pattern. */
  lemma PatternIsAccepted(value: string)
    ensures NoDanglingEscape(LikePattern(value))
  {
    ChainIsOnePass(value);
    assert "%"[1..] == "";
    EscapedThenClosed(value, "%");
    assert LikePattern(value)[1..] == EscapeEach(value) + "%";
  }

  // ----- ILIKE -----

  function Folded(fold: char -> char, s: string): string {
    seq(|s|, i requires 0 <= i < |s| => fold(s[i]))
  }

  /** `text ILIKE pattern`, for a case fold that works character by character. */
  predicate ILike(fold: char -> char, pattern: string, text: string) {
    Like(Folded(fold, pattern), Folded(fold, text))
  }

  /** The fold leaves the three pattern characters alone and makes no others. */
  ghost predicate KeepsSpecials(fold: char -> char) {
    forall c :: if Special(c) then fold(c) == c else !Special(fold(c))
  }

  lemma FoldedConcat(fold: char -> char, a: string, b: string)
    ensures Folded(fold, a + b) == Folded(fold, a) + Folded(fold, b)
  {
  }

  lemma FoldEscapedChar(fold: char -> char, c: char)
    requires KeepsSpecials(fold)
    ensures Folded(fold, EscapeEach([c])) == EscapeEach([fold(c)])
  {
    assert Special('\\');
    assert [c][1..] == [] && [fold(c)][1..] == [];
    if Special(c) {
      assert EscapeEach([c]) == ['\\', c];
    } else {
      assert EscapeEach([c]) == [c];
    }
  }

  lemma EscapeCons(value: string)
    requires value != []
    ensures EscapeEach(value) == EscapeEach([value[0]]) + EscapeEach(value[1..])
  {
    assert [value[0]][1..] == [];
  }

  lemma {:induction false} FoldEscaped(fold: char -> char, value: string)
    requires KeepsSpecials(fold)
    ensures Folded(fold, EscapeEach(value)) == EscapeEach(Folded(fold, value))
  {
    if value != [] {
      FoldEscaped(fold, value[1..]);
      EscapeCons(value);
      EscapeCons(Folded(fold, value));
      assert Folded(fold, value)[1..] == Folded(fold, value[1..]);
      FoldEscapedChar(fold, value[0]);
      FoldedConcat(fold, EscapeEach([value[0]]), EscapeEach(value[1..]));
    }
  }

  /** The search of the tenant list: containment up to letter case. */
  lemma SearchIgnoresCase(fold: char -> char, value: string, text: string)
    requires KeepsSpecials(fold)
    ensures ILike(fold, LikePattern(value), text) <==> Contains(Folded(fold, text), Folded(fold, value))
  {
    ChainIsOnePass(value);
    ChainIsOnePass(Folded(fold, value));
    FoldEscaped(fold, value);
    assert Special('%');
    assert Folded(fold, LikePattern(value)) == LikePattern(Folded(fold, value));
    SearchMeansContains(Folded(fold, value), Folded(fold, text));
  }

  lemma {:induction false} EscapeEachInjective(a: string, b: string)
    requires EscapeEach(a) == EscapeEach(b)
    ensures a == b
  {
    if a != [] && b != [] {
      var x, y := EscapeEach(a), EscapeEach(b);
      assert x[0] == (if Special(a[0]) then '\\' else a[0]);
      assert y[0] == (if Special(b[0]) then '\\' else b[0]);
      assert Special(a[0]) == Special(b[0]) by { assert Special('\\'); }
      var n := if Special(a[0]) then 2 else 1;
      assert x[n..] == EscapeEach(a[1..]) && y[n..] == EscapeEach(b[1..]);
      assert x[n - 1] == a[0] && y[n - 1] == b[0];
      EscapeEachInjective(a[1..], b[1..]);
    }
  }

  /** Escaping loses nothing: different texts give different patterns. */
  lemma EscapeInjective(a: string, b: string)
    requires LikePattern(a) == LikePattern(b)
    ensures a == b
  {
    ChainIsOnePass(a);
    ChainIsOnePass(b);
    assert LikePattern(a)[1..|LikePattern(a)| - 1] == EscapeEach(a);
    assert LikePattern(b)[1..|LikePattern(b)| - 1] == EscapeEach(b);
    EscapeEachInjective(a, b);
  }
}
