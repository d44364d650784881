/** Escaping of a search keyword for LIKE ... ESCAPE '\', and what the resulting pattern matches. */
module LikeEscape {
  import opened Wrappers

  // ----- the escaping code ----------------------------------------------------------------

  /** String.replace of one character by a string. */
  function Replace(s: string, c: char, with: string): string {
    if s == [] then [] else (if s[0] == c then with else [s[0]]) + Replace(s[1..], c, with)
  }

  /** Three replacements in a row; the backslash comes first. */
  function EscapeLike(k: string): string {
    Replace(Replace(Replace(k, '\\', "\\\\"), '%', "\\%"), '_', "\\_")
  }

  function TitlePattern(keyword: string): string { "%" + EscapeLike(keyword) + "%" }

  /** One pass: a backslash before each special character. */
  function EscapeEach(k: string): string {
    if k == [] then [] else EscapeChar(k[0]) + EscapeEach(k[1..])
  }

  predicate Special(c: char) { c == '\\' || c == '%' || c == '_' }

  function EscapeChar(c: char): string { if Special(c) then ['\\', c] else [c] }

  lemma Associative(x: string, y: string, z: string)
    ensures x + (y + z) == (x + y) + z
  {
  }

  lemma {:induction false} ReplaceConcat(s: string, t: string, c: char, with: string)
    ensures Replace(s + t, c, with) == Replace(s, c, with) + Replace(t, c, with)
  {
    if s == [] {
      assert s + t == t;
    } else {
      ReplaceConcat(s[1..], t, c, with);
      assert (s + t)[0] == s[0] && (s + t)[1..] == s[1..] + t;
      Associative(if s[0] == c then with else [s[0]], Replace(s[1..], c, with), Replace(t, c, with));
    }
  }

  lemma {:induction false} ReplaceOne(a: char, c: char, with: string)
    ensures Replace([a], c, with) == if a == c then with else [a]
    ensures forall b :: Replace([a, b], c, with) == (if a == c then with else [a]) + (if b == c then with else [b])
  {
    forall b
      ensures Replace([a, b], c, with) == (if a == c then with else [a]) + (if b == c then with else [b])
    {
      assert [a, b][1..] == [b];
      assert Replace([b], c, with) == if b == c then with else [b];
    }
  }

  /** The order of the replacements is right: nothing is escaped twice and nothing is missed. */
  lemma {:induction false} SequentialIsEach(k: string)
    ensures EscapeLike(k) == EscapeEach(k)
  {
    if k != [] {
      var head, tail := [k[0]], k[1..];
      assert k == head + tail;
      ReplaceConcat(head, tail, '\\', "\\\\");
      ReplaceConcat(Replace(head, '\\', "\\\\"), Replace(tail, '\\', "\\\\"), '%', "\\%");
      ReplaceConcat(Replace(Replace(head, '\\', "\\\\"), '%', "\\%"), Replace(Replace(tail, '\\', "\\\\"), '%', "\\%"), '_', "\\_");
      EscapeLikeOne(k[0]);
      SequentialIsEach(tail);
    }
  }

  lemma EscapeLikeOne(c: char)
    ensures EscapeLike([c]) == EscapeChar(c)
  {
    ReplaceOne(c, '\\', "\\\\");
    ReplaceOne('\\', '%', "\\%");
    ReplaceOne('\\', '_', "\\_");
    ReplaceOne(c, '%', "\\%");
    ReplaceOne(c, '_', "\\_");
  }

  // ----- LIKE -----------------------------------------------------------------------------

  datatype Token = Literal(c: char) | AnyOne | AnyMany

  /** Substring specifiers of a pattern; None when the escape character ends it. */
  function Tokens(p: string): Option<seq<Token>> {
    if p == [] then Some([])
    else if p[0] == '\\' then
      if |p| == 1 then None else Cons(Literal(p[1]), Tokens(p[2..]))
    else Cons(if p[0] == '%' then AnyMany else if p[0] == '_' then AnyOne else Literal(p[0]), Tokens(p[1..]))
  }

  function Cons(t: Token, rest: Option<seq<Token>>): Option<seq<Token>> {
    match rest
    case None => None
    case Some(ts) => Some([t] + ts)
  }

  /** The value can be cut into substrings, one per specifier. */
  predicate Matches(ts: seq<Token>, s: string)
    decreases |ts|
  {
    if ts == [] then s == []
    else match ts[0]
      case Literal(c) => s != [] && s[0] == c && Matches(ts[1..], s[1..])
      case AnyOne => s != [] && Matches(ts[1..], s[1..])
      case AnyMany => exists n | 0 <= n <= |s| :: Matches(ts[1..], s[n..])
  }

  predicate Like(s: string, pattern: string) {
    Tokens(pattern).Some? && Matches(Tokens(pattern).value, s)
  }

  ghost predicate Contains(s: string, k: string) {
    exists i :: OccursAt(s, k, i)
  }

  ghost predicate OccursAt(s: string, k: string, i: int) {
    0 <= i <= |s| - |k| && s[i..i + |k|] == k
  }

  function Literals(k: string): seq<Token> {
    if k == [] then [] else [Literal(k[0])] + Literals(k[1..])
  }

  lemma {:induction false} TokensOfEscaped(k: string)
    ensures Tokens(EscapeEach(k) + "%") == Some(Literals(k) + [AnyMany])
  {
    if k == [] {
      assert EscapeEach(k) + "%" == "%";
      assert "%"[1..] == "";
      assert Literals(k) + [AnyMany] == [AnyMany] + [];
    } else {
      TokensOfEscaped(k[1..]);
      var p, rest := EscapeEach(k) + "%", EscapeEach(k[1..]) + "%";
      assert p == EscapeChar(k[0]) + rest;
      assert p[|EscapeChar(k[0])|..] == rest;
      assert Literals(k) + [AnyMany] == [Literal(k[0])] + (Literals(k[1..]) + [AnyMany]);
    }
  }

  /** Literals followed by % match exactly the values that start with them. */
  lemma {:induction false} MatchesPrefix(k: string, s: string)
    ensures Matches(Literals(k) + [AnyMany], s) <==> |k| <= |s| && s[..|k|] == k
  {
    var ts := Literals(k) + [AnyMany];
    if k == [] {
      assert ts[1..] == [];
      assert Matches(ts[1..], s[|s|..]);
    } else {
      assert ts[1..] == Literals(k[1..]) + [AnyMany];
      if s != [] {
        MatchesPrefix(k[1..], s[1..]);
        assert |k| <= |s| && s[..|k|] == k ==> s[1..][..|k| - 1] == k[1..] by {
          if |k| <= |s| && s[..|k|] == k {
            assert s[1..][..|k| - 1] == s[..|k|][1..];
          }
        }
        assert |k| <= |s| && s[0] == k[0] && s[1..][..|k| - 1] == k[1..] ==> s[..|k|] == k;
      }
    }
  }

  /** The pattern built for a keyword is well formed and finds exactly the titles that contain it. */
  lemma {:induction false} PatternFindsSubstring(k: string, s: string)
    ensures Like(s, TitlePattern(k)) <==> Contains(s, k)
  {
    SequentialIsEach(k);
    TokensOfEscaped(k);
    var rest := EscapeEach(k) + "%";
    assert TitlePattern(k) == "%" + rest;
    assert TitlePattern(k)[1..] == rest;
    var ts := [AnyMany] + (Literals(k) + [AnyMany]);
    assert ts[1..] == Literals(k) + [AnyMany];
    assert Like(s, TitlePattern(k)) <==> exists n | 0 <= n <= |s| :: Matches(ts[1..], s[n..]);
    forall n | 0 <= n <= |s|
      ensures Matches(ts[1..], s[n..]) <==> OccursAt(s, k, n)
    {
      MatchesPrefix(k, s[n..]);
      if |k| <= |s| - n {
        assert s[n..][..|k|] == s[n..n + |k|];
      }
    }
    if Contains(s, k) {
      var i :| OccursAt(s, k, i);
      assert Matches(ts[1..], s[i..]);
    }
  }

  /** The title condition of the list: a missing or blank query does not filter. */
  predicate TitlePasses(q: Option<string>, title: string, lowercase: string -> string, dbLower: string -> string, blank: string -> bool) {
    if q.None? || blank(q.value) then true else Like(dbLower(title), TitlePattern(lowercase(q.value)))
  }

  /**
    Whatever the two lower-casing functions do, a title passes exactly when its lower-cased form
    contains the lower-cased query.
   */
  lemma TitleSearch(q: Option<string>, title: string, lowercase: string -> string, dbLower: string -> string, blank: string -> bool)
    ensures TitlePasses(q, title, lowercase, dbLower, blank) <==>
      q.None? || blank(q.value) || Contains(dbLower(title), lowercase(q.value))
  {
    if q.Some? {
      PatternFindsSubstring(lowercase(q.value), dbLower(title));
    }
  }

  /** Unescaped, the two wildcards match any one character and anything; the escape before nothing is an error. */
  lemma Wildcards(s: string)
    ensures Like(s, "_") <==> |s| == 1
    ensures Like(s, "%")
    ensures !Like(s, "\\")
  {
    assert "_"[1..] == "" && "%"[1..] == "";
    assert [AnyOne] + [] == [AnyOne] && [AnyMany] + [] == [AnyMany];
    assert Tokens("_") == Cons(AnyOne, Tokens("")) == Some([AnyOne]);
    assert Tokens("%") == Cons(AnyMany, Tokens("")) == Some([AnyMany]);
    assert [AnyOne][1..] == [] && [AnyMany][1..] == [];
    assert Matches([], s[|s|..]);
    assert s != "" ==> (Matches([], s[1..]) <==> |s| == 1);
  }
}
