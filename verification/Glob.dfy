/** SQLite's GLOB operator, and the escaping that makes it test for a literal prefix (sql.rs). */
module Glob {
  import opened Wrappers

  /**
   Scans a bracket class after its opening `[` and optional `^`. `prior` is the
   character a range may start from. Returns what follows the closing `]`, and
   whether `c` was listed.
   */
  function ScanClass(p: string, c: char, prior: Option<char>, seen: bool): (r: Option<(string, bool)>)
    ensures r.Some? ==> |r.value.0| < |p|
    decreases |p|
  {
    if p == [] then None
    else if p[0] == ']' then Some((p[1..], seen))
    else if p[0] == '-' && prior.Some? && |p| > 1 && p[1] != ']' then
      ScanClass(p[2..], c, None, seen || prior.value <= c <= p[1])
    else
      ScanClass(p[1..], c, Some(p[0]), seen || p[0] == c)
  }

  /** A whole class: a leading `^` inverts it and a first `]` is an ordinary member. */
  function MatchClass(p: string, c: char): (rest: Option<string>)
    ensures rest.Some? ==> |rest.value| < |p|
  {
    var invert := |p| > 0 && p[0] == '^';
    var p1 := if invert then p[1..] else p;
    var literal := |p1| > 0 && p1[0] == ']';
    var p2 := if literal then p1[1..] else p1;
    match ScanClass(p2, c, None, literal && c == ']')
    case None => None
    case Some((rest, seen)) => if seen != invert then Some(rest) else None
  }

  predicate Matches(p: string, s: string)
    decreases |p|, |s|
  {
    if p == [] then s == []
    else if p[0] == '*' then
      Matches(p[1..], s) || (s != [] && Matches(p, s[1..]))
    else if s == [] then false
    else if p[0] == '?' then Matches(p[1..], s[1..])
    else if p[0] == '[' then
      match MatchClass(p[1..], s[0])
      case None => false
      case Some(rest) => Matches(rest, s[1..])
    else p[0] == s[0] && Matches(p[1..], s[1..])
  }

  /** A star stands for any stretch of text. */
  lemma {:induction false} StarRule(p: string, s: string)
    ensures Matches(['*'] + p, s) <==> exists i :: 0 <= i <= |s| && Matches(p, s[i..])
    decreases |s|
  {
    assert (['*'] + p)[1..] == p && s[0..] == s;
    if s != [] {
      StarRule(p, s[1..]);
      if i :| 0 <= i <= |s[1..]| && Matches(p, s[1..][i..]) {
        assert s[1..][i..] == s[i + 1..];
      }
      if i :| 0 <= i <= |s| && Matches(p, s[i..]) {
        assert i > 0 ==> s[1..][i - 1..] == s[i..];
      }
    }
  }

  /**
   A question mark stands for any one character, a class for one of its
   members or, inverted, for one that is none, anything else for itself; a class
   that is not closed matches nothing.
   */
  lemma CharacterRules(p: string, s: string, a: char, b: char)
    requires a !in "]-^" && b !in "]-^"
    ensures Matches([], s) <==> s == []
    ensures Matches(['?'] + p, s) <==> s != [] && Matches(p, s[1..])
    ensures !IsWildcard(a) ==> (Matches([a] + p, s) <==> s != [] && s[0] == a && Matches(p, s[1..]))
    ensures Matches(['[', a, b, ']'] + p, s) <==> s != [] && (s[0] == a || s[0] == b) && Matches(p, s[1..])
    ensures Matches(['[', a, '-', b, ']'] + p, s) <==> s != [] && (s[0] == a || a <= s[0] <= b) && Matches(p, s[1..])
    ensures Matches(['[', '^', a, ']'] + p, s) <==> s != [] && s[0] != a && Matches(p, s[1..])
    ensures Matches(['[', ']', ']'] + p, s) <==> s != [] && s[0] == ']' && Matches(p, s[1..])
    ensures !Matches(['[', a], s)
  {
    assert (['?'] + p)[1..] == p && ([a] + p)[1..] == p;
    if s != [] {
      TwoMembers(p, s[0], a, b);
      RangeMembers(p, s[0], a, b);
      InvertedMember(p, s[0], a);
      BracketMember(p, s[0]);
      assert ['[', a][1..] == [a] && [a][1..] == [];
    }
  }

  lemma TwoMembers(p: string, c: char, a: char, b: char)
    requires a !in "]-^" && b !in "]-^"
    ensures MatchClass((['[', a, b, ']'] + p)[1..], c) == if c == a || c == b then Some(p) else None
  {
    assert (['[', a, b, ']'] + p)[1..] == [a, b, ']'] + p;
    assert ([a, b, ']'] + p)[1..] == [b, ']'] + p;
    assert ([b, ']'] + p)[1..] == [']'] + p;
    assert ([']'] + p)[1..] == p;
    assert ScanClass([']'] + p, c, Some(b), c == a || c == b) == Some((p, c == a || c == b));
    assert ScanClass([b, ']'] + p, c, Some(a), c == a) == Some((p, c == a || c == b));
  }

  lemma RangeMembers(p: string, c: char, a: char, b: char)
    requires a !in "]-^" && b !in "]-^"
    ensures MatchClass((['[', a, '-', b, ']'] + p)[1..], c) == if c == a || a <= c <= b then Some(p) else None
  {
    assert (['[', a, '-', b, ']'] + p)[1..] == [a, '-', b, ']'] + p;
    assert ([a, '-', b, ']'] + p)[1..] == ['-', b, ']'] + p;
    assert (['-', b, ']'] + p)[2..] == [']'] + p;
    assert ([']'] + p)[1..] == p;
    var within := c == a || a <= c <= b;
    assert ScanClass([']'] + p, c, None, within) == Some((p, within));
    assert ScanClass(['-', b, ']'] + p, c, Some(a), c == a) == Some((p, within));
  }

  lemma InvertedMember(p: string, c: char, a: char)
    requires a !in "]-^"
    ensures MatchClass((['[', '^', a, ']'] + p)[1..], c) == if c != a then Some(p) else None
  {
    assert (['[', '^', a, ']'] + p)[1..] == ['^', a, ']'] + p;
    assert (['^', a, ']'] + p)[1..] == [a, ']'] + p;
    assert ([a, ']'] + p)[1..] == [']'] + p;
    assert ([']'] + p)[1..] == p;
    assert ScanClass([']'] + p, c, Some(a), c == a) == Some((p, c == a));
  }

  lemma BracketMember(p: string, c: char)
    ensures MatchClass((['[', ']', ']'] + p)[1..], c) == if c == ']' then Some(p) else None
  {
    assert (['[', ']', ']'] + p)[1..] == [']', ']'] + p;
    assert ([']', ']'] + p)[1..] == [']'] + p;
    assert ([']'] + p)[1..] == p;
  }

  /** SQLite reads both operands as C strings. */
  function UpToNul(s: string): (r: string)
    ensures r <= s
    ensures r == s <==> '\0' !in s
  {
    if s == [] || s[0] == '\0' then [] else [s[0]] + UpToNul(s[1..])
  }

  predicate SqlGlob(pattern: string, s: string) {
    Matches(UpToNul(pattern), UpToNul(s))
  }

  predicate IsWildcard(c: char) {
    c == '*' || c == '?' || c == '['
  }

  function EscapeChar(c: char): string {
    if IsWildcard(c) then ['[', c, ']'] else [c]
  }

  function Escape(prefix: string): string {
    if prefix == [] then [] else EscapeChar(prefix[0]) + Escape(prefix[1..])
  }

  lemma {:induction false} EscapeAppend(prefix: string, c: char)
    ensures Escape(prefix + [c]) == Escape(prefix) + EscapeChar(c)
  {
    hide EscapeChar;
    var all := prefix + [c];
    if prefix == [] {
      assert all == [c] && all[1..] == [];
    } else {
      EscapeAppend(prefix[1..], c);
      assert all[1..] == prefix[1..] + [c];
    }
  }

  method GlobPrefixPattern(prefix: string) returns (pattern: string)
    ensures pattern == Escape(prefix) + "*"
  {
    pattern := "";
    for i := 0 to |prefix|
      invariant pattern == Escape(prefix[..i])
    {
      var c := prefix[i];
      EscapeAppend(prefix[..i], c);
      assert prefix[..i + 1] == prefix[..i] + [c];
      if c == '*' || c == '?' || c == '[' {
        pattern := pattern + ['['];
        pattern := pattern + [c];
        pattern := pattern + [']'];
      } else {
        pattern := pattern + [c];
      }
    }
    assert prefix[..|prefix|] == prefix;
    pattern := pattern + ['*'];
  }

  lemma {:induction false} StarMatchesAll(s: string)
    ensures Matches("*", s)
  {
    if s == [] {
      assert Matches("*"[1..], []);
    } else {
      StarMatchesAll(s[1..]);
    }
  }

  /** An escaped character matches itself and nothing else. */
  lemma EscapedCharMatches(c: char, p: string, s: string)
    ensures Matches(EscapeChar(c) + p, s) <==> s != [] && s[0] == c && Matches(p, s[1..])
  {
    var all := EscapeChar(c) + p;
    if IsWildcard(c) {
      var afterOpen := all[1..];
      assert afterOpen == [c, ']'] + p;
      var afterChar := afterOpen[1..];
      assert afterChar == [']'] + p && afterChar[1..] == p;
      if s != [] {
        assert ScanClass(afterOpen, s[0], None, false) == ScanClass(afterChar, s[0], Some(c), s[0] == c);
        assert MatchClass(afterOpen, s[0]) == if s[0] == c then Some(p) else None;
      }
    } else {
      assert all[1..] == p;
    }
  }

  /** What an escaped literal followed by any pattern matches. */
  lemma {:induction false} EscapeMatches(prefix: string, p: string, s: string)
    ensures Matches(Escape(prefix) + p, s) <==> prefix <= s && Matches(p, s[|prefix|..])
  {
    if prefix == [] {
      assert Escape(prefix) + p == p && s[0..] == s;
    } else {
      assert Escape(prefix) + p == EscapeChar(prefix[0]) + (Escape(prefix[1..]) + p);
      EscapedCharMatches(prefix[0], Escape(prefix[1..]) + p, s);
      if s != [] && s[0] == prefix[0] {
        EscapeMatches(prefix[1..], p, s[1..]);
        assert prefix[1..] <= s[1..] <==> prefix <= s by {
          assert prefix == [prefix[0]] + prefix[1..] && s == [s[0]] + s[1..];
        }
        if prefix <= s {
          assert s[1..][|prefix[1..]|..] == s[|prefix|..];
        }
      }
    }
  }

  lemma EscapeCut(c: char, rest: string)
    requires c != '\0'
    ensures Escape(UpToNul([c] + rest)) == EscapeChar(c) + Escape(UpToNul(rest))
  {
    assert ([c] + rest)[1..] == rest;
    assert UpToNul([c] + rest) == [c] + UpToNul(rest);
    assert UpToNul([c] + rest)[1..] == UpToNul(rest);
  }

  /** The pattern as SQLite reads it: a NUL in the prefix cuts off the rest, the final `*` included. */
  lemma {:induction false} UpToNulOfPattern(prefix: string, p: string)
    ensures UpToNul(Escape(prefix) + p)
            == Escape(UpToNul(prefix)) + if '\0' in prefix then "" else UpToNul(p)
  {
    if prefix == [] {
      assert Escape(prefix) + p == p;
    } else {
      var c := prefix[0];
      var tail := Escape(prefix[1..]) + p;
      assert prefix == [c] + prefix[1..];
      assert Escape(prefix) + p == EscapeChar(c) + tail;
      if c == '\0' {
        assert EscapeChar(c)[0] == '\0';
      } else {
        UpToNulOfPattern(prefix[1..], p);
        UpToNulAppend(EscapeChar(c), tail);
        EscapeCut(c, prefix[1..]);
      }
    }
  }

  lemma UpToNulCons(c: char, rest: string)
    ensures UpToNul([c] + rest) == if c == '\0' then [] else [c] + UpToNul(rest)
  {
    assert ([c] + rest)[1..] == rest;
  }

  lemma ConsAppend(c: char, rest: string, b: string)
    ensures ([c] + rest) + b == [c] + (rest + b)
  {
  }

  lemma {:induction false} UpToNulAppend(a: string, b: string)
    requires '\0' !in a
    ensures UpToNul(a + b) == a + UpToNul(b)
  {
    hide UpToNul;
    if a == [] {
      assert a + b == b && a + UpToNul(b) == UpToNul(b);
    } else {
      var c, rest := a[0], a[1..];
      assert c != '\0' && a == [c] + rest;
      UpToNulAppend(rest, b);
      UpToNulCons(c, rest + b);
      ConsAppend(c, rest, b);
      ConsAppend(c, rest, UpToNul(b));
    }
  }

  /** Exactly what the pattern selects, for every prefix and every key. */
  lemma PatternMeaning(prefix: string, key: string)
    ensures SqlGlob(Escape(prefix) + "*", key) <==>
            if '\0' in prefix then UpToNul(prefix) == UpToNul(key) else prefix <= key
  {
    UpToNulOfPattern(prefix, "*");
    assert UpToNul("*") == "*" by { assert '\0' !in "*"; }
    var cut, k := UpToNul(prefix), UpToNul(key);
    if '\0' in prefix {
      assert Escape(cut) + "" == Escape(cut);
      EscapeMatches(cut, "", k);
    } else {
      EscapeMatches(cut, "*", k);
      if prefix <= k {
        StarMatchesAll(k[|prefix|..]);
      }
      NulFreePrefix(prefix, key);
    }
  }

  lemma {:induction false} NulFreePrefix(prefix: string, key: string)
    requires '\0' !in prefix
    ensures prefix <= UpToNul(key) <==> prefix <= key
  {
    if prefix <= key {
      var rest := key[|prefix|..];
      assert key == prefix + rest;
      UpToNulAppend(prefix, rest);
    }
  }

  /** A prefix with a NUL shares its part before the NUL with every key it is a prefix of. */
  lemma {:induction false} NulPrefix(prefix: string, key: string)
    requires '\0' in prefix && prefix <= key
    ensures UpToNul(prefix) == UpToNul(key)
  {
    assert prefix == [prefix[0]] + prefix[1..] && key[0] == prefix[0];
    if prefix[0] != '\0' {
      NulPrefix(prefix[1..], key[1..]);
    }
  }

  predicate SelectsExactly(prefix: string, key: string) {
    SqlGlob(Escape(prefix) + "*", key) <==> prefix <= key
  }

  /** The pattern selects the keys with the prefix, for every key, if and only if the prefix is NUL-free. */
  lemma PatternExactIff(prefix: string)
    ensures (forall key: string :: SelectsExactly(prefix, key)) <==> '\0' !in prefix
  {
    if '\0' in prefix {
      var key := UpToNul(prefix);
      UpToNulHasNoNul(prefix);
      PatternMeaning(prefix, key);
      assert !SelectsExactly(prefix, key);
    } else {
      forall key: string
        ensures SelectsExactly(prefix, key)
      {
        PatternMeaning(prefix, key);
      }
    }
  }

  lemma {:induction false} UpToNulHasNoNul(s: string)
    ensures '\0' !in UpToNul(s)
  {
    if s != [] && s[0] != '\0' {
      UpToNulHasNoNul(s[1..]);
    }
  }
}
