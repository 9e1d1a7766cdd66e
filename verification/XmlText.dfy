/** Escaping text for XML by sequential replacement (predefined entities, section 4.6 of XML 1.0). */
module XmlText {

  function ReplaceChar(s: string, c: char, with: string): string {
    if s == "" then "" else (if s[0] == c then with else [s[0]]) + ReplaceChar(s[1..], c, with)
  }

  /** Every occurrence of a pattern is replaced, from the left and without overlaps, in one pass. */
  function Replace(s: string, pattern: string, with: string): string
    requires pattern != ""
    decreases |s|
  {
    if s == "" then ""
    else if pattern <= s then with + Replace(s[|pattern|..], pattern, with)
    else [s[0]] + Replace(s[1..], pattern, with)
  }

  function Escape(text: string): string {
    ReplaceChar(ReplaceChar(ReplaceChar(text, '&', "&amp;"), '<', "&lt;"), '>', "&gt;")
  }

  function Unescape(text: string): string {
    var t1 := Replace(text, "&#x0a;", "\n");
    var t2 := Replace(t1, "&lt;", "<");
    var t3 := Replace(t2, "&gt;", ">");
    var t4 := Replace(t3, "&quot;", "\"");
    var t5 := Replace(t4, "&apos;", "'");
    Replace(t5, "&amp;", "&")
  }

  // ------------------------------------------------------- texts made of entities and characters

  const ESCAPED: set<char> := {'&', '<', '>'}

  function Entity(c: char): string
    requires c in ESCAPED
  {
    if c == '&' then "&amp;" else if c == '<' then "&lt;" else "&gt;"
  }

  function Token(c: char, coded: set<char>): string
    requires coded <= ESCAPED
  {
    if c in coded then Entity(c) else [c]
  }

  /** The text with the characters of `coded` written as entities, and all others as they are. */
  function Tokens(s: string, coded: set<char>): string
    requires coded <= ESCAPED
  {
    if s == "" then "" else Token(s[0], coded) + Tokens(s[1..], coded)
  }

  lemma TailOfSum(a: string, b: string)
    requires a != ""
    ensures (a + b)[1..] == a[1..] + b && (a + b)[0] == a[0]
  {
  }

  lemma Associate(a: string, b: string, c: string)
    ensures a + (b + c) == a + b + c
  {
  }

  lemma ReplaceOne(d: char, c: char, with: string)
    ensures ReplaceChar([d], c, with) == if d == c then with else [d]
  {
    assert [d][1..] == "" && with + "" == with;
  }

  lemma {:induction false} ReplaceCharAppend(a: string, b: string, c: char, with: string)
    ensures ReplaceChar(a + b, c, with) == ReplaceChar(a, c, with) + ReplaceChar(b, c, with)
  {
    if a == "" {
      assert a + b == b;
    } else {
      var rest := a[1..];
      ReplaceCharAppend(rest, b, c, with);
      TailOfSum(a, b);
      Associate(ReplaceChar([a[0]], c, with), ReplaceChar(rest, c, with), ReplaceChar(b, c, with));
      ReplaceOne(a[0], c, with);
    }
  }

  lemma {:induction false} ReplaceCharAbsent(s: string, c: char, with: string)
    requires c !in s
    ensures ReplaceChar(s, c, with) == s
  {
    if s != "" {
      ReplaceCharAbsent(s[1..], c, with);
    }
  }

  lemma EscapeChar(c: char)
    ensures Escape([c]) == Token(c, ESCAPED)
  {
    if c == '&' {
      assert ReplaceChar("&", '&', "&amp;") == "&amp;";
      ReplaceCharAbsent("&amp;", '<', "&lt;");
      ReplaceCharAbsent("&amp;", '>', "&gt;");
    } else if c == '<' {
      ReplaceCharAbsent("<", '&', "&amp;");
      assert ReplaceChar("<", '<', "&lt;") == "&lt;";
      ReplaceCharAbsent("&lt;", '>', "&gt;");
    } else {
      ReplaceCharAbsent([c], '&', "&amp;");
      ReplaceCharAbsent([c], '<', "&lt;");
      assert ReplaceChar(">", '>', "&gt;") == "&gt;";
      if c != '>' {
        ReplaceCharAbsent([c], '>', "&gt;");
      }
    }
  }

  lemma EscapeAppend(a: string, b: string)
    ensures Escape(a + b) == Escape(a) + Escape(b)
  {
    ReplaceCharAppend(a, b, '&', "&amp;");
    var a1, b1 := ReplaceChar(a, '&', "&amp;"), ReplaceChar(b, '&', "&amp;");
    ReplaceCharAppend(a1, b1, '<', "&lt;");
    ReplaceCharAppend(ReplaceChar(a1, '<', "&lt;"), ReplaceChar(b1, '<', "&lt;"), '>', "&gt;");
  }

  /** The three replacements together write each special character as its entity, once. */
  lemma {:induction false} EscapeIsTokens(s: string)
    ensures Escape(s) == Tokens(s, ESCAPED)
  {
    if s != "" {
      EscapeIsTokens(s[1..]);
      EscapeChar(s[0]);
      EscapeAppend([s[0]], s[1..]);
      assert s == [s[0]] + s[1..];
    }
  }

  lemma {:induction false} EscapedHasNoMarkup(s: string)
    ensures '<' !in Escape(s) && '>' !in Escape(s)
  {
    EscapeIsTokens(s);
    if s != "" {
      EscapedHasNoMarkup(s[1..]);
      EscapeIsTokens(s[1..]);
    }
  }

  // ---------------------------------------------------------------------- one replacement

  /** An entity pattern: an ampersand first and nowhere else. */
  predicate IsPattern(p: string) {
    p != "" && p[0] == '&' && '&' !in p[1..]
  }

  lemma {:induction false} SkipPlain(t: string, rest: string, p: string, with: string)
    requires IsPattern(p) && '&' !in t
    ensures Replace(t + rest, p, with) == t + Replace(rest, p, with)
  {
    if t == "" {
      assert t + rest == rest;
    } else {
      SkipPlain(t[1..], rest, p, with);
      assert (t + rest)[1..] == t[1..] + rest && (t + rest)[0] != p[0];
    }
  }

  /** Two patterns that differ within both do not match each other. */
  predicate Differ(p: string, q: string) {
    exists k :: 0 <= k < |p| && k < |q| && p[k] != q[k]
  }

  lemma SkipOther(q: string, rest: string, p: string, with: string)
    requires IsPattern(p) && IsPattern(q) && Differ(p, q)
    ensures Replace(q + rest, p, with) == q + Replace(rest, p, with)
  {
    var k :| 0 <= k < |p| && k < |q| && p[k] != q[k];
    assert (q + rest)[k] == q[k];
    assert !(p <= q + rest);
    SkipPlain(q[1..], rest, p, with);
    assert (q + rest)[1..] == q[1..] + rest && q == [q[0]] + q[1..];
  }

  lemma TakeMatch(rest: string, p: string, with: string)
    requires p != ""
    ensures Replace(p + rest, p, with) == with + Replace(rest, p, with)
  {
    assert (p + rest)[|p|..] == rest;
  }

  lemma EntitiesDiffer(c: char, d: char)
    requires c in ESCAPED && d in ESCAPED && c != d
    ensures Differ(Entity(c), Entity(d))
  {
    assert Entity(c)[1] != Entity(d)[1];
  }

  lemma EntityIsPattern(c: char)
    requires c in ESCAPED
    ensures IsPattern(Entity(c))
  {
  }

  /** Replacing an entity leaves the text with one coded character less. */
  lemma {:induction false} ReplaceEntity(s: string, coded: set<char>, c: char)
    requires coded <= ESCAPED && '&' in coded && c in coded
    ensures Replace(Tokens(s, coded), Entity(c), [c]) == Tokens(s, coded - {c})
  {
    if s != "" {
      var d, rest := s[0], Tokens(s[1..], coded);
      ReplaceEntity(s[1..], coded, c);
      EntityIsPattern(c);
      if d == c {
        TakeMatch(rest, Entity(c), [c]);
      } else if d in coded {
        EntityIsPattern(d);
        EntitiesDiffer(c, d);
        SkipOther(Entity(d), rest, Entity(c), [c]);
      } else {
        SkipPlain([d], rest, Entity(c), [c]);
      }
    }
  }

  /** Replacing a pattern that is no entity in use changes nothing. */
  lemma {:induction false} ReplaceAbsent(s: string, coded: set<char>, p: string, with: string)
    requires coded <= ESCAPED && '&' in coded && IsPattern(p)
    requires forall d :: d in coded ==> Differ(p, Entity(d))
    ensures Replace(Tokens(s, coded), p, with) == Tokens(s, coded)
  {
    if s != "" {
      var d, rest := s[0], Tokens(s[1..], coded);
      ReplaceAbsent(s[1..], coded, p, with);
      if d in coded {
        EntityIsPattern(d);
        SkipOther(Entity(d), rest, p, with);
      } else {
        SkipPlain([d], rest, p, with);
      }
    }
  }

  lemma AbsentPatterns(d: char)
    requires d in ESCAPED
    ensures Differ("&#x0a;", Entity(d)) && Differ("&quot;", Entity(d)) && Differ("&apos;", Entity(d))
    ensures IsPattern("&#x0a;") && IsPattern("&quot;") && IsPattern("&apos;")
  {
    assert "&#x0a;"[1] != Entity(d)[1];
    assert "&quot;"[1] != Entity(d)[1];
    assert d == '&' ==> "&apos;"[2] != Entity(d)[2];
    assert d != '&' ==> "&apos;"[1] != Entity(d)[1];
  }

  lemma {:induction false} TokensOfNone(s: string)
    ensures Tokens(s, {}) == s
  {
    if s != "" {
      TokensOfNone(s[1..]);
    }
  }

  /** Unescaping undoes escaping for every text, also one that holds entity text itself. */
  lemma UnescapeEscape(s: string)
    ensures Unescape(Escape(s)) == s
  {
    forall d | d in ESCAPED
      ensures Differ("&#x0a;", Entity(d)) && Differ("&quot;", Entity(d)) && Differ("&apos;", Entity(d))
    {
      AbsentPatterns(d);
    }
    AbsentPatterns('&');
    EscapeIsTokens(s);
    ReplaceAbsent(s, ESCAPED, "&#x0a;", "\n");
    ReplaceEntity(s, ESCAPED, '<');
    var greater := ESCAPED - {'<'};
    ReplaceEntity(s, greater, '>');
    var ampersand := greater - {'>'};
    assert ampersand == {'&'};
    ReplaceAbsent(s, ampersand, "&quot;", "\"");
    ReplaceAbsent(s, ampersand, "&apos;", "'");
    ReplaceEntity(s, ampersand, '&');
    assert ampersand - {'&'} == {};
    TokensOfNone(s);
  }
}
