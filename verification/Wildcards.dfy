/** What wildcard patterns match, and which finite lists of texts they can stand for. */
module Wildcards {
  import opened Text

  predicate AllLiteral(patterns: seq<string>) {
    forall v | v in patterns :: Literal(v)
  }

  predicate SameTexts(a: seq<string>, b: seq<string>) {
    (forall t | t in a :: t in b) && (forall t | t in b :: t in a)
  }

  /** Patterns without wildcards match themselves. */
  lemma LiteralsMatch(patterns: seq<string>, text: string)
    requires AllLiteral(patterns)
    ensures (exists v | v in patterns :: Glob(v, text)) <==> text in patterns
  {
    forall v | v in patterns ensures Glob(v, text) <==> v == text {
      LiteralGlob(v, text);
    }
  }

  lemma GlobCons(c: char, pattern: string, text: string)
    requires Glob(pattern, text)
    ensures Glob([c] + pattern, [c] + text)
  {
    assert ([c] + pattern)[1..] == pattern && ([c] + text)[1..] == text;
    if c == '*' {
      GlobStarSkips([c] + pattern, [c] + text);
    }
  }

  lemma {:induction false} LeadingStar(pattern: string, fill: string)
    requires pattern != "" && pattern[0] == '*'
    ensures Glob(pattern, fill + pattern[1..])
  {
    var text := fill + pattern[1..];
    if fill == "" {
      assert text == pattern[1..];
      GlobReflexive(text);
    } else {
      assert text[1..] == fill[1..] + pattern[1..];
      LeadingStar(pattern, fill[1..]);
    }
  }

  /** A star matches anything in its place. */
  lemma {:induction false} StarMatches(pattern: string, i: nat, fill: string)
    requires i < |pattern| && pattern[i] == '*'
    ensures Glob(pattern, pattern[..i] + fill + pattern[i + 1..])
  {
    if i == 0 {
      LeadingStar(pattern, fill);
      assert pattern[..0] + fill + pattern[1..] == fill + pattern[1..];
    } else {
      var rest := pattern[1..];
      StarMatches(rest, i - 1, fill);
      GlobCons(pattern[0], rest, rest[..i - 1] + fill + rest[i..]);
      assert [pattern[0]] + rest == pattern;
      assert [pattern[0]] + (rest[..i - 1] + fill + rest[i..]) == pattern[..i] + fill + pattern[i + 1..];
    }
  }

  /** A question mark matches any character in its place. */
  lemma {:induction false} QuestionMatches(pattern: string, i: nat, c: char)
    requires i < |pattern| && pattern[i] == '?'
    ensures Glob(pattern, pattern[i := c])
  {
    if i == 0 {
      GlobReflexive(pattern[1..]);
      assert pattern[0 := c][1..] == pattern[1..];
    } else {
      var rest := pattern[1..];
      QuestionMatches(rest, i - 1, c);
      GlobCons(pattern[0], rest, rest[i - 1 := c]);
      assert [pattern[0]] + rest == pattern && [pattern[0]] + rest[i - 1 := c] == pattern[i := c];
    }
  }

  function Longest(texts: seq<string>): nat {
    if texts == [] then 0
    else
      var before := Longest(texts[..|texts| - 1]);
      if |texts[|texts| - 1]| > before then |texts[|texts| - 1]| else before
  }

  lemma {:induction false} LongestLaw(texts: seq<string>)
    ensures forall t | t in texts :: |t| <= Longest(texts)
  {
    if texts != [] {
      LongestLaw(texts[..|texts| - 1]);
      assert texts == texts[..|texts| - 1] + [texts[|texts| - 1]];
    }
  }

  /** No finite list holds everything that a pattern with a star matches. */
  lemma StarIsUnbounded(pattern: string, i: nat, texts: seq<string>) returns (text: string)
    requires i < |pattern| && pattern[i] == '*'
    ensures Glob(pattern, text) && text !in texts
  {
    var fill := seq(Longest(texts) + 1, _ => 'x');
    StarMatches(pattern, i, fill);
    LongestLaw(texts);
    text := pattern[..i] + fill + pattern[i + 1..];
  }

  lemma NoStar(pattern: string, texts: seq<string>)
    requires forall t | Glob(pattern, t) :: t in texts
    ensures '*' !in pattern
  {
    if i: nat :| i < |pattern| && pattern[i] == '*' {
      var text := StarIsUnbounded(pattern, i, texts);
    }
  }

  lemma QuestionMatchesStar(pattern: string, i: nat) returns (text: string)
    requires i < |pattern| && pattern[i] == '?'
    ensures Glob(pattern, text) && '*' in text
  {
    QuestionMatches(pattern, i, '*');
    text := pattern[i := '*'];
    assert text[i] == '*';
  }

  lemma NoQuestion(pattern: string, texts: seq<string>)
    requires forall t | Glob(pattern, t) :: t in texts
    requires forall t | t in texts :: '*' !in t
    ensures '?' !in pattern
  {
    if i: nat :| i < |pattern| && pattern[i] == '?' {
      var text := QuestionMatchesStar(pattern, i);
    }
  }

  /** Patterns that match nothing outside a list, all of whose texts are among them, have no wildcards. */
  lemma ClosedIsLiteral(patterns: seq<string>, texts: seq<string>)
    requires forall v, t | v in patterns && Glob(v, t) :: t in texts
    requires forall t | t in texts :: t in patterns
    ensures AllLiteral(patterns)
  {
    forall v | v in patterns ensures '*' !in v {
      NoStar(v, texts);
    }
    forall v | v in patterns ensures '?' !in v {
      NoQuestion(v, texts);
    }
  }
}
