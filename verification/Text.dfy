// Small string vocabulary shared by the component models.
module Text {

  datatype Option<+T> = None | Some(value: T)

  newtype byte = x: int | 0 <= x < 256

  predicate NoRepeats<T(==)>(xs: seq<T>) {
    forall i, j | 0 <= i < j < |xs| :: xs[i] != xs[j]
  }

  lemma Associative<T>(a: seq<T>, b: seq<T>, c: seq<T>)
    ensures (a + b) + c == a + (b + c)
  {
  }

  /** Python's `needle in text` for strings. */
  predicate Contains(text: string, needle: string) {
    exists i | 0 <= i <= |text| :: OccursAt(text, needle, i)
  }

  predicate OccursAt(text: string, needle: string, i: nat) {
    i + |needle| <= |text| && text[i..i + |needle|] == needle
  }

  predicate IsAscii(text: string) {
    forall i | 0 <= i < |text| :: text[i] as int < 128
  }

  /** Python's `text.endswith(suffix)`. */
  predicate EndsWith(text: string, suffix: string) {
    |suffix| <= |text| && text[|text| - |suffix|..] == suffix
  }

  /** Python's `text.startswith(prefix)`. */
  predicate StartsWith(text: string, prefix: string) {
    prefix <= text
  }

  lemma ContainsMiddle(before: string, needle: string, after: string)
    ensures Contains(before + needle + after, needle)
  {
    var text := before + needle + after;
    assert OccursAt(text, needle, |before|);
  }

  /** `StringLike` matching of IAM policies: `*` stands for any text, `?` for any one character. */
  predicate Glob(pattern: string, text: string)
    decreases |pattern|, |text|
  {
    if pattern == "" then
      text == ""
    else if pattern[0] == '*' then
      Glob(pattern[1..], text) || (text != "" && Glob(pattern, text[1..]))
    else
      text != "" && (pattern[0] == '?' || pattern[0] == text[0]) && Glob(pattern[1..], text[1..])
  }

  /** Every text matches itself read as a pattern, so `StringLike` is never narrower than `StringEquals`. */
  lemma {:induction false} GlobReflexive(text: string)
    ensures Glob(text, text)
  {
    if text != "" {
      GlobReflexive(text[1..]);
      if text[0] == '*' {
        GlobStarSkips(text, text);
      }
    }
  }

  lemma {:induction false} GlobStarSkips(pattern: string, text: string)
    requires pattern != "" && pattern[0] == '*' && text != ""
    requires Glob(pattern[1..], text[1..])
    ensures Glob(pattern, text)
  {
    assert Glob(pattern, text[1..]);
  }

  predicate Literal(pattern: string) {
    forall i | 0 <= i < |pattern| :: pattern[i] != '*' && pattern[i] != '?'
  }

  /** A pattern without wildcards matches itself only. */
  lemma {:induction false} LiteralGlob(pattern: string, text: string)
    requires Literal(pattern)
    ensures Glob(pattern, text) <==> pattern == text
  {
    if pattern != "" && text != "" {
      LiteralGlob(pattern[1..], text[1..]);
      assert pattern == [pattern[0]] + pattern[1..] && text == [text[0]] + text[1..];
    }
  }

  /** White space as Python's `str.strip` sees it. */
  predicate IsSpace(c: char) {
    || '\U{0009}' <= c <= '\U{000d}' || '\U{001c}' <= c <= '\U{0020}' || c == '\U{0085}' || c == '\U{00a0}'
    || c == '\U{1680}' || '\U{2000}' <= c <= '\U{200a}' || c == '\U{2028}' || c == '\U{2029}' || c == '\U{202f}'
    || c == '\U{205f}' || c == '\U{3000}'
  }

  function TrimLeft(text: string, blank: char -> bool): string {
    if text != "" && blank(text[0]) then TrimLeft(text[1..], blank) else text
  }

  function TrimRight(text: string, blank: char -> bool): string {
    if text != "" && blank(text[|text| - 1]) then TrimRight(text[..|text| - 1], blank) else text
  }

  /** Removes the characters of a class from both ends. */
  function Trim(text: string, blank: char -> bool): string {
    TrimRight(TrimLeft(text, blank), blank)
  }

  function Strip(text: string): string {
    Trim(text, IsSpace)
  }

  /** A text neither of whose ends is of the class, or an empty one. */
  predicate Trimmed(text: string, blank: char -> bool) {
    text == "" || (!blank(text[0]) && !blank(text[|text| - 1]))
  }

  lemma {:induction false} TrimRightLaws(text: string, blank: char -> bool)
    ensures TrimRight(text, blank) <= text
    ensures TrimRight(text, blank) != "" ==> !blank(TrimRight(text, blank)[|TrimRight(text, blank)| - 1])
    ensures Trimmed(text, blank) ==> TrimRight(text, blank) == text
  {
    if text != "" && blank(text[|text| - 1]) {
      TrimRightLaws(text[..|text| - 1], blank);
    }
  }

  lemma {:induction false} TrimLeftLaws(text: string, blank: char -> bool)
    ensures EndsWith(text, TrimLeft(text, blank))
    ensures TrimLeft(text, blank) != "" ==> !blank(TrimLeft(text, blank)[0])
    ensures Trimmed(text, blank) ==> TrimLeft(text, blank) == text
  {
    if text != "" && blank(text[0]) {
      TrimLeftLaws(text[1..], blank);
    }
  }

  /** No longer, and without other characters. */
  predicate IsPart(part: string, text: string) {
    |part| <= |text| && forall c | c in part :: c in text
  }

  lemma PartOfPart(a: string, b: string, c: string)
    requires IsPart(a, b) && IsPart(b, c)
    ensures IsPart(a, c)
  {
  }

  lemma EndIsPart(text: string, end: string)
    requires EndsWith(text, end)
    ensures IsPart(end, text)
  {
    forall i | 0 <= i < |end| ensures end[i] in text {
      assert end[i] == text[|text| - |end| + i];
    }
  }

  lemma FrontIsPart(text: string, front: string)
    requires front <= text
    ensures IsPart(front, text)
  {
    forall i | 0 <= i < |front| ensures front[i] in text {
      assert front[i] == text[i];
    }
  }

  lemma TrimIsPart(text: string, blank: char -> bool)
    ensures IsPart(Trim(text, blank), text)
  {
    var left := TrimLeft(text, blank);
    TrimLeftLaws(text, blank);
    EndIsPart(text, left);
    TrimRightLaws(left, blank);
    FrontIsPart(left, TrimRight(left, blank));
    PartOfPart(TrimRight(left, blank), left, text);
  }

  lemma TrimIsTrimmed(text: string, blank: char -> bool)
    ensures Trimmed(Trim(text, blank), blank)
  {
    var left := TrimLeft(text, blank);
    TrimLeftLaws(text, blank);
    TrimRightLaws(left, blank);
    if TrimRight(left, blank) != "" {
      assert TrimRight(left, blank)[0] == left[0];
    }
  }

  lemma TrimmedStays(text: string, blank: char -> bool)
    requires Trimmed(text, blank)
    ensures Trim(text, blank) == text
  {
    TrimLeftLaws(text, blank);
    TrimRightLaws(text, blank);
  }

  /** Trimming yields a trimmed part of the text, and leaves a text alone exactly when it is trimmed. */
  lemma TrimLaws(text: string, blank: char -> bool)
    ensures Trimmed(Trim(text, blank), blank)
    ensures Trimmed(text, blank) <==> Trim(text, blank) == text
    ensures |Trim(text, blank)| <= |text|
    ensures forall c | c in Trim(text, blank) :: c in text
  {
    TrimIsTrimmed(text, blank);
    if Trimmed(text, blank) {
      TrimmedStays(text, blank);
    }
    TrimIsPart(text, blank);
  }

  predicate AllBlank(text: string, blank: char -> bool) {
    forall i | 0 <= i < |text| :: blank(text[i])
  }

  lemma {:induction false} TrimLeftOf(left: string, core: string, blank: char -> bool)
    requires AllBlank(left, blank) && (core == "" || !blank(core[0]))
    ensures TrimLeft(left + core, blank) == core
  {
    if left == "" {
      assert left + core == core;
    } else {
      assert (left + core)[1..] == left[1..] + core;
      TrimLeftOf(left[1..], core, blank);
    }
  }

  lemma {:induction false} TrimRightOf(core: string, right: string, blank: char -> bool)
    requires AllBlank(right, blank) && (core == "" || !blank(core[|core| - 1]))
    ensures TrimRight(core + right, blank) == core
  {
    if right == "" {
      assert core + right == core;
    } else {
      assert (core + right)[..|core + right| - 1] == core + right[..|right| - 1];
      TrimRightOf(core, right[..|right| - 1], blank);
    }
  }

  /** Trimming takes off the two ends of the class and nothing else. */
  lemma TrimFindsTheMiddle(left: string, core: string, right: string, blank: char -> bool)
    requires AllBlank(left, blank) && AllBlank(right, blank) && Trimmed(core, blank)
    ensures Trim(left + core + right, blank) == core
  {
    if core == "" {
      assert left + core + right == (left + right) + "";
      TrimLeftOf(left + right, "", blank);
    } else {
      assert left + core + right == left + (core + right);
      TrimLeftOf(left, core + right, blank);
      TrimRightOf(core, right, blank);
    }
  }

  /** Strings by code point, a proper prefix first. */
  predicate TextLess(a: string, b: string) {
    b != "" && (a == "" || a[0] < b[0] || (a[0] == b[0] && TextLess(a[1..], b[1..])))
  }

  lemma {:induction false} TextTotal(a: string, b: string)
    ensures a == b || TextLess(a, b) || TextLess(b, a)
  {
    if a != "" && b != "" && a[0] == b[0] {
      TextTotal(a[1..], b[1..]);
      assert a == [a[0]] + a[1..] && b == [b[0]] + b[1..];
    }
  }

  lemma {:induction false} TextIrreflexive(a: string)
    ensures !TextLess(a, a)
  {
    if a != "" {
      TextIrreflexive(a[1..]);
    }
  }

  lemma {:induction false} TextTransitive(a: string, b: string, c: string)
    requires TextLess(a, b) && TextLess(b, c)
    ensures TextLess(a, c)
  {
    if a != "" && a[0] == b[0] == c[0] {
      TextTransitive(a[1..], b[1..], c[1..]);
    }
  }

  /** The first difference decides, and a longer text is later than its beginnings. */
  lemma {:induction false} TextLessAtDifference(common: string, x: char, y: char, a: string, b: string)
    requires x != y
    ensures TextLess(common + ([x] + a), common + ([y] + b)) <==> x < y
    ensures TextLess(common, common + ([x] + a))
  {
    if common == "" {
      assert common + ([x] + a) == [x] + a && common + ([y] + b) == [y] + b;
    } else {
      TextLessAtDifference(common[1..], x, y, a, b);
      assert (common + ([x] + a))[1..] == common[1..] + ([x] + a);
      assert (common + ([y] + b))[1..] == common[1..] + ([y] + b);
    }
  }
}
