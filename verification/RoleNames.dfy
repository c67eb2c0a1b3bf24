/** The base-36 encoding of IAM role names, and the service-account patterns built from it. */
module RoleNames {
  import opened Text
  import opened Wildcards

  // ---------------------------------------------------------------------------
  // Base 36
  // ---------------------------------------------------------------------------

  /** `int.from_bytes(..., "big")`. */
  function BigEndian(bytes: seq<byte>): nat {
    if bytes == [] then 0 else BigEndian(bytes[..|bytes| - 1]) * 256 + bytes[|bytes| - 1] as nat
  }

  /** The digit alphabet: ten digits, then the lower-case letters. */
  function Digit(v: nat): char
    requires v < 36
  {
    if v < 10 then ('0' as int + v) as char else ('a' as int + v - 10) as char
  }

  predicate IsDigit(c: char) {
    '0' <= c <= '9' || 'a' <= c <= 'z'
  }

  function DigitValue(c: char): nat {
    if '0' <= c <= '9' then c as int - '0' as int
    else if 'a' <= c <= 'z' then c as int - 'a' as int + 10
    else 0
  }

  /** Reading a base-36 text. */
  function Decode36(text: string): nat {
    if text == "" then 0 else Decode36(text[..|text| - 1]) * 36 + DigitValue(text[|text| - 1])
  }

  predicate Canonical36(text: string) {
    && text != ""
    && (forall i | 0 <= i < |text| :: IsDigit(text[i]))
    && (text[0] == '0' ==> text == "0")
  }

  /** The digits of a number, none for zero. */
  function Digits36(n: nat): string {
    if n == 0 then "" else Digits36(n / 36) + [Digit(n % 36)]
  }

  function Encoded(name: seq<byte>): string {
    if BigEndian(name) == 0 then "0" else Digits36(BigEndian(name))
  }

  lemma {:induction false} Digits36Laws(n: nat)
    ensures Decode36(Digits36(n)) == n
    ensures n > 0 ==> Canonical36(Digits36(n)) && Digits36(n)[0] != '0'
  {
    if n > 0 {
      Digits36Laws(n / 36);
      var init := Digits36(n / 36);
      assert Digits36(n)[..|init|] == init;
    }
  }

  /** Encodes by repeated division, prepending each remainder's digit; what comes out is a canonical
      base-36 text that reads back as the name's big-endian integer. */
  method Base36EncodeName(name: seq<byte>) returns (result: string)
    ensures result == Encoded(name)
    ensures Decode36(result) == BigEndian(name) && Canonical36(result)
  {
    var n := BigEndian(name);
    Digits36Laws(n);
    if n == 0 {
      assert "0"[..0] == "";
      return "0";
    }
    result := "";
    assert Digits36(n) + result == Digits36(n);
    while n > 0
      invariant Digits36(n) + result == Encoded(name)
    {
      var remainder := n % 36;
      ghost var higher := Digits36(n / 36);
      assert Digits36(n) == higher + [Digit(remainder)];
      assert higher + ([Digit(remainder)] + result) == (higher + [Digit(remainder)]) + result;
      n := n / 36;
      result := [Digit(remainder)] + result;
    }
    assert "" + result == result;
  }

  lemma EncodedLaws(name: seq<byte>)
    ensures Decode36(Encoded(name)) == BigEndian(name)
    ensures Canonical36(Encoded(name))
  {
    Digits36Laws(BigEndian(name));
    assert "0"[..0] == "";
  }

  /** The digits ascend as their characters do; there are 36 of those, so each is as it must be. */
  lemma DigitsAscend(v: nat, w: nat)
    requires v < w < 36
    ensures IsDigit(Digit(v)) && IsDigit(Digit(w)) && Digit(v) < Digit(w)
    ensures DigitValue(Digit(v)) == v && DigitValue(Digit(w)) == w
  {
  }

  /** Two encodings worked out: 97 is 2 * 36 + 25, and 256 is 7 * 36 + 4. */
  lemma EncodedExamples()
    ensures Encoded([97]) == "2p" && Encoded([1, 0]) == "74"
  {
    assert [97 as byte][..0] == [] && [1 as byte, 0][..1] == [1] && [1 as byte][..0] == [];
    assert BigEndian([97]) == 97 && BigEndian([1]) == 1 && BigEndian([1, 0]) == 256;
    assert Digits36(0) == "" && Digits36(2) == "2" && Digits36(7) == "7";
    assert Digits36(97) == Digits36(2) + [Digit(25)] && Digits36(256) == Digits36(7) + [Digit(4)];
  }

  /** The name without its leading zero bytes: all that the encoding can see of it. */
  function Significant(name: seq<byte>): seq<byte> {
    if name != [] && name[0] == 0 then Significant(name[1..]) else name
  }

  lemma {:induction false} LeadingZeroIsLost(bytes: seq<byte>)
    ensures BigEndian([0] + bytes) == BigEndian(bytes)
  {
    var s := [0] + bytes;
    if bytes == [] {
      assert s[..0] == [];
    } else {
      LeadingZeroIsLost(bytes[..|bytes| - 1]);
      assert s[..|s| - 1] == [0] + bytes[..|bytes| - 1];
    }
  }

  lemma {:induction false} SignificantKeepsValue(name: seq<byte>)
    ensures BigEndian(Significant(name)) == BigEndian(name)
    ensures Significant(name) != [] ==> Significant(name)[0] != 0
  {
    if name != [] && name[0] == 0 {
      SignificantKeepsValue(name[1..]);
      LeadingZeroIsLost(name[1..]);
      assert name == [0] + name[1..];
    }
  }

  lemma {:induction false} NonZeroLead(bytes: seq<byte>)
    requires bytes != [] && bytes[0] != 0
    ensures BigEndian(bytes) > 0
  {
    if |bytes| > 1 {
      NonZeroLead(bytes[..|bytes| - 1]);
    }
  }

  /** Byte strings without a leading zero byte are determined by their integer. */
  lemma {:induction false} BigEndianInjective(a: seq<byte>, b: seq<byte>)
    requires a != [] ==> a[0] != 0
    requires b != [] ==> b[0] != 0
    requires BigEndian(a) == BigEndian(b)
    ensures a == b
  {
    if a == [] {
      if b != [] { NonZeroLead(b); }
    } else if b == [] {
      NonZeroLead(a);
    } else {
      var a', b' := a[..|a| - 1], b[..|b| - 1];
      assert BigEndian(a') == BigEndian(b') && a[|a| - 1] == b[|b| - 1];
      BigEndianInjective(a', b');
      assert a == a' + [a[|a| - 1]] && b == b' + [b[|b| - 1]];
    }
  }

  /** Exactly when two names share an encoding: they differ in leading zero bytes only. */
  lemma EncodedCollision(a: seq<byte>, b: seq<byte>)
    ensures Encoded(a) == Encoded(b) <==> Significant(a) == Significant(b)
  {
    EncodedLaws(a);
    EncodedLaws(b);
    SignificantKeepsValue(a);
    SignificantKeepsValue(b);
    if BigEndian(a) == BigEndian(b) {
      BigEndianInjective(Significant(a), Significant(b));
    }
  }

  /** So names that do not begin with a zero byte, as no role name does, are told apart. */
  lemma EncodedInjective(a: seq<byte>, b: seq<byte>)
    requires a != [] && a[0] != 0 && b != [] && b[0] != 0
    ensures Encoded(a) == Encoded(b) <==> a == b
  {
    EncodedCollision(a, b);
  }

  /** A zero byte in front is lost. */
  lemma LeadingZeroCollides(name: seq<byte>)
    ensures Encoded([0] + name) == Encoded(name) && [0] + name != name
  {
    LeadingZeroIsLost(name);
    assert |[0] + name| == |name| + 1;
  }

  // ---------------------------------------------------------------------------
  // Service-account patterns
  // ---------------------------------------------------------------------------

  const SUBJECT_PREFIX := "system:serviceaccount:"
  const SA_PREFIX := ":emr-containers-sa-"

  function SaPattern(namespace: string, account: string, role: seq<byte>): string {
    SUBJECT_PREFIX + namespace + SA_PREFIX + "*-*-" + account + "-" + Encoded(role)
  }

  /** Every pattern carries the marker by which SparkPilot recognises its own statements. */
  lemma SaPatternIsRecognised(namespace: string, account: string, role: seq<byte>)
    ensures Contains(SaPattern(namespace, account, role), "emr-containers-sa-")
  {
    PrefixParts();
    MarkerIsContained(SUBJECT_PREFIX, namespace, ":", "emr-containers-sa-", "*-*-", account, "-", Encoded(role));
  }

  lemma PrefixParts()
    ensures SA_PREFIX == ":" + "emr-containers-sa-"
  {
  }

  lemma MarkerIsContained(a: string, b: string, c: string, marker: string, d: string, e: string, f: string, g: string)
    ensures Contains(a + b + (c + marker) + d + e + f + g, marker)
  {
    ContainsMiddle(a + b + c, marker, d + e + f + g);
    Regrouped(a + b, c, marker, d, e, f, g);
  }

  lemma Regrouped(a: string, c: string, marker: string, d: string, e: string, f: string, g: string)
    ensures a + (c + marker) + d + e + f + g == (a + c) + marker + (d + e + f + g)
  {
  }

  /** A literal head of a pattern is a head of every text it matches. */
  lemma {:induction false} GlobHead(head: string, tail: string, text: string)
    requires Literal(head) && Glob(head + tail, text)
    ensures |head| <= |text| && text[..|head|] == head && Glob(tail, text[|head|..])
  {
    if head == "" {
      assert head + tail == tail;
    } else {
      assert (head + tail)[0] == head[0] && (head + tail)[1..] == head[1..] + tail;
      GlobHead(head[1..], tail, text[1..]);
      assert text == [text[0]] + text[1..];
      assert text[1..][|head| - 1..] == text[|head|..];
    }
  }

  /** A literal tail of a pattern is a tail of every text it matches. */
  lemma {:induction false} GlobTail(front: string, tail: string, text: string)
    requires Literal(tail) && Glob(front + tail, text)
    ensures EndsWith(text, tail)
    decreases |front|, |text|
  {
    var pattern := front + tail;
    if front == "" {
      assert pattern == tail;
      LiteralGlob(tail, text);
    } else {
      assert pattern[0] == front[0] && pattern[1..] == front[1..] + tail;
      if front[0] == '*' && Glob(front[1..] + tail, text) {
        GlobTail(front[1..], tail, text);
      } else if front[0] == '*' {
        GlobTail(front, tail, text[1..]);
      } else {
        GlobTail(front[1..], tail, text[1..]);
      }
    }
  }

  /** What follows the last dash of a text. */
  function AfterLastDash(text: string): string {
    if text == "" || text[|text| - 1] == '-' then "" else AfterLastDash(text[..|text| - 1]) + [text[|text| - 1]]
  }

  /** What precedes the last dash of a text. */
  function BeforeLastDash(text: string): string {
    if text == "" then "" else if text[|text| - 1] == '-' then text[..|text| - 1] else BeforeLastDash(text[..|text| - 1])
  }

  predicate NoDash(text: string) {
    forall i | 0 <= i < |text| :: text[i] != '-'
  }

  lemma {:induction false} SplitAtLastDash(front: string, last: string)
    requires NoDash(last)
    ensures AfterLastDash(front + "-" + last) == last
    ensures BeforeLastDash(front + "-" + last) == front
  {
    var text := front + "-" + last;
    if last == "" {
      assert text[..|text| - 1] == front;
    } else {
      SplitAtLastDash(front, last[..|last| - 1]);
      assert text[..|text| - 1] == front + "-" + last[..|last| - 1];
    }
  }

  predicate NoColon(text: string) {
    forall i | 0 <= i < |text| :: text[i] != ':'
  }

  function BeforeColon(text: string): string {
    if text == "" || text[0] == ':' then "" else [text[0]] + BeforeColon(text[1..])
  }

  lemma {:induction false} SplitAtColon(first: string, rest: string)
    requires NoColon(first)
    ensures BeforeColon(first + ":" + rest) == first
  {
    if first != "" {
      SplitAtColon(first[1..], rest);
      assert (first + ":" + rest)[1..] == first[1..] + ":" + rest;
    }
  }

  lemma MatchedHead(head: string, rest: string, pattern: string, text: string)
    requires pattern == head + rest && Literal(head) && Glob(pattern, text)
    ensures |head| <= |text| && text == head + text[|head|..]
  {
    GlobHead(head, rest, text);
  }

  lemma MatchedTail(front: string, tail: string, pattern: string, text: string)
    requires pattern == front + tail && Literal(tail) && Glob(pattern, text)
    ensures |tail| <= |text| && text == text[..|text| - |tail|] + tail
  {
    GlobTail(front, tail, text);
  }

  lemma MatchedFrame(head: string, middle: string, tail: string, pattern: string, text: string)
    requires pattern == head + middle + tail && Literal(head) && Literal(tail) && Glob(pattern, text)
    ensures |head| <= |text| && text == head + text[|head|..]
    ensures |tail| <= |text| && text == text[..|text| - |tail|] + tail
  {
    var rest, front := middle + tail, head + middle;
    assert pattern == head + rest;
    assert pattern == front + tail;
    MatchedHead(head, rest, pattern, text);
    MatchedTail(front, tail, pattern, text);
  }

  lemma LiteralConcat(a: string, b: string)
    requires Literal(a) && Literal(b)
    ensures Literal(a + b)
  {
  }

  /** What starts a pattern and a text alike makes no difference. */
  lemma {:induction false} GlobBehind(head: string, pattern: string, text: string)
    requires Glob(pattern, text)
    ensures Glob(head + pattern, head + text)
  {
    if head == "" {
      assert head + pattern == pattern && head + text == text;
    } else {
      GlobBehind(head[1..], pattern, text);
      GlobCons(head[0], head[1..] + pattern, head[1..] + text);
      assert head + pattern == [head[0]] + (head[1..] + pattern);
      assert head + text == [head[0]] + (head[1..] + text);
    }
  }

  lemma {:induction false} GlobStarTakes(taken: string, pattern: string, text: string)
    requires Glob(pattern, text)
    ensures Glob("*" + pattern, taken + text)
  {
    assert ("*" + pattern)[1..] == pattern;
    if taken == "" {
      assert taken + text == text;
    } else {
      GlobStarTakes(taken[1..], pattern, text);
      assert (taken + text)[1..] == taken[1..] + text;
    }
  }

  /** A job's service account, whatever EMR puts in the two places, is matched by the pattern of its role. */
  lemma OwnSubjectIsMatched(namespace: string, account: string, role: seq<byte>, x: string, y: string)
    ensures Glob(SaPattern(namespace, account, role),
                 "system:serviceaccount:" + namespace + ":emr-containers-sa-" +
                 (x + ("-" + (y + ("-" + account + "-" + Encoded(role))))))
  {
    var tail := "-" + account + "-" + Encoded(role);
    GlobReflexive(tail);
    GlobStarTakes(y, tail, tail);
    GlobBehind("-", "*" + tail, y + tail);
    GlobStarTakes(x, "-" + ("*" + tail), "-" + (y + tail));
    GlobBehind(PatternHead(namespace), "*" + ("-" + ("*" + tail)), x + ("-" + (y + tail)));
    PatternShape(PatternHead(namespace), account, Encoded(role));
  }

  lemma PatternShape(head: string, account: string, code: string)
    ensures head + "*-*-" + account + "-" + code == head + ("*" + ("-" + ("*" + ("-" + account + "-" + code))))
  {
    assert "*-*-" == "*" + ("-" + ("*" + "-"));
  }

  function PatternHead(namespace: string): string {
    SUBJECT_PREFIX + namespace + SA_PREFIX
  }

  function PatternTail(account: string, role: seq<byte>): string {
    "-" + account + "-" + Encoded(role)
  }

  lemma FrameConcat(a: string, d: string, e: string, f: string)
    ensures a + (d + "-") + e + "-" + f == a + d + ("-" + e + "-" + f)
  {
  }

  lemma PatternIsFramed(namespace: string, account: string, role: seq<byte>)
    requires Literal(namespace) && Literal(account)
    ensures SaPattern(namespace, account, role) == PatternHead(namespace) + "*-*" + PatternTail(account, role)
    ensures Literal(PatternHead(namespace)) && Literal(PatternTail(account, role))
  {
    CodeIsLiteral(role);
    HeadIsLiteral(SUBJECT_PREFIX, namespace, SA_PREFIX);
    TailIsLiteral(account, Encoded(role));
    assert "*-*-" == "*-*" + "-";
    FrameConcat(PatternHead(namespace), "*-*", account, Encoded(role));
  }

  lemma CodeIsLiteral(role: seq<byte>)
    ensures Literal(Encoded(role))
  {
    EncodedLaws(role);
  }

  lemma HeadIsLiteral(a: string, b: string, c: string)
    requires Literal(a) && Literal(b) && Literal(c)
    ensures Literal(a + b + c)
  {
    LiteralConcat(a, b);
    LiteralConcat(a + b, c);
  }

  lemma TailIsLiteral(account: string, code: string)
    requires Literal(account) && Literal(code)
    ensures Literal("-" + account + "-" + code)
  {
    LiteralConcat("-", account);
    LiteralConcat("-" + account, "-");
    LiteralConcat("-" + account + "-", code);
  }

  /** What a subject matched by a pattern reveals: the namespace after the prefix, and the account
      and the encoded role at the end. */
  lemma MatchedSubject(namespace: string, account: string, role: seq<byte>, subject: string)
    requires NoColon(namespace) && Literal(namespace) && NoDash(account) && Literal(account)
    requires Glob(SaPattern(namespace, account, role), subject)
    ensures |SUBJECT_PREFIX| <= |subject| && BeforeColon(subject[|SUBJECT_PREFIX|..]) == namespace
    ensures AfterLastDash(subject) == Encoded(role)
    ensures AfterLastDash(BeforeLastDash(subject)) == account
  {
    PatternIsFramed(namespace, account, role);
    MatchedFrame(PatternHead(namespace), "*-*", PatternTail(account, role), SaPattern(namespace, account, role), subject);
    RevealNamespace(namespace, subject[|PatternHead(namespace)|..]);
    RevealRole(subject[..|subject| - |PatternTail(account, role)|], account, role);
  }

  lemma RevealNamespace(namespace: string, rest: string)
    requires NoColon(namespace)
    ensures BeforeColon((PatternHead(namespace) + rest)[|SUBJECT_PREFIX|..]) == namespace
  {
    assert SA_PREFIX == ":" + SA_PREFIX[1..];
    RevealFirst(SUBJECT_PREFIX, namespace, SA_PREFIX[1..], rest);
  }

  lemma RevealFirst(prefix: string, first: string, marker: string, rest: string)
    requires NoColon(first)
    ensures BeforeColon((prefix + first + (":" + marker) + rest)[|prefix|..]) == first
  {
    SplitAtColon(first, marker + rest);
    assert prefix + first + (":" + marker) + rest == prefix + (first + ":" + (marker + rest));
  }

  lemma RevealRole(front: string, account: string, role: seq<byte>)
    requires NoDash(account)
    ensures AfterLastDash(front + PatternTail(account, role)) == Encoded(role)
    ensures AfterLastDash(BeforeLastDash(front + PatternTail(account, role))) == account
  {
    EncodedLaws(role);
    RevealParts(front, account, Encoded(role));
  }

  lemma RevealParts(front: string, account: string, code: string)
    requires NoDash(account) && NoDash(code)
    ensures var text := front + ("-" + account + "-" + code);
      AfterLastDash(text) == code && AfterLastDash(BeforeLastDash(text)) == account
  {
    var inner := front + "-" + account;
    SplitAtLastDash(inner, code);
    SplitAtLastDash(front, account);
    assert front + ("-" + account + "-" + code) == inner + "-" + code;
  }

  /** No subject is matched by the patterns of two roles: if one is, the namespaces, the accounts and
      the roles (up to leading zero bytes) are the same. Namespaces hold no colon or wildcard, and
      accounts no dash or wildcard. */
  lemma PatternsAreDisjoint(ns1: string, acct1: string, role1: seq<byte>,
                            ns2: string, acct2: string, role2: seq<byte>, subject: string)
    requires NoColon(ns1) && NoColon(ns2) && Literal(ns1) && Literal(ns2)
    requires NoDash(acct1) && NoDash(acct2) && Literal(acct1) && Literal(acct2)
    requires Glob(SaPattern(ns1, acct1, role1), subject) && Glob(SaPattern(ns2, acct2, role2), subject)
    ensures ns1 == ns2 && acct1 == acct2 && Significant(role1) == Significant(role2)
  {
    MatchedSubject(ns1, acct1, role1, subject);
    MatchedSubject(ns2, acct2, role2, subject);
    EncodedCollision(role1, role2);
  }

  /** In particular the patterns of two roles of one account and namespace are the same text exactly
      when the encoding cannot tell the roles apart. */
  lemma PatternCollision(namespace: string, account: string, role1: seq<byte>, role2: seq<byte>)
    ensures SaPattern(namespace, account, role1) == SaPattern(namespace, account, role2) <==>
      Significant(role1) == Significant(role2)
  {
    var front := SUBJECT_PREFIX + namespace + SA_PREFIX + "*-*-" + account;
    EncodedLaws(role1);
    EncodedLaws(role2);
    SplitAtLastDash(front, Encoded(role1));
    SplitAtLastDash(front, Encoded(role2));
    EncodedCollision(role1, role2);
  }
}
