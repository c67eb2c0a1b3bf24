/** EMR release labels: their versions and the orders the sync sorts them by. */
module ReleaseLabels {
  import opened Text

  datatype Version = Version(major: nat, minor: nat, patch: nat)

  // ---------------------------------------------------------------------------
  // Parsing "emr-<major>.<minor>.<patch>" with an optional "-" suffix
  // ---------------------------------------------------------------------------

  predicate IsDigit(c: char) {
    '0' <= c <= '9'
  }

  predicate AllDigits(text: string) {
    text != "" && forall i | 0 <= i < |text| :: IsDigit(text[i])
  }

  function Number(digits: string): nat {
    if digits == "" then 0
    else
      var last := digits[|digits| - 1];
      Number(digits[..|digits| - 1]) * 10 + if IsDigit(last) then last as nat - '0' as nat else 0
  }

  /** Digits read in base ten: each further one makes ten times as much and itself. */
  lemma NumberIsDecimal(digits: string, last: char)
    requires IsDigit(last)
    ensures Number("") == 0
    ensures Number(digits + [last]) == Number(digits) * 10 + (last as nat - '0' as nat)
  {
    assert (digits + [last])[..|digits|] == digits;
  }

  /** How many digits a text starts with. */
  function DigitRun(text: string): nat {
    if text != "" && IsDigit(text[0]) then 1 + DigitRun(text[1..]) else 0
  }

  /** What may follow the version: nothing, or a dash and at least one character, on one line; a final
      line feed is allowed. */
  predicate ValidTail(tail: string) {
    var line := if EndsWith(tail, "\n") then tail[..|tail| - 1] else tail;
    '\n' !in line && (line == "" || (line[0] == '-' && |line| > 1))
  }

  /** On one line a tail is nothing, or a dash and something; a final line feed makes no difference; and no
      other line feed is allowed. */
  lemma TailLaws(line: string, more: string)
    requires '\n' !in line
    ensures ValidTail(line) <==> line == "" || (line[0] == '-' && |line| > 1)
    ensures ValidTail(line + "\n") <==> ValidTail(line)
    ensures more != "" ==> !ValidTail(line + "\n" + more)
  {
    if line != "" {
      assert line[|line| - 1] != '\n';
    }
    assert (line + "\n")[..|line|] == line;
    if more != "" {
      var all := line + "\n" + more;
      assert all[..|all| - 1][|line|] == '\n' && all[|line|] == '\n';
    }
  }

  lemma {:induction false} DigitRunBound(text: string)
    ensures DigitRun(text) <= |text|
    ensures DigitRun(text) > 0 ==> AllDigits(text[..DigitRun(text)])
    ensures DigitRun(text) < |text| ==> !IsDigit(text[DigitRun(text)])
  {
    if text != "" && IsDigit(text[0]) {
      DigitRunBound(text[1..]);
      var n := DigitRun(text[1..]);
      assert text[..1 + n] == [text[0]] + text[1..][..n];
    }
  }

  /** A run of digits split off the front, if there is one. */
  function Digits(text: string): Option<(string, string)> {
    DigitRunBound(text);
    var n := DigitRun(text);
    if n == 0 then None else Some((text[..n], text[n..]))
  }

  /** A run of digits and the dot after it. */
  function Dotted(text: string): Option<(string, string)> {
    var run := Digits(text);
    if run.Some? && StartsWith(run.value.1, ".") then Some((run.value.0, run.value.1[1..])) else None
  }

  function ParseReleaseVersion(release: string): Option<Version> {
    if !StartsWith(release, "emr-") then None
    else
      var major := Dotted(release[4..]);
      if major.None? then None
      else
        var minor := Dotted(major.value.1);
        if minor.None? then None
        else
          var patch := Digits(minor.value.1);
          if patch.None? || !ValidTail(patch.value.1) then None
          else Some(Version(Number(major.value.0), Number(minor.value.0), Number(patch.value.0)))
  }

  lemma {:induction false} DigitsOf(digits: string, rest: string)
    requires AllDigits(digits) && (rest == "" || !IsDigit(rest[0]))
    ensures Digits(digits + rest) == Some((digits, rest))
  {
    DigitRunOf(digits, rest);
    var text := digits + rest;
    assert text[..|digits|] == digits && text[|digits|..] == rest;
  }

  lemma {:induction false} DigitRunOf(digits: string, rest: string)
    requires forall i | 0 <= i < |digits| :: IsDigit(digits[i])
    requires rest == "" || !IsDigit(rest[0])
    ensures DigitRun(digits + rest) == |digits|
  {
    if digits == "" {
      assert digits + rest == rest;
    } else {
      assert (digits + rest)[1..] == digits[1..] + rest;
      DigitRunOf(digits[1..], rest);
    }
  }

  lemma DottedOf(digits: string, rest: string)
    requires AllDigits(digits)
    ensures Dotted(digits + "." + rest) == Some((digits, rest))
  {
    DigitsOf(digits, "." + rest);
    assert digits + "." + rest == digits + ("." + rest);
  }

  lemma TailStartsNoDigit(tail: string)
    requires ValidTail(tail)
    ensures tail == "" || !IsDigit(tail[0])
  {
  }

  /** A label spelled from three numbers and a tail. */
  predicate SpelledAs(release: string, a: string, b: string, c: string, tail: string) {
    && AllDigits(a) && AllDigits(b) && AllDigits(c) && ValidTail(tail)
    && release == "emr-" + (a + "." + (b + "." + (c + tail)))
  }

  /** A label of that spelling is read as its three numbers. */
  lemma ParseOfSpelled(release: string, a: string, b: string, c: string, tail: string)
    requires SpelledAs(release, a, b, c, tail)
    ensures ParseReleaseVersion(release) == Some(Version(Number(a), Number(b), Number(c)))
  {
    assert release[4..] == a + "." + (b + "." + (c + tail));
    DottedOf(a, b + "." + (c + tail));
    DottedOf(b, c + tail);
    TailStartsNoDigit(tail);
    DigitsOf(c, tail);
  }

  lemma DottedLaws(text: string)
    requires Dotted(text).Some?
    ensures AllDigits(Dotted(text).value.0) && text == Dotted(text).value.0 + "." + Dotted(text).value.1
  {
    DigitRunBound(text);
  }

  lemma DigitsLaws(text: string)
    requires Digits(text).Some?
    ensures AllDigits(Digits(text).value.0) && text == Digits(text).value.0 + Digits(text).value.1
  {
    DigitRunBound(text);
  }

  /** And no other label has a version. */
  lemma ParsedIsSpelled(release: string)
    requires ParseReleaseVersion(release).Some?
    ensures exists a, b, c, tail :: SpelledAs(release, a, b, c, tail)
  {
    var major := Dotted(release[4..]).value;
    DottedLaws(release[4..]);
    var minor := Dotted(major.1).value;
    DottedLaws(major.1);
    var patch := Digits(minor.1).value;
    DigitsLaws(minor.1);
    assert release == "emr-" + release[4..];
    assert SpelledAs(release, major.0, minor.0, patch.0, patch.1);
  }

  // ---------------------------------------------------------------------------
  // Orders
  // ---------------------------------------------------------------------------

  predicate VersionLess(v: Version, w: Version) {
    || v.major < w.major
    || (v.major == w.major && (v.minor < w.minor || (v.minor == w.minor && v.patch < w.patch)))
  }

  /** Versions by the first of their numbers that differs. */
  lemma VersionOrder(v: Version, w: Version)
    ensures v.major != w.major ==> (VersionLess(v, w) <==> v.major < w.major)
    ensures v.major == w.major && v.minor != w.minor ==> (VersionLess(v, w) <==> v.minor < w.minor)
    ensures v.major == w.major && v.minor == w.minor ==> (VersionLess(v, w) <==> v.patch < w.patch)
  {
  }

  predicate Valid(release: string) {
    ParseReleaseVersion(release).Some?
  }

  function VersionOf(release: string): Version {
    if Valid(release) then ParseReleaseVersion(release).value else Version(0, 0, 0)
  }

  /** Of two valid labels, the one with the newer version, or of two with the same version, the one
      later in label order. */
  predicate Outranks(a: string, b: string) {
    && Valid(a) && Valid(b)
    && (VersionLess(VersionOf(b), VersionOf(a)) || (VersionOf(a) == VersionOf(b) && TextLess(b, a)))
  }

  /** Valid labels before all others, by rank; the others by label. */
  predicate Prefers(a: string, b: string) {
    Outranks(a, b) || (Valid(a) && !Valid(b)) || (!Valid(a) && !Valid(b) && TextLess(b, a))
  }

  /** Of two labels with a version, a newer version outranks; and of the labels of one version, a longer
      spelling outranks the ones it begins with. */
  lemma OutranksLaws(a: string, b: string, first: char, more: string)
    requires Valid(a) && Valid(b)
    ensures VersionOf(a) != VersionOf(b) ==> (Outranks(a, b) <==> VersionLess(VersionOf(b), VersionOf(a)))
    ensures VersionOf(a) == VersionOf(b) && a == b + ([first] + more) ==> Outranks(a, b)
    ensures VersionOf(a) == VersionOf(b) ==> (Outranks(a, b) <==> TextLess(b, a))
  {
    var other: char := if first == 'a' then 'b' else 'a';
    TextLessAtDifference(b, first, other, more, "");
  }

  lemma PrefersIrreflexive(a: string)
    ensures !Prefers(a, a)
  {
    TextIrreflexive(a);
  }

  lemma PrefersTransitive(a: string, b: string, c: string)
    requires Prefers(a, b) && Prefers(b, c)
    ensures Prefers(a, c)
  {
    if TextLess(b, a) && TextLess(c, b) {
      TextTransitive(c, b, a);
    }
  }

  // ---------------------------------------------------------------------------
  // The two sorts
  // ---------------------------------------------------------------------------

  predicate Descending(labels: seq<string>) {
    forall i, j | 0 <= i < j < |labels| :: TextLess(labels[j], labels[i])
  }

  /** Places a label in a descending list, unless it is there. */
  function Insert(release: string, labels: seq<string>): seq<string> {
    if labels == [] || TextLess(labels[0], release) then [release] + labels
    else if labels[0] == release then labels
    else [labels[0]] + Insert(release, labels[1..])
  }

  /** `sorted(set(labels), reverse=True)`. */
  function DistinctDescending(labels: seq<string>): seq<string> {
    if labels == [] then [] else Insert(labels[0], DistinctDescending(labels[1..]))
  }

  lemma {:induction false} InsertLaws(release: string, labels: seq<string>)
    requires Descending(labels)
    ensures Descending(Insert(release, labels))
    ensures forall x :: x in Insert(release, labels) <==> x == release || x in labels
  {
    if labels == [] {
    } else if TextLess(labels[0], release) {
      forall j | 0 < j < |labels| ensures TextLess(labels[j], release) {
        TextTransitive(labels[j], labels[0], release);
      }
    } else if labels[0] != release {
      InsertLaws(release, labels[1..]);
      TextTotal(release, labels[0]);
      var rest := Insert(release, labels[1..]);
      forall j | 0 <= j < |rest| ensures TextLess(rest[j], labels[0]) {
        assert rest[j] in rest;
        assert rest[j] == release || rest[j] in labels[1..];
      }
    }
  }

  lemma {:induction false} DistinctDescendingLaws(labels: seq<string>)
    ensures Descending(DistinctDescending(labels))
    ensures forall x :: x in DistinctDescending(labels) <==> x in labels
  {
    if labels != [] {
      DistinctDescendingLaws(labels[1..]);
      InsertLaws(labels[0], DistinctDescending(labels[1..]));
    }
  }

  function OnlyValid(labels: seq<string>): seq<string> {
    if labels == [] then [] else (if Valid(labels[0]) then [labels[0]] else []) + OnlyValid(labels[1..])
  }

  /** Stable insertion in descending version order: before the labels of the same version. */
  function InsertByVersion(release: string, labels: seq<string>): seq<string> {
    if labels == [] || !VersionLess(VersionOf(release), VersionOf(labels[0])) then [release] + labels
    else [labels[0]] + InsertByVersion(release, labels[1..])
  }

  /** The stable sort by version, newest first. */
  function SortedByVersion(labels: seq<string>): seq<string> {
    if labels == [] then [] else InsertByVersion(labels[0], SortedByVersion(labels[1..]))
  }

  predicate Ordered<T>(items: seq<T>, above: (T, T) -> bool) {
    forall i, j | 0 <= i < j < |items| :: above(items[i], items[j])
  }

  lemma OrderedCons<T>(top: T, rest: seq<T>, above: (T, T) -> bool)
    requires Ordered(rest, above) && forall j | 0 <= j < |rest| :: above(top, rest[j])
    ensures Ordered([top] + rest, above)
  {
  }

  predicate AllValid(labels: seq<string>) {
    forall i | 0 <= i < |labels| :: Valid(labels[i])
  }

  predicate Ranked(labels: seq<string>) {
    AllValid(labels) && Ordered(labels, Outranks)
  }

  lemma {:induction false} OnlyValidLaws(labels: seq<string>)
    requires Descending(labels)
    ensures Descending(OnlyValid(labels))
    ensures forall x :: x in OnlyValid(labels) <==> x in labels && Valid(x)
  {
    if labels != [] {
      OnlyValidLaws(labels[1..]);
      var rest := OnlyValid(labels[1..]);
      forall j | 0 <= j < |rest| ensures TextLess(rest[j], labels[0]) {
        assert rest[j] in rest;
      }
    }
  }

  lemma RankedCons(top: string, rest: seq<string>)
    requires Ranked(rest) && Valid(top) && forall j | 0 <= j < |rest| :: Outranks(top, rest[j])
    ensures Ranked([top] + rest)
  {
    OrderedCons(top, rest, Outranks);
  }

  lemma OutranksHere(release: string, labels: seq<string>)
    requires Ranked(labels) && labels != [] && Valid(release)
    requires forall i | 0 <= i < |labels| :: TextLess(labels[i], release)
    requires !VersionLess(VersionOf(release), VersionOf(labels[0]))
    ensures forall j | 0 <= j < |labels| :: Outranks(release, labels[j])
  {
    forall j | 0 <= j < |labels| ensures Outranks(release, labels[j]) {
      assert j > 0 ==> Outranks(labels[0], labels[j]);
    }
  }

  lemma {:induction false} InsertByVersionLaws(release: string, labels: seq<string>)
    requires Ranked(labels) && Valid(release)
    requires forall i | 0 <= i < |labels| :: TextLess(labels[i], release)
    ensures Ranked(InsertByVersion(release, labels))
    ensures forall x :: x in InsertByVersion(release, labels) <==> x == release || x in labels
  {
    if labels == [] {
    } else if !VersionLess(VersionOf(release), VersionOf(labels[0])) {
      OutranksHere(release, labels);
      RankedCons(release, labels);
    } else {
      InsertByVersionLaws(release, labels[1..]);
      var rest := InsertByVersion(release, labels[1..]);
      forall j | 0 <= j < |rest| ensures Outranks(labels[0], rest[j]) {
        RankedTop(labels, release, rest[j]);
      }
      RankedCons(labels[0], rest);
    }
  }

  lemma RankedTop(labels: seq<string>, release: string, x: string)
    requires Ranked(labels) && labels != [] && Valid(release)
    requires VersionLess(VersionOf(release), VersionOf(labels[0]))
    requires x == release || x in labels[1..]
    ensures Outranks(labels[0], x)
  {
  }

  /** On the valid labels in label order, the version sort gives the rank order. */
  lemma {:induction false} SortedByVersionLaws(labels: seq<string>)
    requires Descending(labels) && AllValid(labels)
    ensures Ranked(SortedByVersion(labels))
    ensures forall x :: x in SortedByVersion(labels) <==> x in labels
  {
    if labels != [] {
      SortedByVersionLaws(labels[1..]);
      var rest := SortedByVersion(labels[1..]);
      forall j | 0 <= j < |rest| ensures TextLess(rest[j], labels[0]) {
        assert rest[j] in rest;
        assert rest[j] in labels[1..];
      }
      InsertByVersionLaws(labels[0], rest);
    }
  }
}
