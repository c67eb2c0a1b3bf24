/** Names made from free text: EMR job runs, Kubernetes label values, suggested namespaces. */
module Names {
  import opened Text

  predicate IsLower(c: char) {
    'a' <= c <= 'z' || '0' <= c <= '9'
  }

  predicate IsAlnum(c: char) {
    IsLower(c) || 'A' <= c <= 'Z'
  }

  /** A letter, a digit, or one of ".", "_", "-". */
  predicate IsNameChar(c: char) {
    IsAlnum(c) || c == '.' || c == '_' || c == '-'
  }

  predicate IsNamespaceChar(c: char) {
    IsLower(c) || c == '-'
  }

  predicate IsDash(c: char) {
    c == '-'
  }

  predicate All(text: string, ok: char -> bool) {
    forall i | 0 <= i < |text| :: ok(text[i])
  }

  // ---------------------------------------------------------------------------
  // The two substitutions
  // ---------------------------------------------------------------------------

  /** Every run of characters outside a class becomes one dash. */
  function Dashed(text: string, ok: char -> bool, inRun: bool): string {
    if text == "" then ""
    else if ok(text[0]) then [text[0]] + Dashed(text[1..], ok, false)
    else if inRun then Dashed(text[1..], ok, true)
    else "-" + Dashed(text[1..], ok, true)
  }

  /** Every run of dashes becomes one dash. */
  function Squeezed(text: string): string {
    if text == "" then ""
    else if |text| >= 2 && text[0] == '-' && text[1] == '-' then Squeezed(text[1..])
    else [text[0]] + Squeezed(text[1..])
  }

  predicate NoneOf(text: string, ok: char -> bool) {
    forall i | 0 <= i < |text| :: !ok(text[i])
  }

  lemma {:induction false} RestOfRun(junk: string, rest: string, ok: char -> bool)
    requires NoneOf(junk, ok) && (rest == "" || ok(rest[0]))
    ensures Dashed(junk + rest, ok, true) == Dashed(rest, ok, false)
  {
    if junk == "" {
      assert junk + rest == rest;
    } else {
      assert (junk + rest)[1..] == junk[1..] + rest;
      RestOfRun(junk[1..], rest, ok);
    }
  }

  /** The characters of the class stay, and a whole run of others becomes one dash. */
  lemma {:induction false} DashedRun(kept: string, junk: string, rest: string, ok: char -> bool)
    requires All(kept, ok) && junk != "" && NoneOf(junk, ok) && (rest == "" || ok(rest[0]))
    ensures Dashed(kept + (junk + rest), ok, false) == kept + ("-" + Dashed(rest, ok, false))
  {
    if kept == "" {
      assert kept + (junk + rest) == junk + rest;
      assert (junk + rest)[1..] == junk[1..] + rest;
      RestOfRun(junk[1..], rest, ok);
    } else {
      assert (kept + (junk + rest))[1..] == kept[1..] + (junk + rest);
      DashedRun(kept[1..], junk, rest, ok);
    }
  }

  lemma {:induction false} SqueezedDashes(dashes: string, rest: string)
    requires dashes != "" && All(dashes, IsDash) && (rest == "" || rest[0] != '-')
    ensures Squeezed(dashes + rest) == "-" + Squeezed(rest)
  {
    assert (dashes + rest)[1..] == dashes[1..] + rest;
    if |dashes| > 1 {
      SqueezedDashes(dashes[1..], rest);
    }
  }

  /** Other characters stay, and a whole run of dashes becomes one. */
  lemma {:induction false} SqueezedRun(kept: string, dashes: string, rest: string)
    requires NoneOf(kept, IsDash) && dashes != "" && All(dashes, IsDash) && (rest == "" || rest[0] != '-')
    ensures Squeezed(kept + (dashes + rest)) == kept + ("-" + Squeezed(rest))
  {
    if kept == "" {
      assert kept + (dashes + rest) == dashes + rest;
      SqueezedDashes(dashes, rest);
    } else {
      assert (kept + (dashes + rest))[1..] == kept[1..] + (dashes + rest);
      SqueezedRun(kept[1..], dashes, rest);
    }
  }

  // ---------------------------------------------------------------------------
  // Letters and digits are conserved
  // ---------------------------------------------------------------------------

  /** The characters of a class, in order. */
  function Only(text: string, some: char -> bool): string {
    if text == "" then "" else (if some(text[0]) then [text[0]] else "") + Only(text[1..], some)
  }

  lemma {:induction false} OnlyBoth(first: string, second: string, some: char -> bool)
    ensures Only(first + second, some) == Only(first, some) + Only(second, some)
  {
    if first == "" {
      assert first + second == second;
    } else {
      assert (first + second)[1..] == first[1..] + second;
      OnlyBoth(first[1..], second, some);
      Associative(if some(first[0]) then [first[0]] else "", Only(first[1..], some), Only(second, some));
    }
  }

  lemma {:induction false} OnlyOfDashed(text: string, ok: char -> bool, inRun: bool, some: char -> bool)
    requires !some('-') && forall c | some(c) :: ok(c)
    ensures Only(Dashed(text, ok, inRun), some) == Only(text, some)
  {
    if text != "" {
      OnlyOfDashed(text[1..], ok, !ok(text[0]), some);
      var rest := Dashed(text[1..], ok, !ok(text[0]));
      assert ([text[0]] + rest)[1..] == rest && ("-" + rest)[1..] == rest;
    }
  }

  lemma {:induction false} OnlyOfSqueezed(text: string, some: char -> bool)
    requires !some('-')
    ensures Only(Squeezed(text), some) == Only(text, some)
  {
    if text != "" {
      OnlyOfSqueezed(text[1..], some);
      assert ([text[0]] + Squeezed(text[1..]))[1..] == Squeezed(text[1..]);
    }
  }

  lemma {:induction false} OnlyOfTrimLeft(text: string, blank: char -> bool, some: char -> bool)
    requires forall c | some(c) :: !blank(c)
    ensures Only(TrimLeft(text, blank), some) == Only(text, some)
  {
    if text != "" && blank(text[0]) {
      OnlyOfTrimLeft(text[1..], blank, some);
    }
  }

  lemma {:induction false} OnlyOfTrimRight(text: string, blank: char -> bool, some: char -> bool)
    requires forall c | some(c) :: !blank(c)
    ensures Only(TrimRight(text, blank), some) == Only(text, some)
  {
    if text != "" && blank(text[|text| - 1]) {
      var last := [text[|text| - 1]];
      assert text == text[..|text| - 1] + last;
      OnlyBoth(text[..|text| - 1], last, some);
      OnlyOfTrimRight(text[..|text| - 1], blank, some);
    }
  }

  lemma OnlyOfTrim(text: string, blank: char -> bool, some: char -> bool)
    requires forall c | some(c) :: !blank(c)
    ensures Only(Trim(text, blank), some) == Only(text, some)
  {
    OnlyOfTrimLeft(text, blank, some);
    OnlyOfTrimRight(TrimLeft(text, blank), blank, some);
  }

  predicate DoubleAt(text: string, i: nat) {
    i + 1 < |text| && text[i] == '-' && text[i + 1] == '-'
  }

  ghost predicate NoDoubleDash(text: string) {
    forall i :: !DoubleAt(text, i)
  }

  lemma NoDoubleInPart(text: string, part: string, start: nat)
    requires NoDoubleDash(text) && start + |part| <= |text| && part == text[start..start + |part|]
    ensures NoDoubleDash(part)
  {
    forall i: nat ensures !DoubleAt(part, i) {
      assert !DoubleAt(text, start + i);
    }
  }

  lemma NoDoubleCons(c: char, text: string)
    requires NoDoubleDash(text) && !(c == '-' && text != "" && text[0] == '-')
    ensures NoDoubleDash([c] + text)
  {
    forall i: nat ensures !DoubleAt([c] + text, i) {
      if i > 0 {
        assert !DoubleAt(text, i - 1);
      }
    }
  }

  lemma AllCons(c: char, text: string, ok: char -> bool)
    requires ok(c) && All(text, ok)
    ensures All([c] + text, ok)
  {
  }

  lemma {:induction false} DashedIsAll(text: string, ok: char -> bool, inRun: bool)
    requires ok('-')
    ensures All(Dashed(text, ok, inRun), ok)
  {
    if text != "" {
      if ok(text[0]) {
        DashedIsAll(text[1..], ok, false);
        AllCons(text[0], Dashed(text[1..], ok, false), ok);
      } else {
        DashedIsAll(text[1..], ok, true);
        AllCons('-', Dashed(text[1..], ok, true), ok);
      }
    }
  }

  lemma {:induction false} DashedKeeps(text: string, ok: char -> bool, inRun: bool)
    requires All(text, ok)
    ensures Dashed(text, ok, inRun) == text
  {
    if text != "" {
      DashedKeeps(text[1..], ok, false);
    }
  }

  lemma {:induction false} DashedIsShorter(text: string, ok: char -> bool, inRun: bool)
    ensures |Dashed(text, ok, inRun)| <= |text|
  {
    if text != "" {
      DashedIsShorter(text[1..], ok, !ok(text[0]));
    }
  }

  lemma DashedLaws(text: string, ok: char -> bool, inRun: bool)
    requires ok('-')
    ensures All(Dashed(text, ok, inRun), ok)
    ensures All(text, ok) ==> Dashed(text, ok, inRun) == text
    ensures |Dashed(text, ok, inRun)| <= |text|
  {
    DashedIsAll(text, ok, inRun);
    DashedIsShorter(text, ok, inRun);
    if All(text, ok) {
      DashedKeeps(text, ok, inRun);
    }
  }

  lemma {:induction false} SqueezedLaws(text: string, ok: char -> bool)
    requires All(text, ok)
    ensures All(Squeezed(text), ok) && NoDoubleDash(Squeezed(text))
    ensures text != "" ==> Squeezed(text) != "" && Squeezed(text)[0] == text[0]
  {
    if text != "" {
      assert All(text[1..], ok);
      SqueezedLaws(text[1..], ok);
      if !DoubleAt(text, 0) {
        NoDoubleCons(text[0], Squeezed(text[1..]));
      }
    }
  }

  lemma {:induction false} SqueezedKeeps(text: string)
    requires NoDoubleDash(text)
    ensures Squeezed(text) == text
  {
    if text != "" {
      NoDoubleInPart(text, text[1..], 1);
      SqueezedKeeps(text[1..]);
      assert !DoubleAt(text, 0);
    }
  }

  lemma KeptAll(text: string, whole: string, ok: char -> bool)
    requires All(whole, ok) && forall c | c in text :: c in whole
    ensures All(text, ok)
  {
    forall i | 0 <= i < |text| ensures ok(text[i]) {
      assert text[i] in text;
    }
  }

  lemma NoSpaces(text: string, ok: char -> bool)
    requires All(text, ok) && forall c :: ok(c) ==> !IsSpace(c)
    ensures Strip(text) == text
  {
    TrimLaws(text, IsSpace);
  }

  // ---------------------------------------------------------------------------
  // EMR job run names
  // ---------------------------------------------------------------------------

  const EMR_JOB_NAME_MAX_LENGTH := 64
  const EMR_JOB_NAME_RUN_ID_CHARS := 12

  predicate IsEdge(c: char) {
    c == '-' || c == '.' || c == '_'
  }

  function OrElse(text: string, fallback: string): string {
    if text == "" then fallback else text
  }

  function Core(text: string): string {
    Trim(Squeezed(Dashed(text, IsNameChar, false)), IsEdge)
  }

  function SanitizeComponent(value: string): string {
    OrElse(Core(Strip(value)), "run")
  }

  /** Name characters only, beginning and ending with a letter or digit. */
  predicate LegalName(text: string, limit: nat) {
    1 <= |text| <= limit && All(text, IsNameChar) && IsAlnum(text[0]) && IsAlnum(text[|text| - 1])
  }

  lemma RunIsLegal()
    ensures LegalName("run", 3) && NoDoubleDash("run")
  {
    assert forall i :: !DoubleAt("run", i);
  }

  lemma TrimKeepsNoDouble(text: string)
    requires NoDoubleDash(text)
    ensures NoDoubleDash(Trim(text, IsEdge))
  {
    var left := TrimLeft(text, IsEdge);
    TrimLeftLaws(text, IsEdge);
    TrimRightLaws(left, IsEdge);
    NoDoubleInPart(text, left, |text| - |left|);
    NoDoubleInPart(left, TrimRight(left, IsEdge), 0);
  }

  lemma CoreIsLegal(text: string)
    ensures Core(text) != "" ==> LegalName(Core(text), |Core(text)|)
    ensures NoDoubleDash(Core(text))
  {
    var dashed := Dashed(text, IsNameChar, false);
    DashedLaws(text, IsNameChar, false);
    SqueezedLaws(dashed, IsNameChar);
    TrimLaws(Squeezed(dashed), IsEdge);
    TrimKeepsNoDouble(Squeezed(dashed));
    KeptAll(Core(text), Squeezed(dashed), IsNameChar);
  }

  lemma LegalComponentStays(text: string)
    requires LegalName(text, |text|) && NoDoubleDash(text)
    ensures Strip(text) == text && Core(text) == text
  {
    NoSpaces(text, IsNameChar);
    DashedLaws(text, IsNameChar, false);
    SqueezedKeeps(text);
    TrimLaws(text, IsEdge);
  }

  /** A component is legal and has no double dash, and what is so already is left alone: the results
      are exactly the texts that sanitizing does not change. */
  lemma ComponentLaws(value: string)
    ensures LegalName(SanitizeComponent(value), |SanitizeComponent(value)|) && NoDoubleDash(SanitizeComponent(value))
    ensures SanitizeComponent(value) == value <==> LegalName(value, |value|) && NoDoubleDash(value)
  {
    CoreIsLegal(Strip(value));
    RunIsLegal();
    if LegalName(value, |value|) && NoDoubleDash(value) {
      LegalComponentStays(value);
    }
  }

  /** Sanitizing keeps every ASCII letter and digit, in order; only a text without any becomes "run". */
  lemma ComponentKeepsLetters(value: string)
    ensures Only(value, IsAlnum) != "" ==> Only(SanitizeComponent(value), IsAlnum) == Only(value, IsAlnum)
    ensures Only(value, IsAlnum) == "" ==> SanitizeComponent(value) == "run"
  {
    var stripped := Strip(value);
    OnlyOfTrim(value, IsSpace, IsAlnum);
    var dashed := Dashed(stripped, IsNameChar, false);
    OnlyOfDashed(stripped, IsNameChar, false, IsAlnum);
    OnlyOfSqueezed(dashed, IsAlnum);
    OnlyOfTrim(Squeezed(dashed), IsEdge, IsAlnum);
    CoreIsLegal(stripped);
  }

  function LastChars(text: string, n: nat): string {
    if |text| <= n then text else text[|text| - n..]
  }

  function FirstChars(text: string, n: nat): string {
    if |text| <= n then text else text[..n]
  }

  function CutPrefix(safeJob: string, budget: int): string {
    OrElse(TrimRight(FirstChars(safeJob, if budget < 1 then 1 else budget), IsEdge), "run")
  }

  /** What happens to a name that is too long. */
  function Fitted(name: string, suffix: string): string {
    if |name| <= EMR_JOB_NAME_MAX_LENGTH then name
    else OrElse(TrimRight(name[..EMR_JOB_NAME_MAX_LENGTH], IsEdge), FirstChars("run-" + suffix, EMR_JOB_NAME_MAX_LENGTH))
  }

  function Affixed(prefix: string, suffix: string): string {
    Fitted(prefix + "-" + suffix, suffix)
  }

  function JoinName(safeJob: string, suffix: string): string {
    Affixed(CutPrefix(safeJob, EMR_JOB_NAME_MAX_LENGTH - |suffix| - 1), suffix)
  }

  function RunSuffix(safeRun: string): string {
    OrElse(LastChars(safeRun, EMR_JOB_NAME_RUN_ID_CHARS), "run")
  }

  function EmrJobRunName(jobName: string, runId: string): string {
    JoinName(SanitizeComponent(jobName), RunSuffix(SanitizeComponent(runId)))
  }

  lemma {:induction false} TrimRightKeepsFirst(text: string, blank: char -> bool)
    requires text != "" && !blank(text[0])
    ensures TrimRight(text, blank) != "" && TrimRight(text, blank)[0] == text[0]
  {
    if blank(text[|text| - 1]) {
      TrimRightKeepsFirst(text[..|text| - 1], blank);
    }
  }

  lemma AffixesAreLegal(prefix: string, suffix: string)
    requires All(prefix, IsNameChar) && prefix != "" && IsAlnum(prefix[0])
    requires All(suffix, IsNameChar) && suffix != "" && IsAlnum(suffix[|suffix| - 1])
    requires |prefix| + |suffix| < 64
    ensures LegalName(prefix + "-" + suffix, 64) && Affixed(prefix, suffix) == prefix + "-" + suffix
  {
    var name := prefix + "-" + suffix;
    assert name[|name| - 1] == suffix[|suffix| - 1];
  }

  lemma PrefixLaws(job: string, budget: nat) returns (edges: string)
    requires LegalName(job, |job|) && budget >= 1
    ensures var prefix := CutPrefix(job, budget);
      && IsFirstPart(prefix, edges, job, budget)
      && 1 <= |prefix| <= budget && All(prefix, IsNameChar) && IsAlnum(prefix[0])
  {
    var cut := FirstChars(job, budget);
    TrimRightLaws(cut, IsEdge);
    TrimRightKeepsFirst(cut, IsEdge);
    TrimRightDrops(cut, IsEdge);
    edges := cut[|TrimRight(cut, IsEdge)|..];
  }

  /** Only characters of the class are dropped. */
  lemma {:induction false} TrimRightDrops(text: string, blank: char -> bool)
    ensures TrimRight(text, blank) <= text && AllBlank(text[|TrimRight(text, blank)|..], blank)
  {
    if text != "" && blank(text[|text| - 1]) {
      TrimRightDrops(text[..|text| - 1], blank);
    }
  }

  lemma SuffixLaws(run: string)
    requires LegalName(run, |run|)
    ensures var suffix := RunSuffix(run);
      && 1 <= |suffix| <= 12 && All(suffix, IsNameChar) && IsAlnum(suffix[|suffix| - 1])
      && IsLastPart(suffix, run)
  {
  }

  /** Every run name is legal and at most 64 characters, starts like the job's component and ends with
      the last twelve characters of the run's: no cut ever reaches them. */
  lemma RunNameLaws(jobName: string, runId: string) returns (prefix: string, edges: string, suffix: string)
    ensures LegalName(EmrJobRunName(jobName, runId), 64)
    ensures EmrJobRunName(jobName, runId) == prefix + "-" + suffix
    ensures IsLastPart(suffix, SanitizeComponent(runId))
    ensures IsFirstPart(prefix, edges, SanitizeComponent(jobName), 64 - |suffix| - 1)
  {
    ComponentLaws(jobName);
    ComponentLaws(runId);
    suffix := RunSuffix(SanitizeComponent(runId));
    SuffixLaws(SanitizeComponent(runId));
    prefix, edges := JoinedNameLaws(SanitizeComponent(jobName), suffix);
  }

  /** The last twelve characters, or all. */
  predicate IsLastPart(suffix: string, component: string) {
    EndsWith(component, suffix) && |suffix| == if |component| < 12 then |component| else 12
  }

  /** All of it if there is room; otherwise what there is room for, less some edges at the cut. */
  predicate IsFirstPart(prefix: string, edges: string, component: string, room: int) {
    && prefix != "" && AllBlank(edges, IsEdge)
    && if |component| <= room then prefix == component && edges == ""
       else 0 <= room && prefix + edges == component[..room]
  }

  lemma JoinedNameLaws(job: string, suffix: string) returns (prefix: string, edges: string)
    requires LegalName(job, |job|)
    requires 1 <= |suffix| <= 12 && All(suffix, IsNameChar) && IsAlnum(suffix[|suffix| - 1])
    ensures LegalName(JoinName(job, suffix), 64)
    ensures JoinName(job, suffix) == prefix + "-" + suffix
    ensures IsFirstPart(prefix, edges, job, 64 - |suffix| - 1)
  {
    prefix := CutPrefix(job, 64 - |suffix| - 1);
    edges := PrefixLaws(job, 64 - |suffix| - 1);
    AffixesAreLegal(prefix, suffix);
  }

  // ---------------------------------------------------------------------------
  // Label values
  // ---------------------------------------------------------------------------

  const K8S_LABEL_VALUE_MAX_LENGTH := 63

  predicate NotAlnum(c: char) {
    !IsAlnum(c)
  }

  function CutLabel(text: string): string {
    Trim(FirstChars(Dashed(text, IsNameChar, false), K8S_LABEL_VALUE_MAX_LENGTH), NotAlnum)
  }

  function SafeLabel(value: Option<string>): string {
    var text := Strip(if value.Some? then value.value else "");
    if text == "" then "unknown" else OrElse(CutLabel(text), "unknown")
  }

  /** Cuts one character at a time from either end. */
  method SafeK8sLabelValue(value: Option<string>) returns (text: string)
    ensures text == SafeLabel(value)
    ensures LegalName(text, 63)
  {
    SafeLabelLaws(value);
    text := Strip(if value.Some? then value.value else "");
    if text == "" {
      return "unknown";
    }
    text := Dashed(text, IsNameChar, false);
    text := FirstChars(text, K8S_LABEL_VALUE_MAX_LENGTH);
    ghost var cut := text;
    while text != "" && !IsAlnum(text[0])
      invariant TrimLeft(text, NotAlnum) == TrimLeft(cut, NotAlnum)
      decreases |text|
    {
      text := text[1..];
    }
    while text != "" && !IsAlnum(text[|text| - 1])
      invariant TrimRight(text, NotAlnum) == Trim(cut, NotAlnum)
      decreases |text|
    {
      text := text[..|text| - 1];
    }
    text := OrElse(text, "unknown");
  }

  lemma UnknownIsLegal()
    ensures LegalName("unknown", 63)
  {
  }

  lemma CutLabelIsLegal(text: string)
    ensures CutLabel(text) != "" ==> LegalName(CutLabel(text), 63)
  {
    DashedLaws(text, IsNameChar, false);
    var cut := FirstChars(Dashed(text, IsNameChar, false), K8S_LABEL_VALUE_MAX_LENGTH);
    TrimLaws(cut, NotAlnum);
    KeptAll(Trim(cut, NotAlnum), cut, IsNameChar);
  }

  lemma LegalLabelStays(text: string)
    requires LegalName(text, 63)
    ensures Strip(text) == text && CutLabel(text) == text
  {
    NoSpaces(text, IsNameChar);
    DashedLaws(text, IsNameChar, false);
    TrimLaws(text, NotAlnum);
  }

  /** Label values are legal, and sanitizing changes exactly the texts that are not. */
  lemma SafeLabelLaws(value: Option<string>)
    ensures LegalName(SafeLabel(value), 63)
    ensures value.Some? ==> (SafeLabel(value) == value.value <==> LegalName(value.value, 63))
  {
    UnknownIsLegal();
    CutLabelIsLegal(Strip(if value.Some? then value.value else ""));
    if value.Some? && LegalName(value.value, 63) {
      LegalLabelStays(value.value);
    }
  }

  /** A label keeps the letters and digits among the first 63 characters, which for a short text are all
      of them; only when there are none is it "unknown". */
  lemma LabelKeepsLetters(value: string)
    ensures var cut := FirstChars(Dashed(Strip(value), IsNameChar, false), 63);
      if Only(cut, IsAlnum) == "" then SafeLabel(Some(value)) == "unknown"
      else Only(SafeLabel(Some(value)), IsAlnum) == Only(cut, IsAlnum)
    ensures |Strip(value)| <= 63 && Only(value, IsAlnum) != "" ==>
      Only(SafeLabel(Some(value)), IsAlnum) == Only(value, IsAlnum)
    ensures SafeLabel(None) == "unknown"
  {
    var text := Strip(value);
    var dashed := Dashed(text, IsNameChar, false);
    OnlyOfTrim(value, IsSpace, IsAlnum);
    OnlyOfDashed(text, IsNameChar, false, IsAlnum);
    DashedIsShorter(text, IsNameChar, false);
    OnlyOfTrim(FirstChars(dashed, 63), NotAlnum, IsAlnum);
    CutLabelIsLegal(text);
    TrimLaws("", IsSpace);
  }

  // ---------------------------------------------------------------------------
  // Suggested namespaces
  // ---------------------------------------------------------------------------

  /** `lower` stands for Python's lower-casing, of which nothing is needed. */
  function NamespaceFragment(raw: string, lower: string -> string): string {
    OrElse(Trim(Squeezed(Dashed(lower(Strip(raw)), IsNamespaceChar, false)), IsDash), "sparkpilot")
  }

  function Underscored(text: string): string {
    if text == "" then "" else [if text[0] == '_' then '-' else text[0]] + Underscored(text[1..])
  }

  /** Underscores become dashes, and nothing else changes. */
  lemma {:induction false} UnderscoredAt(text: string, i: nat)
    requires i < |text|
    ensures |Underscored(text)| == |text|
    ensures Underscored(text)[i] == if text[i] == '_' then '-' else text[i]
  {
    if |text| > 1 {
      UnderscoredAt(text[1..], if i == 0 then 0 else i - 1);
    }
  }

  /** An absent or empty text is replaced. */
  function Or(text: Option<string>, fallback: string): string {
    if text.Some? && text.value != "" then text.value else fallback
  }

  function SuggestNamespace(tenantId: Option<string>, actor: string, clusterName: Option<string>,
                            lower: string -> string): string
  {
    var tenantPart := FirstChars(NamespaceFragment(Underscored(Or(tenantId, actor)), lower), 20);
    var clusterPart := FirstChars(NamespaceFragment(Or(clusterName, "cluster"), lower), 20);
    JoinParts(tenantPart, clusterPart)
  }

  function JoinParts(tenantPart: string, clusterPart: string): string {
    var namespace := Trim("sparkpilot-" + tenantPart + "-" + clusterPart, IsDash);
    OrElse(if |namespace| > 63 then Trim(namespace[..63], IsDash) else namespace, "sparkpilot")
  }

  /** A DNS label: section 2.1 of RFC 1123, with the length of section 2.3.4 of RFC 1035. */
  predicate IsDnsLabel(text: string) {
    1 <= |text| <= 63 && All(text, IsNamespaceChar) && IsLower(text[0]) && IsLower(text[|text| - 1])
  }

  lemma SparkpilotIsLabel()
    ensures IsDnsLabel("sparkpilot")
  {
  }

  lemma FragmentLaws(raw: string, lower: string -> string)
    ensures All(NamespaceFragment(raw, lower), IsNamespaceChar)
    ensures NamespaceFragment(raw, lower) != "" && IsLower(NamespaceFragment(raw, lower)[0])
  {
    var dashed := Dashed(lower(Strip(raw)), IsNamespaceChar, false);
    DashedLaws(lower(Strip(raw)), IsNamespaceChar, false);
    SqueezedLaws(dashed, IsNamespaceChar);
    TrimLaws(Squeezed(dashed), IsDash);
    KeptAll(Trim(Squeezed(dashed), IsDash), Squeezed(dashed), IsNamespaceChar);
    SparkpilotIsLabel();
  }

  /** A fragment keeps the lower-case letters and digits; only a text without any becomes "sparkpilot". */
  lemma FragmentKeepsLetters(raw: string, lower: string -> string)
    ensures var text := lower(Strip(raw));
      if Only(text, IsLower) == "" then NamespaceFragment(raw, lower) == "sparkpilot"
      else Only(NamespaceFragment(raw, lower), IsLower) == Only(text, IsLower)
  {
    var text := lower(Strip(raw));
    var dashed := Dashed(text, IsNamespaceChar, false);
    var kept := Trim(Squeezed(dashed), IsDash);
    OnlyOfDashed(text, IsNamespaceChar, false, IsLower);
    OnlyOfSqueezed(dashed, IsLower);
    OnlyOfTrim(Squeezed(dashed), IsDash, IsLower);
    DashedLaws(text, IsNamespaceChar, false);
    SqueezedLaws(dashed, IsNamespaceChar);
    TrimLaws(Squeezed(dashed), IsDash);
    KeptAll(kept, Squeezed(dashed), IsNamespaceChar);
    assert kept != "" ==> IsLower(kept[0]);
  }

  lemma {:induction false} TrimRightKeepsPrefix(before: string, text: string, blank: char -> bool)
    requires text != "" && !blank(text[0])
    ensures TrimRight(before + text, blank) == before + TrimRight(text, blank)
  {
    var whole := before + text;
    assert whole[|whole| - 1] == text[|text| - 1];
    if blank(text[|text| - 1]) {
      assert whole[..|whole| - 1] == before + text[..|text| - 1];
      TrimRightKeepsPrefix(before, text[..|text| - 1], blank);
    }
  }

  lemma JoinedIsLabel(start: string, tenant: string, cluster: string)
    requires IsDnsLabel(start) && |start| == 10
    requires All(tenant, IsNamespaceChar) && |tenant| <= 20
    requires All(cluster, IsNamespaceChar) && 1 <= |cluster| <= 20 && IsLower(cluster[|cluster| - 1])
    ensures IsDnsLabel(start + "-" + tenant + "-" + cluster)
  {
    var whole := start + "-" + tenant + "-" + cluster;
    assert whole[0] == start[0] && whole[|whole| - 1] == cluster[|cluster| - 1];
  }

  /** Stripping dashes only reaches the end of the cluster part. */
  lemma TrimmedEnd(start: string, tenant: string, cluster: string)
    requires start != "" && !IsDash(start[0]) && cluster != "" && !IsDash(cluster[0])
    ensures Trim(start + "-" + tenant + "-" + cluster, IsDash) == start + "-" + tenant + "-" + TrimRight(cluster, IsDash)
  {
    var before := start + "-" + tenant + "-";
    assert before + cluster == start + "-" + tenant + "-" + cluster;
    assert (before + cluster)[0] == start[0];
    TrimRightKeepsPrefix(before, cluster, IsDash);
  }

  lemma ClusterLaws(cluster: string)
    requires All(cluster, IsNamespaceChar) && cluster != "" && IsLower(cluster[0])
    ensures var kept := TrimRight(cluster, IsDash);
      1 <= |kept| && kept <= cluster && All(kept, IsNamespaceChar) && IsLower(kept[|kept| - 1])
  {
    TrimRightLaws(cluster, IsDash);
    TrimRightKeepsFirst(cluster, IsDash);
    var kept := TrimRight(cluster, IsDash);
    assert IsNamespaceChar(kept[|kept| - 1]);
  }

  /** Every suggestion is a DNS label of at most 52 characters that shows both parts: neither the second
      cut nor the fallback is ever taken. */
  lemma SuggestionIsLabel(tenantId: Option<string>, actor: string, clusterName: Option<string>,
                          lower: string -> string) returns (tenant: string, cluster: string, dashes: string)
    ensures IsDnsLabel(SuggestNamespace(tenantId, actor, clusterName, lower))
    ensures SuggestNamespace(tenantId, actor, clusterName, lower) == "sparkpilot" + "-" + tenant + "-" + cluster
    ensures tenant != "" && IsFirstTwenty(tenant, NamespaceFragment(Underscored(
      if tenantId.None? || tenantId == Some("") then actor else tenantId.value), lower))
    ensures cluster != "" && AllBlank(dashes, IsDash)
    ensures IsFirstTwenty(cluster + dashes, NamespaceFragment(
      if clusterName.None? || clusterName == Some("") then "cluster" else clusterName.value, lower))
  {
    FragmentLaws(Underscored(Or(tenantId, actor)), lower);
    FragmentLaws(Or(clusterName, "cluster"), lower);
    tenant := FirstChars(NamespaceFragment(Underscored(Or(tenantId, actor)), lower), 20);
    var clusterPart := FirstChars(NamespaceFragment(Or(clusterName, "cluster"), lower), 20);
    cluster := JoinedLaws(tenant, clusterPart);
    dashes := clusterPart[|cluster|..];
    assert clusterPart == cluster + dashes;
  }

  /** The first twenty characters, or all. */
  predicate IsFirstTwenty(part: string, whole: string) {
    part <= whole && |part| == if |whole| < 20 then |whole| else 20
  }

  lemma JoinedLaws(tenant: string, clusterPart: string) returns (cluster: string)
    requires All(tenant, IsNamespaceChar) && |tenant| <= 20
    requires All(clusterPart, IsNamespaceChar) && 1 <= |clusterPart| <= 20 && IsLower(clusterPart[0])
    ensures IsDnsLabel(JoinParts(tenant, clusterPart))
    ensures JoinParts(tenant, clusterPart) == "sparkpilot" + "-" + tenant + "-" + cluster
    ensures cluster != "" && cluster <= clusterPart && AllBlank(clusterPart[|cluster|..], IsDash)
  {
    SparkpilotIsLabel();
    cluster := TrimRight(clusterPart, IsDash);
    TrimRightDrops(clusterPart, IsDash);
    ClusterLaws(clusterPart);
    TrimmedEnd("sparkpilot", tenant, clusterPart);
    JoinedIsLabel("sparkpilot", tenant, cluster);
    assert "sparkpilot-" == "sparkpilot" + "-";
  }
}
